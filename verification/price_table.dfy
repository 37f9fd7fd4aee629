/** upsert_price_rows and merge_price_export as they are written: loops over the incoming records that
    change a table, and a file's dictionary, in place. */
module PriceTables {
  import opened Base
  import opened Prices

  /** What a list of row updates leaves behind, the last one winning. */
  function Writes(updates: seq<(Key, Stored)>): Rows {
    if updates == [] then map[]
    else
      var last := updates[|updates| - 1];
      Writes(updates[..|updates| - 1])[last.0 := last.1]
  }

  /** The stored rows a source changes. */
  function PatchOf(rows: Rows, source: View): Rows {
    map k | k in rows && Differs(k, rows[k], source) :: Patched(k, rows[k], source)
  }

  lemma PatchGrows(rows: Rows, source: View, k: Key, f: Fields)
    requires k !in source
    ensures var before, after := PatchOf(rows, source), PatchOf(rows, source[k := f]);
      && k !in before
      && after == if k in rows && Merge(rows[k].fields, f) != rows[k].fields
                  then before[k := rows[k].(fields := Merge(rows[k].fields, f))] else before
  {
  }

  lemma WritesAppend(updates: seq<(Key, Stored)>, u: (Key, Stored))
    ensures Writes(updates + [u]) == Writes(updates)[u.0 := u.1]
  {
    assert (updates + [u])[..|updates|] == updates;
  }

  lemma PlusUpdate<K, V>(a: map<K, V>, b: map<K, V>, k: K, v: V)
    ensures (a + b)[k := v] == a + b[k := v]
  {
  }

  lemma {:induction false} WritesConcat(a: seq<(Key, Stored)>, b: seq<(Key, Stored)>)
    ensures Writes(a + b) == Writes(a) + Writes(b)
  {
    if b == [] {
      assert a + b == a;
    } else {
      hide Writes;
      var front, u := b[..|b| - 1], b[|b| - 1];
      WritesConcat(a, front);
      AppendLast(a, b);
      WritesAppend(a + front, u);
      WritesAppend(front, u);
      PlusUpdate(Writes(a), Writes(front), u.0, u.1);
    }
  }

  lemma WritesSplit(updates: seq<(Key, Stored)>, start: nat, end: nat)
    requires start <= end <= |updates|
    ensures Writes(updates[..start]) + Writes(updates[start..end]) == Writes(updates[..end])
  {
    hide Writes;
    assert updates[..end] == updates[..start] + updates[start..end];
    WritesConcat(updates[..start], updates[start..end]);
  }

  lemma NumberedGrows(records: seq<Record>, r: Record, next: nat)
    ensures Numbered(records + [r], next) == Numbered(records, next)[r.key := Stored(next + |records|, r.fields)]
  {
    assert (records + [r])[..|records|] == records;
  }

  lemma NumberedConcatNext(a: seq<Record>, front: seq<Record>, r: Record, next: nat)
    requires Numbered(a + front, next) == Numbered(a, next) + Numbered(front, next + |a|)
    ensures Numbered(a + front + [r], next) == Numbered(a, next) + Numbered(front + [r], next + |a|)
  {
    NumberedGrows(a + front, r, next);
    NumberedGrows(front, r, next + |a|);
    PlusUpdate(Numbered(a, next), Numbered(front, next + |a|), r.key, Stored(next + |a| + |front|, r.fields));
    hide Numbered;
  }

  lemma {:induction false} NumberedConcat(a: seq<Record>, b: seq<Record>, next: nat)
    ensures Numbered(a + b, next) == Numbered(a, next) + Numbered(b, next + |a|)
  {
    NumberedNothing(next + |a|);
    hide Numbered;
    if b == [] {
      assert a + b == a;
    } else {
      NumberedConcat(a, b[..|b| - 1], next);
      NumberedConcatNext(a, b[..|b| - 1], b[|b| - 1], next);
      AppendLast(a, b);
    }
  }

  lemma ChunkInserted(before: Rows, now: Rows, absent: seq<Record>, start: nat, end: nat, next: nat)
    requires start <= end <= |absent| && now == before + Numbered(absent[..start], next)
    ensures now + Numbered(absent[start..end], next + start) == before + Numbered(absent[..end], next)
  {
    NumberedSplit(absent, start, end, next);
    hide Numbered;
  }

  lemma ChunkWritten(before: Rows, now: Rows, changed: seq<(Key, Stored)>, start: nat, end: nat)
    requires start <= end <= |changed| && now == before + Writes(changed[..start])
    ensures now + Writes(changed[start..end]) == before + Writes(changed[..end])
  {
    WritesSplit(changed, start, end);
    hide Writes;
  }

  lemma NumberedNothing(next: nat)
    ensures Numbered([], next) == map[]
  {
  }

  lemma NumberedSplit(records: seq<Record>, start: nat, end: nat, next: nat)
    requires start <= end <= |records|
    ensures Numbered(records[..start], next) + Numbered(records[start..end], next + start)
            == Numbered(records[..end], next)
  {
    hide Numbered;
    assert records[..end] == records[..start] + records[start..end];
    NumberedConcat(records[..start], records[start..end], next);
  }

  lemma {:induction false} NumberedKeys(stored: set<Key>, records: seq<Record>, next: nat)
    ensures Numbered(Unstored(stored, records), next).Keys !! stored
  {
    if records != [] {
      var front, last := records[..|records| - 1], records[|records| - 1];
      NumberedKeys(stored, front, next);
      if last.key !in stored {
        NumberedGrows(Unstored(stored, front), last, next);
      } else {
        assert Unstored(stored, records) == Unstored(stored, front);
      }
    }
  }

  /** Inserting the unstored records and then writing the patch is `Upserted`. */
  lemma InsertThenPatch(rows: Rows, records: seq<Record>, next: nat)
    ensures rows + Numbered(Unstored(rows.Keys, records), next) + PatchOf(rows, Book(records))
            == Upserted(rows, records, next)
  {
    NumberedKeys(rows.Keys, records, next);
  }

  lemma NothingToWrite(rows: Rows, records: seq<Record>, next: nat)
    requires records == []
    ensures Upserted(rows, records, next) == rows && PatchOf(rows, Book(records)) == map[]
    ensures Unstored(rows.Keys, records) == []
  {
    assert Book([]) == map[];
    assert Updated(rows, map[]) == rows && Numbered([], next) == map[];
  }

  /** What the first loop holds once `records` are read. */
  ghost predicate Classified(rows: Rows, records: seq<Record>, absent: seq<Record>, changed: seq<(Key, Stored)>, same: nat) {
    && absent == Unstored(rows.Keys, records)
    && Writes(changed) == PatchOf(rows, Book(records)) && |changed| == |PatchOf(rows, Book(records))|
    && |absent| + |changed| + same == |records|
  }

  lemma ClassifyStart(rows: Rows, records: seq<Record>)
    ensures Classified(rows, records[..0], [], [], 0)
  {
    assert records[..0] == [];
    assert PatchOf(rows, Book([])) == map[];
  }

  lemma ClassifyEnd(rows: Rows, records: seq<Record>, absent: seq<Record>, changed: seq<(Key, Stored)>, same: nat)
    requires Classified(rows, records[..|records|], absent, changed, same)
    ensures absent == Unstored(rows.Keys, records)
    ensures Writes(changed) == PatchOf(rows, Book(records)) && |changed| == |PatchOf(rows, Book(records))|
    ensures |absent| + |changed| + same == |records|
  {
    TakeAll(records);
  }

  lemma NewKey(records: seq<Record>, i: nat)
    requires Distinct(records) && i < |records|
    ensures records[i].key !in Book(records[..i])
  {
    BookKeys(records[..i], records[i].key);
  }

  lemma UnstoredNext(stored: set<Key>, records: seq<Record>, r: Record)
    ensures Unstored(stored, records + [r]) == Unstored(stored, records) + (if r.key in stored then [] else [r])
  {
    assert (records + [r])[..|records|] == records;
  }

  lemma PatchSize(patch: Rows, k: Key, row: Stored)
    requires k !in patch
    ensures |patch[k := row]| == |patch| + 1
  {
    assert patch[k := row].Keys == patch.Keys + {k};
  }

  lemma ClassifyAbsent(rows: Rows, records: seq<Record>, r: Record,
                       absent: seq<Record>, changed: seq<(Key, Stored)>, same: nat)
    requires Classified(rows, records, absent, changed, same) && r.key !in Book(records) && r.key !in rows
    ensures Classified(rows, records + [r], absent + [r], changed, same)
  {
    UnstoredNext(rows.Keys, records, r);
    BookAppend(records, r);
    PatchGrows(rows, Book(records), r.key, r.fields);
    hide Book, Unstored, PatchOf, Writes, Merge;
  }

  lemma ClassifyStored(rows: Rows, records: seq<Record>, r: Record,
                       absent: seq<Record>, changed: seq<(Key, Stored)>, same: nat, merged: Fields)
    requires Classified(rows, records, absent, changed, same) && r.key !in Book(records) && r.key in rows
    requires merged == Merge(rows[r.key].fields, r.fields)
    ensures var more := records + [r];
      if merged != rows[r.key].fields then Classified(rows, more, absent, changed + [(r.key, rows[r.key].(fields := merged))], same)
      else Classified(rows, more, absent, changed, same + 1)
  {
    UnstoredNext(rows.Keys, records, r);
    BookAppend(records, r);
    PatchGrows(rows, Book(records), r.key, r.fields);
    var row := rows[r.key].(fields := merged);
    WritesAppend(changed, (r.key, row));
    hide Book, Unstored, PatchOf, Writes, Merge;
    PatchSize(PatchOf(rows, Book(records)), r.key, row);
  }

  lemma ClassifyStep(rows: Rows, records: seq<Record>, r: Record,
                     absent: seq<Record>, changed: seq<(Key, Stored)>, same: nat)
    requires Classified(rows, records, absent, changed, same) && r.key !in Book(records)
    ensures
      var more := records + [r];
      if r.key !in rows then Classified(rows, more, absent + [r], changed, same)
      else
        var merged := Merge(rows[r.key].fields, r.fields);
        if merged != rows[r.key].fields then Classified(rows, more, absent, changed + [(r.key, rows[r.key].(fields := merged))], same)
        else Classified(rows, more, absent, changed, same + 1)
  {
    hide Classified, Book, Merge;
    if r.key !in rows {
      ClassifyAbsent(rows, records, r, absent, changed, same);
    } else {
      ClassifyStored(rows, records, r, absent, changed, same, Merge(rows[r.key].fields, r.fields));
    }
  }

  /** The rows that differ afterwards are those of the patch. */
  lemma ChangedRows(rows: Rows, records: seq<Record>, next: nat)
    requires Distinct(records) && IdsBelow(rows, next) && IdsDistinct(rows)
    ensures var t := Upserted(rows, records, next);
      rows.Keys <= t.Keys && |PatchOf(rows, Book(records))| == |set k | k in rows && t[k] != rows[k]|
  {
    NumberedKeys(rows.Keys, records, next);
    PatchedRows(rows, Book(records), Numbered(Unstored(rows.Keys, records), next));
    hide Book, Unstored, Numbered, PatchOf, Updated;
  }

  lemma PatchedRows(rows: Rows, source: View, added: Rows)
    requires added.Keys !! rows.Keys
    ensures var t := Updated(rows, source) + added;
      rows.Keys <= t.Keys && |PatchOf(rows, source)| == |set k | k in rows && t[k] != rows[k]|
  {
    var t, patch := Updated(rows, source) + added, PatchOf(rows, source);
    hide Merge;
    assert forall k <- rows :: t[k] == Patched(k, rows[k], source);
    assert patch.Keys == set k | k in rows && t[k] != rows[k];
  }

  class PriceTable {
    var rows: Rows
    var next: nat

    ghost predicate Valid()
      reads this
    {
      IdsBelow(rows, next) && IdsDistinct(rows)
    }

    constructor ()
      ensures Valid() && rows == map[]
    {
      rows, next := map[], 0;
    }

    /** bulk_save_objects(build_price_rows(batch)) */
    method InsertBatch(batch: seq<Record>)
      modifies this
      ensures next == old(next) + |batch| && rows == old(rows) + Numbered(batch, old(next))
    {
      TakeAll(batch);
      assert rows == rows + Numbered([], next);
      hide Numbered;
      var i := 0;
      while i < |batch|
        invariant 0 <= i <= |batch|
        invariant next == old(next) + i && rows == old(rows) + Numbered(batch[..i], old(next))
      {
        TakeNext(batch, i);
        NumberedGrows(batch[..i], batch[i], old(next));
        PlusUpdate(old(rows), Numbered(batch[..i], old(next)), batch[i].key, Stored(next, batch[i].fields));
        rows, next := rows[batch[i].key := Stored(next, batch[i].fields)], next + 1;
        i := i + 1;
      }
    }

    /** session.execute(update(CatalogPrice), batch) */
    method UpdateBatch(batch: seq<(Key, Stored)>)
      modifies `rows
      ensures rows == old(rows) + Writes(batch)
    {
      TakeAll(batch);
      assert rows == rows + Writes([]);
      hide Writes;
      var i := 0;
      while i < |batch|
        invariant 0 <= i <= |batch|
        invariant rows == old(rows) + Writes(batch[..i])
      {
        TakeNext(batch, i);
        WritesAppend(batch[..i], batch[i]);
        PlusUpdate(old(rows), Writes(batch[..i]), batch[i].0, batch[i].1);
        rows := rows[batch[i].0 := batch[i].1];
        i := i + 1;
      }
    }

    /** The first loop of upsert_price_rows: which records are new, which rows they change. */
    method Classify(records: seq<Record>)
      returns (absent: seq<Record>, changed: seq<(Key, Stored)>, same: nat)
      requires Distinct(records)
      ensures absent == Unstored(rows.Keys, records)
      ensures Writes(changed) == PatchOf(rows, Book(records)) && |changed| == |PatchOf(rows, Book(records))|
      ensures |absent| + |changed| + same == |records|
    {
      absent, changed, same := [], [], 0;
      ClassifyStart(rows, records);
      hide Classified, Distinct, Book, PatchOf, Unstored, Writes, Merge;
      var i := 0;
      while i < |records|
        invariant 0 <= i <= |records|
        invariant Classified(rows, records[..i], absent, changed, same)
      {
        var r := records[i];
        NewKey(records, i);
        ClassifyStep(rows, records[..i], r, absent, changed, same);
        TakeNext(records, i);
        if r.key !in rows {
          absent := absent + [r];
        } else {
          var merged := Merge(rows[r.key].fields, r.fields);
          if merged != rows[r.key].fields {
            changed := changed + [(r.key, rows[r.key].(fields := merged))];
          } else {
            same := same + 1;
          }
        }
        i := i + 1;
      }
      ClassifyEnd(rows, records, absent, changed, same);
    }

    /** The second loop: inserts in chunks. */
    method InsertInChunks(absent: seq<Record>, chunk: nat) returns (inserted: nat)
      requires chunk >= 1
      modifies this
      ensures rows == old(rows) + Numbered(absent, old(next)) && next == old(next) + |absent|
      ensures inserted == |absent|
    {
      var start := 0;
      inserted := 0;
      TakeAll(absent);
      hide Numbered;
      NumberedNothing(old(next));
      while start < |absent|
        invariant 0 <= start <= |absent| && inserted == start
        invariant rows == old(rows) + Numbered(absent[..start], old(next)) && next == old(next) + start
      {
        var end := Min(start + chunk, |absent|);
        ChunkInserted(old(rows), rows, absent, start, end, old(next));
        InsertBatch(absent[start..end]);
        inserted := inserted + (end - start);
        start := end;
      }
    }

    /** The third loop: updates in chunks. */
    method UpdateInChunks(changed: seq<(Key, Stored)>, chunk: nat) returns (updated: nat)
      requires chunk >= 1
      modifies `rows
      ensures rows == old(rows) + Writes(changed)
      ensures updated == |changed|
    {
      var start := 0;
      updated := 0;
      TakeAll(changed);
      assert rows == rows + Writes([]);
      hide Writes;
      while start < |changed|
        invariant 0 <= start <= |changed| && updated == start
        invariant rows == old(rows) + Writes(changed[..start])
      {
        var end := Min(start + chunk, |changed|);
        ChunkWritten(old(rows), rows, changed, start, end);
        UpdateBatch(changed[start..end]);
        updated := updated + (end - start);
        start := end;
      }
    }

    /** upsert_price_rows, row by row. */
    method WriteRecords(records: seq<Record>, chunk: nat) returns (stats: Stats)
      requires Distinct(records) && chunk >= 1
      modifies this
      ensures rows == Upserted(old(rows), records, old(next))
      ensures next == old(next) + |Unstored(old(rows).Keys, records)|
      ensures stats.inserted == |Unstored(old(rows).Keys, records)|
      ensures stats.updated == |PatchOf(old(rows), Book(records))|
      ensures stats.inserted + stats.updated + stats.same == |records|
    {
      hide Upserted, Numbered, Unstored, Book, PatchOf, Writes;
      if records == [] {
        NothingToWrite(rows, records, next);
        return Stats(0, 0, 0);
      }
      InsertThenPatch(rows, records, next);
      var absent, changed, same := Classify(records);
      var inserted := InsertInChunks(absent, chunk);
      var updated := UpdateInChunks(changed, chunk);
      stats := Stats(inserted, updated, same);
    }

    /** Whatever the chunk size, the table becomes the field-wise overlay, no row and no id is lost,
        and every record is counted once. */
    method UpsertPriceRows(records: seq<Record>, chunk: nat) returns (stats: Stats)
      requires Valid() && Distinct(records) && chunk >= 1
      modifies this
      ensures Valid() && rows == Upserted(old(rows), records, old(next))
      ensures ViewOf(rows) == Overlay(ViewOf(old(rows)), Book(records))
      ensures forall k <- old(rows) :: k in rows && rows[k].id == old(rows)[k].id
      ensures stats.inserted == |rows| - |old(rows)|
      ensures forall r <- records :: TakesRecord(old(rows), rows, r)
      ensures stats.updated == |set k | k in old(rows) && rows[k] != old(rows)[k]|
      ensures stats.inserted + stats.updated + stats.same == |records|
    {
      UpsertIsOverlay(rows, records, next);
      RecordsArrive(rows, records, next);
      ChangedRows(rows, records, next);
      hide Upserted, TakesRecord, Overlay, PatchOf, ViewOf, Book, Unstored;
      stats := WriteRecords(records, chunk);
    }
  }

  /* ---------- the accumulating export file ---------- */

  datatype MergeStats = MergeStats(before: nat, added: nat, updated: nat, after: nat)

  /** merge_price_export: the file only grows; a record of this database replaces the file's record of
      the same triple whole. The result is the dictionary before it is sorted. */
  method MergePriceExport(previous: seq<Record>, current: seq<Record>) returns (merged: View, stats: MergeStats)
    requires Distinct(current)
    ensures merged == Book(previous) + Book(current)
    ensures stats.before == |Book(previous)| && stats.after == |merged|
    ensures stats.after == stats.before + stats.added
    ensures var file, added := Book(previous), Book(current);
      stats.updated == |set k | k in file && k in added && file[k] != added[k]|
  {
    var file := ReadBook(previous);
    merged := file;
    var added, updated := 0, 0;
    RewrittenMeans(Book(previous), Book(current));
    hide Book, Rewritten;
    MergeStart(file);
    var i := 0;
    while i < |current|
      invariant 0 <= i <= |current|
      invariant Merged(file, Book(current[..i]), merged, added, updated)
    {
      var r := current[i];
      assert current[..i + 1] == current[..i] + [r];
      BookAppend(current[..i], r);
      BookKeys(current[..i], r.key);
      MergeStep(file, Book(current[..i]), merged, added, updated, r);
      if r.key !in merged {
        added := added + 1;
      } else if merged[r.key] != r.fields {
        updated := updated + 1;
      }
      merged := merged[r.key := r.fields];
      i := i + 1;
    }
    assert current[..|current|] == current;
    stats := MergeStats(|file|, added, updated, |merged|);
  }

  /** The mapping already in the file. */
  method ReadBook(records: seq<Record>) returns (book: View)
    ensures book == Book(records)
  {
    book := map[];
    assert records[..0] == [];
    hide Book;
    assert book == Book(records[..0]) by { EmptyBook(records[..0]); }
    var i := 0;
    while i < |records|
      invariant 0 <= i <= |records| && book == Book(records[..i])
    {
      assert records[..i + 1] == records[..i] + [records[i]];
      BookAppend(records[..i], records[i]);
      book := book[records[i].key := records[i].fields];
      i := i + 1;
    }
    assert records[..|records|] == records;
  }

  lemma EmptyBook(records: seq<Record>)
    requires records == []
    ensures Book(records) == map[]
  {
  }

  /** The state of the merge once the records of `current` are in. */
  ghost predicate Merged(file: View, current: View, merged: View, added: int, updated: int) {
    merged == file + current && |merged| == |file| + added && updated == |Rewritten(file, current)|
  }

  lemma MergeStart(file: View)
    ensures Book([]) == map[] && Merged(file, map[], file, 0, 0)
  {
    assert file + map[] == file;
    assert Rewritten(file, map[]) == {};
  }

  lemma MergeStep(file: View, current: View, merged: View, added: int, updated: int, r: Record)
    requires Merged(file, current, merged, added, updated) && r.key !in current
    ensures Merged(file, current[r.key := r.fields], merged[r.key := r.fields],
                   if r.key !in merged then added + 1 else added,
                   if r.key in merged && merged[r.key] != r.fields then updated + 1 else updated)
  {
    RewrittenGrows(file, current, r.key, r.fields);
    PlusUpdate(file, current, r.key, r.fields);
    hide Rewritten;
    UpdateSize(merged, r.key, r.fields);
  }

  lemma UpdateSize(m: View, k: Key, f: Fields)
    ensures |m[k := f]| == if k in m then |m| else |m| + 1
  {
    assert m[k := f].Keys == m.Keys + {k};
  }

  /** The triples whose record in the file a newer one replaces with another. */
  function Rewritten(file: View, current: View): set<Key> {
    set k | k in file && k in current && file[k] != current[k]
  }

  lemma RewrittenMeans(file: View, added: View)
    ensures Rewritten(file, added) == set k | k in file && k in added && file[k] != added[k]
  {
  }

  lemma RewrittenGrows(file: View, current: View, k: Key, f: Fields)
    requires k !in current
    ensures Rewritten(file, current[k := f]) ==
      if k in file && file[k] != f then Rewritten(file, current) + {k} else Rewritten(file, current)
    ensures k !in Rewritten(file, current)
  {
  }
}
