/** scripts/import_prices.py: the one writer of catalog_prices. A source owns the (year, number, code)
    triples it carries, and an incoming None never overwrites a stored value. */
module Prices {
  import opened Base

  datatype Key = Key(year: int, number: int, code: string)

  /** MUTABLE_FIELDS */
  datatype Fields = Fields(
    name: Option<string>, consumer: Option<int>, consultant: Option<int>, points: Option<int>)

  datatype Record = Record(key: Key, fields: Fields)

  /** One row of catalog_prices; the unique index on the triple makes the table a map. */
  datatype Stored = Stored(id: nat, fields: Fields)

  type Rows = map<Key, Stored>

  /** The table, or a source, by triple. */
  type View = map<Key, Fields>

  datatype Stats = Stats(inserted: nat, updated: nat, same: nat)

  function Prefer<T>(incoming: Option<T>, stored: Option<T>): Option<T> {
    if incoming.Some? then incoming else stored
  }

  /** The merge rule: a field changes when the incoming value is not None and differs. */
  function Merge(stored: Fields, incoming: Fields): Fields {
    Fields(Prefer(incoming.name, stored.name), Prefer(incoming.consumer, stored.consumer),
           Prefer(incoming.consultant, stored.consultant), Prefer(incoming.points, stored.points))
  }

  /** One import by triple: what is stored takes the incoming fields that are not None, and a new
      triple is stored as it came. */
  function Overlay(v: View, source: View): View {
    map k | k in v.Keys + source.Keys ::
      if k !in source then v[k] else if k in v then Merge(v[k], source[k]) else source[k]
  }

  ghost predicate Distinct(records: seq<Record>) {
    forall i, j | 0 <= i < j < |records| :: records[i].key != records[j].key
  }

  function Book(records: seq<Record>): View {
    if records == [] then map[]
    else
      var last := records[|records| - 1];
      Book(records[..|records| - 1])[last.key := last.fields]
  }

  lemma {:induction false} BookHolds(records: seq<Record>)
    requires Distinct(records)
    ensures |Book(records)| == |records|
    ensures forall k <- Book(records) :: Record(k, Book(records)[k]) in records
    ensures forall r <- records :: r.key in Book(records) && Book(records)[r.key] == r.fields
  {
    if records != [] {
      var front, last := records[..|records| - 1], records[|records| - 1];
      BookHolds(front);
      AppendLast([], records);
      assert last.key !in Book(front);
      var book := Book(front);
      assert Book(records) == book[last.key := last.fields];
      hide Book, Distinct;
    }
  }

  lemma {:induction false} BookKeys(records: seq<Record>, k: Key)
    ensures k in Book(records) <==> exists i | 0 <= i < |records| :: records[i].key == k
  {
    if records != [] {
      var n := |records| - 1;
      BookKeys(records[..n], k);
      assert records[n].key == k ==> k in Book(records);
    }
  }

  /* ---------- what upsert_price_rows does row by row ---------- */

  function ViewOf(rows: Rows): View {
    map k | k in rows :: rows[k].fields
  }

  ghost predicate IdsBelow(rows: Rows, next: nat) {
    forall k <- rows :: rows[k].id < next
  }

  /** The primary key. */
  ghost predicate IdsDistinct(rows: Rows) {
    forall j, k {:trigger rows[j].id, rows[k].id} | j in rows && k in rows && j != k :: rows[j].id != rows[k].id
  }

  lemma DistinctTogether(a: Rows, b: Rows, next: nat)
    requires IdsDistinct(a) && IdsDistinct(b) && IdsBelow(a, next) && forall k <- b :: next <= b[k].id
    ensures IdsDistinct(a + b)
  {
    var t := a + b;
    forall j, k | j in t && k in t && j != k
      ensures t[j].id != t[k].id
    {
      if j in b && k in b {
        assert b[j].id != b[k].id;
      } else if j !in b && k !in b {
        assert a[j].id != a[k].id;
      }
    }
  }

  lemma UpdatedDistinct(rows: Rows, source: View)
    requires IdsDistinct(rows)
    ensures IdsDistinct(Updated(rows, source))
  {
    var t := Updated(rows, source);
    forall j, k | j in t && k in t && j != k
      ensures t[j].id != t[k].id
    {
      assert rows[j].id != rows[k].id;
    }
  }

  function Patched(k: Key, row: Stored, source: View): Stored {
    if k in source then row.(fields := Merge(row.fields, source[k])) else row
  }

  function Updated(rows: Rows, source: View): Rows {
    map k | k in rows :: Patched(k, rows[k], source)
  }

  /** The records whose triple is not stored yet, in order. */
  function Unstored(stored: set<Key>, records: seq<Record>): seq<Record> {
    if records == [] then []
    else
      var last := records[|records| - 1];
      Unstored(stored, records[..|records| - 1]) + (if last.key in stored then [] else [last])
  }

  /** New rows take the ids from `next` on. */
  function Numbered(records: seq<Record>, next: nat): Rows {
    if records == [] then map[]
    else
      var n := |records| - 1;
      Numbered(records[..n], next)[records[n].key := Stored(next + n, records[n].fields)]
  }

  function Upserted(rows: Rows, records: seq<Record>, next: nat): Rows {
    Updated(rows, Book(records)) + Numbered(Unstored(rows.Keys, records), next)
  }

  lemma {:induction false} UnstoredDistinct(stored: set<Key>, records: seq<Record>)
    requires Distinct(records)
    ensures var u := Unstored(stored, records);
      Distinct(u) && |u| <= |records| && forall r <- u :: r in records
  {
    if records != [] {
      var front, last := records[..|records| - 1], records[|records| - 1];
      UnstoredDistinct(stored, front);
      assert forall r <- front :: r in records && r.key != last.key;
    }
  }

  lemma BookAppend(records: seq<Record>, r: Record)
    ensures Book(records + [r]) == Book(records)[r.key := r.fields]
  {
    assert (records + [r])[..|records|] == records;
  }

  lemma MinusUpdate<K, V>(m: map<K, V>, gone: set<K>, k: K, v: V)
    ensures k !in gone ==> (m - gone)[k := v] == m[k := v] - gone
    ensures k in gone ==> m - gone == m[k := v] - gone
  {
  }

  lemma {:induction false} UnstoredBook(stored: set<Key>, records: seq<Record>)
    ensures Book(Unstored(stored, records)) == Book(records) - stored
  {
    if records != [] {
      var front, last := records[..|records| - 1], records[|records| - 1];
      var before, v := Book(front), Unstored(stored, front);
      UnstoredBook(stored, front);
      assert Book(v) == before - stored;
      BookAppend(v, last);
      MinusUpdate(before, stored, last.key, last.fields);
      assert v + [] == v;
    }
  }

  lemma NumberedAppend(s: Rows, id: nat, k: Key, f: Fields)
    requires k !in s && IdsBelow(s, id)
    ensures var t := s[k := Stored(id, f)]; ViewOf(t) == ViewOf(s)[k := f] && IdsBelow(t, id + 1) && |t| == |s| + 1
  {
  }

  lemma {:induction false} NumberedDistinct(records: seq<Record>, next: nat)
    ensures IdsDistinct(Numbered(records, next)) && IdsBelow(Numbered(records, next), next + |records|)
  {
    if records != [] {
      var n := |records| - 1;
      NumberedDistinct(records[..n], next);
      var s, t := Numbered(records[..n], next), Numbered(records, next);
      forall j, k | j in t && k in t && j != k
        ensures t[j].id != t[k].id
      {
        if j != records[n].key && k != records[n].key {
          assert s[j].id != s[k].id;
        }
      }
    }
  }

  lemma {:induction false} NumberedIs(records: seq<Record>, next: nat)
    requires Distinct(records)
    ensures var t := Numbered(records, next);
      && ViewOf(t) == Book(records) && |t| == |records|
      && IdsBelow(t, next + |records|) && (forall k <- t :: next <= t[k].id)
  {
    if records != [] {
      var n := |records| - 1;
      var front, last := records[..n], records[n];
      NumberedIs(front, next);
      BookKeys(front, last.key);
      var s := Numbered(front, next);
      assert s.Keys == ViewOf(s).Keys;
      NumberedAppend(s, next + n, last.key, last.fields);
    }
  }

  /** The row-level result is the field-wise overlay, removes no row, keeps every id, and gives each
      new row an id of its own. */
  lemma UpsertIsOverlay(rows: Rows, records: seq<Record>, next: nat)
    requires Distinct(records) && IdsBelow(rows, next) && IdsDistinct(rows)
    ensures var t, u := Upserted(rows, records, next), Unstored(rows.Keys, records);
      && IdsDistinct(t)
      && ViewOf(t) == Overlay(ViewOf(rows), Book(records))
      && rows.Keys <= t.Keys && (forall k <- rows :: t[k].id == rows[k].id)
      && (forall k <- t :: k !in rows ==> t[k].id >= next)
      && |t| == |rows| + |u| && IdsBelow(t, next + |u|)
  {
    var source, u := Book(records), Unstored(rows.Keys, records);
    UnstoredDistinct(rows.Keys, records);
    UnstoredBook(rows.Keys, records);
    NumberedIs(u, next);
    JoinRows(rows, source, Numbered(u, next), next, |u|);
    NumberedDistinct(u, next);
    UpdatedDistinct(rows, source);
    DistinctTogether(Updated(rows, source), Numbered(u, next), next);
  }

  lemma JoinRows(rows: Rows, source: View, b: Rows, next: nat, n: nat)
    requires IdsBelow(rows, next) && ViewOf(b) == source - rows.Keys
    requires IdsBelow(b, next + n) && (forall k <- b :: next <= b[k].id)
    ensures var t := Updated(rows, source) + b;
      && ViewOf(t) == Overlay(ViewOf(rows), source)
      && rows.Keys <= t.Keys && (forall k <- rows :: t[k].id == rows[k].id)
      && (forall k <- t :: k !in rows ==> t[k].id >= next)
      && |t| == |rows| + |b| && IdsBelow(t, next + n)
  {
    assert b.Keys == ViewOf(b).Keys == source.Keys - rows.Keys;
    JoinedKeys(rows, source, b, next, n);
    JoinedView(rows, source, b);
  }

  lemma JoinedKeys(rows: Rows, source: View, b: Rows, next: nat, n: nat)
    requires IdsBelow(rows, next) && rows.Keys !! b.Keys
    requires IdsBelow(b, next + n) && (forall k <- b :: next <= b[k].id)
    ensures var t := Updated(rows, source) + b;
      && rows.Keys <= t.Keys && (forall k <- rows :: t[k].id == rows[k].id)
      && (forall k <- t :: k !in rows ==> t[k].id >= next)
      && |t| == |rows| + |b| && IdsBelow(t, next + n)
  {
    var t := Updated(rows, source) + b;
    assert t.Keys == rows.Keys + b.Keys && |rows.Keys + b.Keys| == |rows| + |b|;
    assert forall k <- t :: if k in rows then t[k].id == rows[k].id else k in b && t[k].id == b[k].id;
  }

  lemma JoinedView(rows: Rows, source: View, b: Rows)
    requires ViewOf(b) == source - rows.Keys
    ensures ViewOf(Updated(rows, source) + b) == Overlay(ViewOf(rows), source)
  {
    assert b.Keys == ViewOf(b).Keys;
    assert forall k <- b :: b[k].fields == ViewOf(b)[k] == source[k];
  }

  /* ---------- what an import can and cannot change ---------- */

  /** A field takes the incoming value if there is one, and otherwise stays. */
  predicate Takes<T(==)>(was: Option<T>, incoming: Option<T>, now: Option<T>) {
    (incoming.Some? ==> now == incoming) && (incoming.None? ==> now == was)
  }

  /** The record's triple is stored, and each of its fields has been taken over the stored one, if any. */
  predicate TakesRecord(rows: Rows, t: Rows, r: Record) {
    r.key in t &&
    var was := if r.key in rows then rows[r.key].fields else Fields(None, None, None, None);
    var now := t[r.key].fields;
    && Takes(was.name, r.fields.name, now.name) && Takes(was.consumer, r.fields.consumer, now.consumer)
    && Takes(was.consultant, r.fields.consultant, now.consultant) && Takes(was.points, r.fields.points, now.points)
  }

  ghost predicate Named(records: seq<Record>, k: Key) {
    exists i | 0 <= i < |records| :: records[i].key == k
  }

  lemma NamedIsBooked(records: seq<Record>)
    ensures forall k :: Named(records, k) <==> k in Book(records)
  {
    hide Book;
    forall k ensures Named(records, k) <==> k in Book(records) {
      BookKeys(records, k);
    }
  }

  /** Field by field: every record arrives, a row that no record names is as it was, and nothing else is stored. */
  lemma RecordsArrive(rows: Rows, records: seq<Record>, next: nat)
    requires Distinct(records) && IdsBelow(rows, next) && IdsDistinct(rows)
    ensures var t := Upserted(rows, records, next);
      && (forall r <- records :: TakesRecord(rows, t, r))
      && (forall k <- t :: k in rows || Named(records, k))
      && (forall k <- rows :: !Named(records, k) ==> k in t && t[k] == rows[k])
  {
    UpsertIsOverlay(rows, records, next);
    BookHolds(records);
    NamedIsBooked(records);
    var t, book := Upserted(rows, records, next), Book(records);
    hide Upserted, Book, Named, Unstored, Distinct, IdsBelow, IdsDistinct;
    RestStays(rows, t, book);
    hide Overlay, ViewOf, TakesRecord;
    forall r <- records ensures TakesRecord(rows, t, r) {
      ArrivesIn(rows, t, book, r);
    }
  }

  lemma RestStays(rows: Rows, t: Rows, book: View)
    requires ViewOf(t) == Overlay(ViewOf(rows), book) && rows.Keys <= t.Keys && forall k <- rows :: t[k].id == rows[k].id
    ensures forall k <- t :: k in rows || k in book
    ensures forall k <- rows :: k !in book ==> t[k] == rows[k]
  {
    hide Merge;
    assert t.Keys == ViewOf(t).Keys;
    forall k <- rows | k !in book ensures t[k] == rows[k] {
      assert ViewOf(t)[k] == ViewOf(rows)[k];
    }
  }

  lemma ArrivesIn(rows: Rows, t: Rows, book: View, r: Record)
    requires ViewOf(t) == Overlay(ViewOf(rows), book) && r.key in book && book[r.key] == r.fields
    ensures TakesRecord(rows, t, r)
  {
    assert r.key in ViewOf(t);
    assert t[r.key].fields == ViewOf(t)[r.key];
  }

  /** Of two records of one triple in a file the later one counts. */
  lemma {:induction false} LastRecordCounts(records: seq<Record>, i: nat)
    requires i < |records| && forall j | i < j < |records| :: records[j].key != records[i].key
    ensures records[i].key in Book(records) && Book(records)[records[i].key] == records[i].fields
  {
    var n := |records| - 1;
    if i < n { LastRecordCounts(records[..n], i); }
  }

  predicate Kept<T>(before: Option<T>, after: Option<T>) {
    before.Some? ==> after.Some?
  }

  /** No stored value of `f` has become None in `g`. */
  predicate NoneLost(f: Fields, g: Fields) {
    Kept(f.name, g.name) && Kept(f.consumer, g.consumer) && Kept(f.consultant, g.consultant) && Kept(f.points, g.points)
  }

  function Imports(v: View, sources: seq<View>): View {
    if sources == [] then v
    else Overlay(Imports(v, sources[..|sources| - 1]), sources[|sources| - 1])
  }

  /** Over any sequence of imports no row disappears and no stored value becomes None. */
  lemma {:induction false} ImportsOnlyEnrich(v: View, sources: seq<View>)
    ensures var w := Imports(v, sources); v.Keys <= w.Keys && forall k <- v :: NoneLost(v[k], w[k])
  {
    if sources != [] {
      ImportsOnlyEnrich(v, sources[..|sources| - 1]);
    }
  }

  predicate Differs(k: Key, row: Stored, source: View) {
    Patched(k, row, source) != row
  }

  /** A second run of the same source finds every record stored and no row to change. */
  lemma SecondRunUnchanged(rows: Rows, records: seq<Record>, next: nat, next': nat)
    requires Distinct(records) && IdsBelow(rows, next) && IdsDistinct(rows)
    ensures var t := Upserted(rows, records, next);
      && Unstored(t.Keys, records) == []
      && (forall k <- t :: !Differs(k, t[k], Book(records)))
      && Upserted(t, records, next') == t
  {
    var t, source := Upserted(rows, records, next), Book(records);
    UpsertIsOverlay(rows, records, next);
    Settled(t, ViewOf(rows), records, source, next');
  }

  lemma Settled(t: Rows, v: View, records: seq<Record>, source: View, next: nat)
    requires source == Book(records) && ViewOf(t) == Overlay(v, source)
    ensures Unstored(t.Keys, records) == [] && (forall k <- t :: !Differs(k, t[k], source))
    ensures Upserted(t, records, next) == t
  {
    assert t.Keys == ViewOf(t).Keys;
    AllStored(t.Keys, records);
    OverlaidRowsSettled(t, v, source);
    assert Numbered([], next) == map[];
  }

  lemma OverlaidRowsSettled(t: Rows, v: View, source: View)
    requires ViewOf(t) == Overlay(v, source)
    ensures forall k <- t :: !Differs(k, t[k], source)
    ensures Updated(t, source) == t
  {
    forall k | k in t
      ensures Patched(k, t[k], source) == t[k]
    {
      assert t[k].fields == ViewOf(t)[k];
    }
  }

  lemma {:induction false} AllStored(stored: set<Key>, records: seq<Record>)
    requires Book(records).Keys <= stored
    ensures Unstored(stored, records) == []
  {
    if records != [] { AllStored(stored, records[..|records| - 1]); }
  }

  predicate Compatible<T(==)>(a: Option<T>, b: Option<T>) {
    a.None? || b.None? || a == b
  }

  predicate FieldsAgree(a: Fields, b: Fields) {
    && Compatible(a.name, b.name) && Compatible(a.consumer, b.consumer)
    && Compatible(a.consultant, b.consultant) && Compatible(a.points, b.points)
  }

  /** The two sources never carry different values for one field of one triple. */
  predicate SourcesAgree(a: View, b: View) {
    forall k | k in a && k in b :: FieldsAgree(a[k], b[k])
  }

  lemma MergeOrder(a: Fields, b: Fields)
    ensures Merge(a, b) == Merge(b, a) <==> FieldsAgree(a, b)
    ensures forall f: Fields :: FieldsAgree(a, b) ==> Merge(Merge(f, a), b) == Merge(Merge(f, b), a)
    ensures forall f: Fields :: Merge(Merge(f, a), b) == Merge(Merge(f, b), a) ==> FieldsAgree(a, b)
  {
  }

  /** Two sources may be imported in either order exactly if they agree where both speak. */
  lemma ImportOrder(v: View, a: View, b: View)
    ensures Overlay(Overlay(v, a), b) == Overlay(Overlay(v, b), a) <==> SourcesAgree(a, b)
  {
    var x, y := Overlay(Overlay(v, a), b), Overlay(Overlay(v, b), a);
    assert x.Keys == y.Keys;
    forall k | k in x
      ensures x[k] == y[k] <==> (k in a && k in b ==> FieldsAgree(a[k], b[k]))
    {
      if k in a && k in b { MergeOrder(a[k], b[k]); }
    }
    if x == y {
      forall k | k in a && k in b
        ensures FieldsAgree(a[k], b[k])
      {
        assert k in x && x[k] == y[k];
      }
    }
  }

  /* ---------- the master price list as second source ---------- */

  datatype PriceLine = PriceLine(year: int, number: int, name: Option<string>, consumer: Option<int>, consultant: Option<int>)

  function MasterRecord(code: string, line: PriceLine): Record {
    Record(Key(line.year, line.number, code), Fields(line.name, line.consumer, line.consultant, None))
  }

  /** build_catalog_price_records over `collected` in dictionary order. */
  function MasterRecords(codes: seq<string>, collected: map<string, PriceLine>): seq<Record>
    requires forall c <- codes :: c in collected
  {
    seq(|codes|, i requires 0 <= i < |codes| => MasterRecord(codes[i], collected[codes[i]]))
  }

  /** Both prices of the master list arrive, each in its own field, for the issue of its line. */
  lemma MasterPricesArrive(v: View, codes: seq<string>, collected: map<string, PriceLine>, i: nat)
    requires forall c <- codes :: c in collected
    requires forall i, j | 0 <= i < j < |codes| :: codes[i] != codes[j]
    requires i < |codes|
    ensures var w, line := Overlay(v, Book(MasterRecords(codes, collected))), collected[codes[i]];
      var k := Key(line.year, line.number, codes[i]);
      && k in w && (line.consumer.Some? ==> w[k].consumer == line.consumer)
      && (line.consultant.Some? ==> w[k].consultant == line.consultant) && (line.name.Some? ==> w[k].name == line.name)
  {
    var records := MasterRecords(codes, collected);
    BookHolds(records);
    assert records[i] in records;
    hide Book;
  }

  /** The master list is a legitimate source and cannot touch a stored bonus point. */
  lemma MasterKeepsPoints(v: View, codes: seq<string>, collected: map<string, PriceLine>)
    requires forall c <- codes :: c in collected
    requires forall i, j | 0 <= i < j < |codes| :: codes[i] != codes[j]
    ensures Distinct(MasterRecords(codes, collected))
    ensures var w := Overlay(v, Book(MasterRecords(codes, collected))); forall k <- v :: w[k].points == v[k].points
  {
    var records := MasterRecords(codes, collected);
    BookHolds(records);
    forall k | k in Book(records)
      ensures Book(records)[k].points.None?
    {
      var i :| 0 <= i < |records| && records[i] == Record(k, Book(records)[k]);
    }
  }
}
