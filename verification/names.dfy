/** scripts/import_catalogs.py: the two passes that give shade-only names their product type back, first
    to the dictionary, then to the product cards. */
module Names {
  import opened Base
  import opened Text
  import Shades

  const MAX_NAME := 200

  /** A dictionary row (key: its unique code, tag: its rubric) or a product card (key: its id, tag: its
      category); `others` holds the columns that no pass reads. */
  datatype Row = Row(key: string, code: Option<string>, name: string, nameLc: Option<string>, tag: Option<string>,
                     others: seq<string>)

  /** One planned restoration; a dictionary row also gets its rubric anew. */
  datatype Item = Item(key: string, code: string, previous: string, restored: string, rubric: Option<string>)

  type Rows = s: seq<Row> | DistinctKeys(s)

  predicate DistinctKeys(rows: seq<Row>) {
    forall i, j | 0 <= i < j < |rows| :: rows[i].key != rows[j].key
  }

  /* ---------- which names may be restored ---------- */

  /** rstrip of the dashes, blanks and tabs */
  function TrimDashes(s: string): string {
    if s == "" then ""
    else
      var c := s[|s| - 1];
      if Shades.IsDash(c) || c == ' ' || c == '\t' then TrimDashes(s[..|s| - 1]) else s
  }

  /** is_shade_tail: `current` is nothing but the shade after the dash of the fuller `restored`. */
  predicate IsShadeTail(current: string, restored: string, lower: string -> string) {
    var cur, full := Strip(current), Strip(restored);
    && cur != "" && |full| > |cur|
    && lower(full[|full| - |cur|..]) == lower(cur)
    && var prefix := TrimRight(full[..|full| - |cur|]);
       prefix != "" && Shades.IsDash(prefix[|prefix| - 1]) && Strip(TrimDashes(prefix)) != ""
  }

  function Cut(name: string): string {
    var s := Strip(name);
    if |s| <= MAX_NAME then s else s[..MAX_NAME]
  }

  /** What planning reads besides the rows. */
  datatype Tools = Tools(lower: string -> string, rubric: (string, string) -> string, overrides: map<string, Option<string>>)

  function OrEmpty(name: Option<string>): string {
    match name case None => "" case Some(s) => s
  }

  /** plan_shade_name_updates, row by row */
  function DictionaryItem(tools: Tools, row: Row): Option<Item> {
    if row.key !in tools.overrides then None
    else
      var restored := Cut(OrEmpty(tools.overrides[row.key]));
      if IsShadeTail(row.name, restored, tools.lower)
      then Some(Item(row.key, row.key, row.name, restored, Some(tools.rubric(row.key, restored))))
      else None
  }

  /** plan_product_name_updates, card by card; `names` is the dictionary it consults. */
  function CardItem(tools: Tools, names: map<string, string>, row: Row): Option<Item> {
    var code := Strip(OrEmpty(row.code));
    if code == "" then None
    else
      var restored := Cut(if code in names then names[code] else "");
      if IsShadeTail(row.name, restored, tools.lower) then Some(Item(row.key, code, row.name, restored, None)) else None
  }

  /** Either pass: what it proposes for a row. */
  datatype Pass = DictionaryPass | CardPass(names: map<string, string>)

  function Proposal(tools: Tools, pass: Pass, row: Row): (item: Option<Item>)
    ensures item.Some? ==> item.value.key == row.key
  {
    match pass
    case DictionaryPass => DictionaryItem(tools, row)
    case CardPass(names) => CardItem(tools, names, row)
  }

  /* ---------- plans ---------- */

  predicate ItemBefore(a: Item, b: Item) {
    Less(a.code, b.code) || (a.code == b.code && Less(a.key, b.key))
  }

  predicate Sorted(plan: seq<Item>) {
    forall i, j | 0 <= i < j < |plan| :: ItemBefore(plan[i], plan[j])
  }

  /** sorted(): a new item goes after every item that is not beyond it. */
  function Insert(plan: seq<Item>, item: Item): seq<Item> {
    if plan == [] || !ItemBefore(item, plan[|plan| - 1]) then plan + [item]
    else Insert(plan[..|plan| - 1], item) + [plan[|plan| - 1]]
  }

  /** The plan holds the proposal of every row and nothing else. */
  ghost predicate IsPlan(tools: Tools, pass: Pass, rows: seq<Row>, plan: seq<Item>) {
    && (forall k | 0 <= k < |rows| :: Proposal(tools, pass, rows[k]).Some? ==> Proposal(tools, pass, rows[k]).value in plan)
    && (forall item | item in plan :: exists k | 0 <= k < |rows| :: Proposal(tools, pass, rows[k]) == Some(item))
  }

  lemma {:induction false} InsertMeaning(plan: seq<Item>, item: Item)
    requires Sorted(plan) && forall i | 0 <= i < |plan| :: plan[i].key != item.key
    ensures Sorted(Insert(plan, item))
    ensures forall x :: x in Insert(plan, item) <==> x in plan || x == item
  {
    if plan == [] {
    } else {
      var n := |plan| - 1;
      if ItemBefore(item, plan[n]) {
        InsertMeaning(plan[..n], item);
        assert plan == plan[..n] + [plan[n]];
        var front := Insert(plan[..n], item);
        forall i | 0 <= i < |front| ensures ItemBefore(front[i], plan[n]) {
          assert front[i] in front;
        }
      } else {
        ItemTotal(item, plan[n]);
        forall i | 0 <= i < n ensures ItemBefore(plan[i], item) {
          ItemTransitive(plan[i], plan[n], item);
        }
      }
    }
  }

  lemma ItemTotal(a: Item, b: Item)
    requires a.key != b.key
    ensures ItemBefore(a, b) || ItemBefore(b, a)
  {
    LessTotal(a.code, b.code);
    LessTotal(a.key, b.key);
  }

  lemma ItemTransitive(a: Item, b: Item, c: Item)
    requires ItemBefore(a, b) && ItemBefore(b, c)
    ensures ItemBefore(a, c)
  {
    if Less(a.code, b.code) && Less(b.code, c.code) { LessTransitive(a.code, b.code, c.code); }
    if Less(a.key, b.key) && Less(b.key, c.key) { LessTransitive(a.key, b.key, c.key); }
  }

  lemma ExtendPlan(tools: Tools, pass: Pass, rows: Rows, i: nat, plan: seq<Item>)
    requires i < |rows| && IsPlan(tools, pass, rows[..i], plan) && Sorted(plan)
    ensures var item := Proposal(tools, pass, rows[i]);
      var extended := if item.Some? then Insert(plan, item.value) else plan;
      IsPlan(tools, pass, rows[..i + 1], extended) && Sorted(extended)
  {
    assert rows[..i + 1] == rows[..i] + [rows[i]];
    hide IsPlan, Sorted, Insert, DictionaryItem, CardItem;
    var item := Proposal(tools, pass, rows[i]);
    if item.Some? {
      forall j | 0 <= j < |plan| ensures plan[j].key != item.value.key {
        NotYetPlanned(tools, pass, rows, i, plan, plan[j]);
      }
      InsertMeaning(plan, item.value);
      PlanGrows(tools, pass, rows[..i], rows[i], plan, Insert(plan, item.value));
    } else {
      PlanGrows(tools, pass, rows[..i], rows[i], plan, plan);
    }
  }

  lemma NotYetPlanned(tools: Tools, pass: Pass, rows: Rows, i: nat, plan: seq<Item>, item: Item)
    requires i < |rows| && IsPlan(tools, pass, rows[..i], plan) && item in plan
    ensures item.key != rows[i].key
  {
    hide DictionaryItem, CardItem;
    var k :| 0 <= k < |rows[..i]| && Proposal(tools, pass, rows[..i][k]) == Some(item);
    assert rows[..i][k] == rows[k];
  }

  lemma PlanGrows(tools: Tools, pass: Pass, rows: seq<Row>, row: Row, plan: seq<Item>, extended: seq<Item>)
    requires IsPlan(tools, pass, rows, plan)
    requires var item := Proposal(tools, pass, row);
      forall x :: x in extended <==> x in plan || Some(x) == item
    ensures IsPlan(tools, pass, rows + [row], extended)
  {
    hide Proposal;
    var more := rows + [row];
    forall x | x in extended ensures exists k | 0 <= k < |more| :: Proposal(tools, pass, more[k]) == Some(x) {
      if x in plan {
        var k :| 0 <= k < |rows| && Proposal(tools, pass, rows[k]) == Some(x);
        assert more[k] == rows[k];
      } else {
        assert more[|rows|] == row;
      }
    }
  }

  method PlanUpdates(tools: Tools, pass: Pass, rows: Rows) returns (plan: seq<Item>)
    ensures IsPlan(tools, pass, rows, plan) && Sorted(plan)
    ensures forall i, j | 0 <= i < j < |plan| ::
      Less(plan[i].code, plan[j].code) || (plan[i].code == plan[j].code && Less(plan[i].key, plan[j].key))
  {
    plan := [];
    hide Proposal, Insert, Less;
    var i := 0;
    while i < |rows|
      invariant 0 <= i <= |rows|
      invariant IsPlan(tools, pass, rows[..i], plan) && Sorted(plan)
    {
      ExtendPlan(tools, pass, rows, i, plan);
      var item := Proposal(tools, pass, rows[i]);
      if item.Some? {
        plan := Insert(plan, item.value);
      }
      i := i + 1;
    }
    assert rows[..|rows|] == rows;
  }

  /* ---------- applying a plan ---------- */

  /** rows.get(key): the index of the row, or the number of rows. */
  function Find(rows: seq<Row>, key: string): (i: nat)
    ensures i <= |rows| && (i < |rows| ==> rows[i].key == key)
    ensures i == |rows| ==> forall k | 0 <= k < |rows| :: rows[k].key != key
  {
    if rows == [] || rows[|rows| - 1].key == key then (if rows == [] then 0 else |rows| - 1)
    else
      var i := Find(rows[..|rows| - 1], key);
      if i == |rows| - 1 then |rows| else i
  }

  /** name, name_lc and, for a dictionary row, rubric are written; nothing else. */
  function Restored(row: Row, item: Item, lower: string -> string): Row {
    row.(name := item.restored, nameLc := Some(lower(item.restored)), tag := if item.rubric.Some? then item.rubric else row.tag)
  }

  function Lookup(plan: seq<Item>, key: string): (item: Option<Item>)
    ensures item.Some? ==> item.value in plan && item.value.key == key
    ensures item.None? ==> forall x | x in plan :: x.key != key
  {
    if plan == [] then None
    else
      var last := plan[|plan| - 1];
      if last.key == key then Some(last) else Lookup(plan[..|plan| - 1], key)
  }

  /** A row as it reads once the plan is applied. */
  function After(row: Row, plan: seq<Item>, lower: string -> string): (r: Row)
    ensures r.key == row.key
  {
    match Lookup(plan, row.key)
    case None => row
    case Some(item) => Restored(row, item, lower)
  }

  function AllAfter(rows: seq<Row>, plan: seq<Item>, lower: string -> string): seq<Row> {
    seq(|rows|, k requires 0 <= k < |rows| => After(rows[k], plan, lower))
  }

  /** The guard of the shrink refusal, for one planned row. */
  ghost predicate Fits(rows: seq<Row>, item: Item) {
    forall k | 0 <= k < |rows| :: rows[k].key == item.key ==> |item.restored| > |rows[k].name|
  }

  /** Every planned item has its row. */
  ghost predicate AllFound(rows: seq<Row>, plan: seq<Item>) {
    forall i | 0 <= i < |plan| :: HasRow(rows, plan[i].key)
  }

  ghost predicate HasRow(rows: seq<Row>, key: string) {
    exists k | 0 <= k < |rows| :: rows[k].key == key
  }

  ghost predicate DistinctItems(plan: seq<Item>) {
    forall i, j | 0 <= i < j < |plan| :: plan[i].key != plan[j].key
  }

  /** A table whose rows a pass updates in place. */
  class NameTable {
    var rows: Rows

    constructor (stored: Rows)
      ensures rows == stored
    {
      rows := stored;
    }

    /** apply_shade_name_updates / apply_product_name_updates; Err names the item whose restored name
        is not longer than the stored one. Rows written before the refusal stay written here: it is
        the caller that does not commit them. */
    method Apply(plan: seq<Item>, lower: string -> string) returns (r: Result<nat, Item>)
      requires DistinctItems(plan)
      modifies this
      ensures r.Ok? <==> forall item | item in plan :: Fits(old(rows), item)
      ensures r.Ok? ==> rows == AllAfter(old(rows), plan, lower)
      ensures r.Ok? && AllFound(old(rows), plan) ==> r.value == |plan|
      ensures r.Err? ==> r.error in plan && !Fits(old(rows), r.error)
    {
      var updated := 0;
      var i := 0;
      AfterNothing(rows, plan, lower);
      TakeAll(plan);
      hide AllAfter, Fits, Restored, DistinctItems, Find, AllFound;
      while i < |plan|
        invariant 0 <= i <= |plan| && updated <= i
        invariant rows == AllAfter(old(rows), plan[..i], lower)
        invariant forall j | 0 <= j < i :: Fits(old(rows), plan[j])
        invariant AllFound(old(rows), plan) ==> updated == i
      {
        var item := plan[i];
        var at := Find(rows, item.key);
        StepApplies(old(rows), plan, i, at, lower);
        if at < |rows| {
          if |item.restored| <= |rows[at].name| {
            return Err(item);
          }
          rows := rows[at := Restored(rows[at], item, lower)];
          updated := updated + 1;
        }
        i := i + 1;
      }
      return Ok(updated);
    }
  }

  lemma AfterNothing(rows: Rows, plan: seq<Item>, lower: string -> string)
    ensures AllAfter(rows, plan[..0], lower) == rows
  {
  }

  lemma StepApplies(rows: Rows, plan: seq<Item>, i: nat, at: nat, lower: string -> string)
    requires DistinctItems(plan) && i < |plan|
    requires at == Find(AllAfter(rows, plan[..i], lower), plan[i].key)
    ensures var now, item := AllAfter(rows, plan[..i], lower), plan[i];
      && at <= |rows| == |now| && DistinctKeys(now)
      && (at == |rows| ==> Fits(rows, item) && AllAfter(rows, plan[..i + 1], lower) == now && !AllFound(rows, plan))
      && (at < |rows| ==> now[at].name == rows[at].name && (Fits(rows, item) <==> |item.restored| > |now[at].name|)
                          && AllAfter(rows, plan[..i + 1], lower) == now[at := Restored(now[at], item, lower)]
                          && DistinctKeys(now[at := Restored(now[at], item, lower)]))
  {
    var now, item := AllAfter(rows, plan[..i], lower), plan[i];
    hide Restored, Find, DistinctItems;
    forall k | 0 <= k < |rows|
      ensures now[k] == After(rows[k], plan[..i], lower)
      ensures rows[k].key == item.key ==> now[k] == rows[k]
      ensures After(rows[k], plan[..i + 1], lower) == if rows[k].key == item.key then Restored(now[k], item, lower) else now[k]
    {
      AfterStep(rows[k], plan, i, lower);
    }
    hide After;
  }

  lemma AfterStep(row: Row, plan: seq<Item>, i: nat, lower: string -> string)
    requires DistinctItems(plan) && i < |plan|
    ensures row.key == plan[i].key ==> After(row, plan[..i], lower) == row
    ensures After(row, plan[..i + 1], lower)
            == if row.key == plan[i].key then Restored(row, plan[i], lower) else After(row, plan[..i], lower)
  {
    assert plan[..i + 1][..i] == plan[..i];
    assert forall x | x in plan[..i] :: x.key != plan[i].key;
  }

  /* ---------- what planning and applying mean together ---------- */

  lemma StripShortens(s: string)
    ensures |Strip(s)| <= |s|
    ensures Trimmed(s) ==> Strip(s) == s
  {
    DropShortens(s);
  }

  lemma {:induction false} DropShortens(s: string)
    ensures |DropWhile(s, IsSpace)| <= |s|
  {
    if s != "" { DropShortens(s[1..]); }
  }

  /** A restored name is settled: no pass proposes anything for it again. */
  lemma RestoredSettles(tools: Tools, pass: Pass, row: Row, item: Item)
    requires Proposal(tools, pass, row) == Some(item)
    ensures Proposal(tools, pass, Restored(row, item, tools.lower)).None?
    ensures IsShadeTail(row.name, item.restored, tools.lower)
    ensures |item.restored| > |Strip(row.name)|
  {
    NoTailOfItself(item.restored, tools.lower);
    TailIsLonger(row.name, item.restored, tools.lower);
    ProposalMeans(tools, pass, row);
    ProposalMeans(tools, pass, Restored(row, item, tools.lower));
    hide Proposal, IsShadeTail, Strip;
  }

  lemma NoTailOfItself(name: string, lower: string -> string)
    ensures !IsShadeTail(name, name, lower)
  {
  }

  lemma TailIsLonger(current: string, restored: string, lower: string -> string)
    ensures IsShadeTail(current, restored, lower) ==> |restored| > |Strip(current)|
  {
    StripShortens(restored);
  }

  /** The name a pass has at hand for a row. */
  function Candidate(tools: Tools, pass: Pass, row: Row): Option<string> {
    match pass
    case DictionaryPass => if row.key in tools.overrides then Some(Cut(OrEmpty(tools.overrides[row.key]))) else None
    case CardPass(names) =>
      var code := Strip(OrEmpty(row.code));
      if code == "" then None else Some(Cut(if code in names then names[code] else ""))
  }

  lemma ProposalMeans(tools: Tools, pass: Pass, row: Row)
    ensures var found, item := Candidate(tools, pass, row), Proposal(tools, pass, row);
      && (item.Some? <==> found.Some? && IsShadeTail(row.name, found.value, tools.lower))
      && (item.Some? ==> item.value.restored == found.value)
  {
    hide IsShadeTail, Cut, Strip;
  }

  lemma PlanIsDistinct(tools: Tools, pass: Pass, rows: Rows, plan: seq<Item>)
    requires IsPlan(tools, pass, rows, plan) && Sorted(plan)
    ensures DistinctItems(plan) && AllFound(rows, plan)
  {
    hide Proposal, Less;
    forall i | 0 <= i < |plan| ensures HasRow(rows, plan[i].key) {
      assert plan[i] in plan;
      var k :| 0 <= k < |rows| && Proposal(tools, pass, rows[k]) == Some(plan[i]);
      assert rows[k].key == plan[i].key;
    }
    forall i, j | 0 <= i < j < |plan| ensures plan[i].key != plan[j].key {
      assert ItemBefore(plan[i], plan[j]);
      NotBeforeItself(plan[i], plan[j]);
      OneItemPerKey(tools, pass, rows, plan, plan[i], plan[j]);
    }
  }

  lemma NotBeforeItself(a: Item, b: Item)
    ensures ItemBefore(a, b) ==> a != b
  {
    LessIrreflexive(a.code);
    LessIrreflexive(a.key);
  }

  lemma OneItemPerKey(tools: Tools, pass: Pass, rows: Rows, plan: seq<Item>, a: Item, b: Item)
    requires IsPlan(tools, pass, rows, plan) && a in plan && b in plan
    ensures a.key == b.key ==> a == b
  {
    hide Proposal;
    var k :| 0 <= k < |rows| && Proposal(tools, pass, rows[k]) == Some(a);
    var l :| 0 <= l < |rows| && Proposal(tools, pass, rows[l]) == Some(b);
    assert rows[k].key == a.key && rows[l].key == b.key;
  }

  /** Exactly the proposed rows change, each to its own proposal. */
  lemma AfterIsProposal(tools: Tools, pass: Pass, rows: Rows, plan: seq<Item>, k: nat)
    requires IsPlan(tools, pass, rows, plan) && k < |rows|
    ensures var item := Proposal(tools, pass, rows[k]);
      After(rows[k], plan, tools.lower) == if item.Some? then Restored(rows[k], item.value, tools.lower) else rows[k]
  {
    hide DictionaryItem, CardItem, Restored;
    var found := Lookup(plan, rows[k].key);
    if found.Some? {
      var l :| 0 <= l < |rows| && Proposal(tools, pass, rows[l]) == Some(found.value);
      assert k == l;
    }
  }

  /* ---------- which names are restored, and to what ---------- */

  /** A full name as it is recorded: a type, a dash, a shade. */
  function Recorded(kind: string, shade: string): string {
    kind + (" - " + shade)
  }

  predicate GoodName(kind: string, shade: string) {
    && kind != "" && Trimmed(kind) && !Shades.IsDash(kind[|kind| - 1])
    && shade != "" && Trimmed(shade) && |kind| + 3 + |shade| <= MAX_NAME
  }

  /** `current` is the shade of a recorded name, letter case and blanks around it aside. */
  predicate ShadeOf(current: string, shade: string, lower: string -> string) {
    |Strip(current)| == |shade| && lower(Strip(current)) == lower(shade)
  }

  lemma RecordedParts(kind: string, shade: string)
    requires GoodName(kind, shade)
    ensures var full, n := Recorded(kind, shade), |kind| + 3;
      && Strip(full) == full && Cut(full) == full && |full| == n + |shade|
      && full[n..] == shade && full[..n] == kind + " - "
  {
    var full := Recorded(kind, shade);
    assert full[0] == kind[0] && full[|full| - 1] == shade[|shade| - 1];
    StripShortens(full);
    assert full == (kind + " - ") + shade;
    hide Strip;
  }

  lemma KindParts(kind: string)
    requires kind != "" && Trimmed(kind) && !Shades.IsDash(kind[|kind| - 1])
    ensures TrimRight(kind + " - ") == kind + " -"
    ensures Strip(TrimDashes(kind + " -")) == kind
  {
    hide TrimDashes, TrimRight, Strip;
    var spaced, dashed := kind + " ", kind + " -";
    assert dashed == spaced + ['-'];
    TrimRightPast(dashed, " ");
    assert kind + " - " == dashed + " ";
    DashDropped(spaced, '-');
    DashDropped(kind, ' ');
    KindStays(kind);
  }

  lemma DashDropped(s: string, c: char)
    requires c == '-' || c == ' '
    ensures TrimDashes(s + [c]) == TrimDashes(s)
  {
    assert (s + [c])[..|s|] == s;
  }

  lemma KindStays(kind: string)
    requires kind != "" && Trimmed(kind) && !Shades.IsDash(kind[|kind| - 1])
    ensures TrimDashes(kind) == kind && Strip(kind) == kind
  {
    assert kind[|kind| - 1] != ' ' && kind[|kind| - 1] != '\t';
    StripShortens(kind);
    hide Strip;
  }

  /** A recorded name is the fuller form of its shade. */
  lemma RecordedIsFuller(current: string, kind: string, shade: string, lower: string -> string)
    requires GoodName(kind, shade) && ShadeOf(current, shade, lower)
    ensures IsShadeTail(current, Recorded(kind, shade), lower)
  {
    RecordedParts(kind, shade);
    KindParts(kind);
    hide Strip, TrimRight, TrimDashes, Recorded, Trimmed, Cut;
    assert Shades.IsDash((kind + " -")[|kind + " -"| - 1]);
  }

  /** A bare shade in the dictionary whose override is a recorded name of that shade becomes that name, with its
      lowercase form and the rubric of the new name; no other column changes. */
  lemma DictionaryNameRestored(tools: Tools, rows: Rows, plan: seq<Item>, k: nat, kind: string, shade: string)
    requires IsPlan(tools, DictionaryPass, rows, plan) && k < |rows|
    requires rows[k].key in tools.overrides && tools.overrides[rows[k].key] == Some(Recorded(kind, shade))
    requires GoodName(kind, shade) && ShadeOf(rows[k].name, shade, tools.lower)
    ensures var full := Recorded(kind, shade);
      AllAfter(rows, plan, tools.lower)[k]
      == rows[k].(name := full, nameLc := Some(tools.lower(full)), tag := Some(tools.rubric(rows[k].key, full)))
  {
    RecordedParts(kind, shade);
    RecordedIsFuller(rows[k].name, kind, shade, tools.lower);
    AfterIsProposal(tools, DictionaryPass, rows, plan, k);
    hide IsShadeTail, Cut, Recorded, GoodName, ShadeOf, Strip, After, IsPlan;
    assert AllAfter(rows, plan, tools.lower)[k] == After(rows[k], plan, tools.lower);
  }

  /** The same for a product card whose code the dictionary knows under the recorded name; its category stays. */
  lemma CardNameRestored(tools: Tools, names: map<string, string>, rows: Rows, plan: seq<Item>, k: nat, code: string,
                         kind: string, shade: string)
    requires IsPlan(tools, CardPass(names), rows, plan) && k < |rows|
    requires rows[k].code.Some? && Strip(rows[k].code.value) == code != ""
    requires code in names && names[code] == Recorded(kind, shade)
    requires GoodName(kind, shade) && ShadeOf(rows[k].name, shade, tools.lower)
    ensures var full := Recorded(kind, shade);
      AllAfter(rows, plan, tools.lower)[k] == rows[k].(name := full, nameLc := Some(tools.lower(full)))
  {
    RecordedParts(kind, shade);
    RecordedIsFuller(rows[k].name, kind, shade, tools.lower);
    AfterIsProposal(tools, CardPass(names), rows, plan, k);
    hide IsShadeTail, Cut, Recorded, GoodName, ShadeOf, Strip, After, IsPlan;
    assert AllAfter(rows, plan, tools.lower)[k] == After(rows[k], plan, tools.lower);
  }

  /** Nothing else is taken for a fuller form: it is longer, ends in the current name, letter case aside, and a
      dash with at most blanks after it stands before that end, and something before the dash. */
  lemma FullerMeans(current: string, restored: string, lower: string -> string)
    requires IsShadeTail(current, restored, lower)
    ensures var cur, full := Strip(current), Strip(restored);
      var n := |full| - |cur|;
      cur != "" && n > 0 && lower(full[n..]) == lower(cur) && EndsInDash(full[..n])
  {
    var cur, full := Strip(current), Strip(restored);
    hide Strip, IsSpace, Shades.IsDash, TrimDashes, TrimRight, EndsInDash;
    DashFound(full[..|full| - |cur|]);
  }

  /** Something, a dash, and at most blanks after it. */
  ghost predicate EndsInDash(s: string) {
    exists d: nat :: d < |s| && Shades.IsDash(s[d]) && Blank(s[d..][1..]) && !Blank(s[..d])
  }

  lemma DashFound(head: string)
    requires var prefix := TrimRight(head);
      prefix != "" && Shades.IsDash(prefix[|prefix| - 1]) && Strip(TrimDashes(prefix)) != ""
    ensures EndsInDash(head)
  {
    var prefix := TrimRight(head);
    var d := |prefix| - 1;
    hide Strip, IsSpace, Shades.IsDash, TrimDashes;
    TrimmedOff(head);
    hide TrimRight;
    SomethingLeft(prefix);
    assert head[..d] == prefix[..d] && head[d] == prefix[d];
    assert forall k | 0 <= k < |head| - d - 1 :: head[d..][1..][k] == head[d + 1 + k];
  }

  lemma {:induction false} TrimmedOff(s: string)
    ensures TrimRight(s) <= s && forall k | |TrimRight(s)| <= k < |s| :: IsSpace(s[k])
  {
    if s != "" && IsSpace(s[|s| - 1]) { TrimmedOff(s[..|s| - 1]); }
  }

  lemma {:induction false} DashesOff(s: string)
    ensures TrimDashes(s) <= s
    ensures s != "" && Shades.IsDash(s[|s| - 1]) ==> |TrimDashes(s)| < |s|
  {
    if s != "" { DashesOff(s[..|s| - 1]); }
  }

  lemma SomethingLeft(s: string)
    requires s != "" && Shades.IsDash(s[|s| - 1]) && Strip(TrimDashes(s)) != ""
    ensures !Blank(s[..|s| - 1])
  {
    DashesOff(s);
    var rest := TrimDashes(s);
    BlankStrips(rest);
    hide IsSpace, Shades.IsDash, TrimDashes, Strip;
    var h :| 0 <= h < |rest| && !IsSpace(rest[h]);
    assert s[..|s| - 1][h] == rest[h];
  }

  lemma BlankStrips(s: string)
    ensures Blank(s) ==> Strip(s) == ""
  {
    if Blank(s) { AllDropped(s); }
    assert TrimRight("") == "";
  }

  /** Planning again after the plan is applied finds nothing. */
  lemma PlanAgainIsEmpty(tools: Tools, pass: Pass, rows: Rows, plan: seq<Item>, again: seq<Item>)
    requires IsPlan(tools, pass, rows, plan)
    requires IsPlan(tools, pass, AllAfter(rows, plan, tools.lower), again)
    ensures again == []
  {
    hide Proposal, Restored, After;
    assert again != [] ==> again[0] in again;
    var now := AllAfter(rows, plan, tools.lower);
    forall k | 0 <= k < |now| ensures Proposal(tools, pass, now[k]).None? {
      AfterIsProposal(tools, pass, rows, plan, k);
      if Proposal(tools, pass, rows[k]).Some? {
        RestoredSettles(tools, pass, rows[k], Proposal(tools, pass, rows[k]).value);
      }
    }
    assert forall item :: item !in again;
  }

  /** An accepted plan makes no name shorter, makes every planned one longer, and leaves the rest of
      every row alone but for the lowercase shadow and a dictionary row's rubric. */
  lemma NamesNeverShrink(tools: Tools, pass: Pass, rows: Rows, plan: seq<Item>, k: nat)
    requires IsPlan(tools, pass, rows, plan) && k < |rows|
    requires forall item | item in plan :: Fits(rows, item)
    ensures var now := AllAfter(rows, plan, tools.lower)[k];
      && |now.name| >= |rows[k].name|
      && (now.name == rows[k].name ==> now == rows[k])
      && (now.name != rows[k].name ==> IsShadeTail(rows[k].name, now.name, tools.lower) && now.nameLc == Some(tools.lower(now.name)))
      && now.key == rows[k].key && now.code == rows[k].code && now.others == rows[k].others
      && (pass.CardPass? ==> now.tag == rows[k].tag)
  {
    AfterIsProposal(tools, pass, rows, plan, k);
    var item := Proposal(tools, pass, rows[k]);
    if item.Some? {
      RestoredSettles(tools, pass, rows[k], item.value);
    }
  }

  /** The shrink refusal compares stored lengths, the predicate stripped ones: a fresh plan is refused
      exactly when some planned row's stored name is padded by as much as the restored name gains. */
  lemma RefusedExactlyOnPadding(tools: Tools, pass: Pass, rows: Rows, plan: seq<Item>)
    requires IsPlan(tools, pass, rows, plan)
    ensures (exists item | item in plan :: !Fits(rows, item))
            <==> exists k | 0 <= k < |rows| :: PaddedAway(tools, pass, rows[k])
    ensures (forall k | 0 <= k < |rows| :: Trimmed(rows[k].name)) ==> forall item | item in plan :: Fits(rows, item)
  {
    hide DictionaryItem, CardItem;
    forall item | item in plan ensures !Fits(rows, item) ==> exists k | 0 <= k < |rows| :: PaddedAway(tools, pass, rows[k]) {
      if !Fits(rows, item) {
        var k :| 0 <= k < |rows| && Proposal(tools, pass, rows[k]) == Some(item);
        var l :| 0 <= l < |rows| && rows[l].key == item.key && |item.restored| <= |rows[l].name|;
        assert k == l && PaddedAway(tools, pass, rows[k]);
      }
    }
    forall k | 0 <= k < |rows| && PaddedAway(tools, pass, rows[k])
      ensures exists item | item in plan :: !Fits(rows, item)
      ensures !Trimmed(rows[k].name)
    {
      var item := Proposal(tools, pass, rows[k]).value;
      assert item in plan && !Fits(rows, item);
      RestoredSettles(tools, pass, rows[k], item);
      StripShortens(rows[k].name);
    }
  }

  predicate PaddedAway(tools: Tools, pass: Pass, row: Row) {
    var item := Proposal(tools, pass, row);
    item.Some? && |row.name| - |Strip(row.name)| >= |item.value.restored| - |Strip(row.name)|
  }

  /** A dictionary name as the import stores it: stripped, then cut. */
  function StoredName(name: string): string {
    Cut(name)
  }

  function Blanks(n: nat): (s: string)
    ensures |s| == n && forall i | 0 <= i < n :: s[i] == ' '
  {
    if n == 0 then "" else Blanks(n - 1) + " "
  }

  /** The refusal that is documented as unreachable, reached by a name that the import stores: one of
      more than 200 characters, cut inside a run of blanks. */
  lemma CutNameIsRefused(tools: Tools, row: Row, blanks: nat)
    requires row.key in tools.overrides && tools.overrides[row.key] == Some("a - b")
    requires blanks == MAX_NAME - 1 && row.name == StoredName("b" + Blanks(blanks) + "c")
    ensures PaddedAway(tools, DictionaryPass, row)
  {
    var stored := "b" + Blanks(blanks);
    BlanksCut(blanks);
    BlanksTrimmed(blanks);
    LetterFirst(stored);
    ShortStrip();
    hide Strip, Blanks, TrimRight, TrimDashes, StoredName;
    ShadeOfAB(stored, tools.lower);
    ShortCut("a - b");
    hide IsShadeTail, Cut;
  }

  lemma LetterFirst(s: string)
    requires s != "" && s[0] == 'b' && TrimRight(s) == "b"
    ensures Strip(s) == "b"
  {
  }

  lemma ShortCut(s: string)
    requires |s| <= MAX_NAME && Strip(s) == s
    ensures Cut(s) == s
  {
  }

  lemma ShadeOfAB(stored: string, lower: string -> string)
    requires Strip(stored) == "b" && Strip("a - b") == "a - b"
    ensures IsShadeTail(stored, "a - b", lower)
  {
    DashedPrefix("a - ", "a -");
    assert "a - b"[4..] == "b" && "a - b"[..4] == "a - ";
    hide Strip, TrimRight, TrimDashes;
  }

  lemma DashedPrefix(prefix: string, dashed: string)
    requires prefix == "a - " && dashed == "a -"
    ensures TrimRight(prefix) == dashed && Shades.IsDash(dashed[|dashed| - 1]) && Strip(TrimDashes(dashed)) != ""
  {
    assert prefix[..3] == dashed;
    assert dashed[..2] == "a " && "a "[..1] == "a";
    ShortStrip();
  }

  lemma BlanksCut(n: nat)
    requires n == MAX_NAME - 1
    ensures StoredName("b" + Blanks(n) + "c") == "b" + Blanks(n)
  {
    var s := "b" + Blanks(n) + "c";
    assert s[0] == 'b' && s[|s| - 1] == 'c';
    assert Strip(s) == s by { StripShortens(s); }
    hide Strip, Blanks;
    assert s[..MAX_NAME] == "b" + Blanks(n);
  }

  lemma {:induction false} BlanksTrimmed(n: nat)
    ensures TrimRight("b" + Blanks(n)) == "b"
  {
    if n > 0 {
      var s := "b" + Blanks(n);
      assert s[|s| - 1] == ' ' && s[..|s| - 1] == "b" + Blanks(n - 1);
      BlanksTrimmed(n - 1);
    } else {
      assert "b" + Blanks(0) == "b";
    }
  }

  lemma ShortStrip()
    ensures Strip("a - b") == "a - b" && Strip("a") == "a"
  {
  }

  /* ---------- the dry run sees the dictionary as it will be ---------- */

  /** code -> name, as a query of the dictionary reads it */
  function Names(rows: seq<Row>): map<string, string> {
    if rows == [] then map[]
    else
      var last := rows[|rows| - 1];
      Names(rows[..|rows| - 1])[last.key := last.name]
  }

  lemma {:induction false} NamesMeaning(rows: Rows)
    ensures forall k | 0 <= k < |rows| :: rows[k].key in Names(rows) && Names(rows)[rows[k].key] == rows[k].name
  {
    if rows != [] {
      var n := |rows| - 1;
      NamesMeaning(rows[..n]);
      forall k | 0 <= k < n ensures rows[k].key in Names(rows) && Names(rows)[rows[k].key] == rows[k].name {
        assert rows[..n][k] == rows[k];
      }
    }
  }

  lemma {:induction false} KeyIndex(rows: seq<Row>, key: string) returns (k: nat)
    requires key in Names(rows)
    ensures k < |rows| && rows[k].key == key
  {
    var n := |rows| - 1;
    if rows[n].key == key {
      k := n;
    } else {
      k := KeyIndex(rows[..n], key);
    }
  }

  /** dictionary_names_after: the overlay reads exactly as the written dictionary will. */
  method DictionaryNamesAfter(rows: Rows, plan: seq<Item>, lower: string -> string) returns (names: map<string, string>)
    requires DistinctItems(plan) && forall i | 0 <= i < |plan| :: plan[i].code == plan[i].key
    ensures DistinctKeys(AllAfter(rows, plan, lower)) && names == Names(AllAfter(rows, plan, lower))
  {
    OverlayStart(rows, lower);
    TakeAll(plan);
    hide Names, DistinctItems, After, AllAfter, Overlaid, DistinctKeys;
    names := Names(rows);
    var i := 0;
    while i < |plan|
      invariant 0 <= i <= |plan|
      invariant Overlaid(names, rows, plan[..i], lower)
    {
      OverlayStep(names, rows, plan, i, lower);
      if plan[i].code in names {
        names := names[plan[i].code := plan[i].restored];
      }
      i := i + 1;
    }
    OverlayEnd(names, rows, plan, lower);
  }

  lemma OverlayEnd(names: map<string, string>, rows: Rows, plan: seq<Item>, lower: string -> string)
    requires Overlaid(names, rows, plan, lower)
    ensures DistinctKeys(AllAfter(rows, plan, lower)) && names == Names(AllAfter(rows, plan, lower))
  {
    AfterKeepsKeys(rows, plan, lower);
    var now := AllAfter(rows, plan, lower);
    assert forall k | 0 <= k < |rows| :: now[k] == After(rows[k], plan, lower);
    hide After, AllAfter, Names, DistinctKeys;
    SameNames(rows, now, names);
  }

  lemma AfterKeepsKeys(rows: Rows, plan: seq<Item>, lower: string -> string)
    ensures DistinctKeys(AllAfter(rows, plan, lower))
  {
    hide After;
  }

  /** `names` is the dictionary with the plan laid over it. */
  ghost predicate Overlaid(names: map<string, string>, rows: Rows, plan: seq<Item>, lower: string -> string) {
    && names.Keys == Names(rows).Keys
    && forall k | 0 <= k < |rows| :: rows[k].key in names && names[rows[k].key] == After(rows[k], plan, lower).name
  }

  lemma OverlayStart(rows: Rows, lower: string -> string)
    ensures Overlaid(Names(rows), rows, [], lower)
  {
    NamesMeaning(rows);
  }

  lemma OverlayStep(names: map<string, string>, rows: Rows, plan: seq<Item>, i: nat, lower: string -> string)
    requires DistinctItems(plan) && i < |plan| && plan[i].code == plan[i].key
    requires Overlaid(names, rows, plan[..i], lower)
    ensures Overlaid(if plan[i].code in names then names[plan[i].code := plan[i].restored] else names, rows, plan[..i + 1], lower)
  {
    hide Names, After, DistinctItems;
    var item := plan[i];
    forall k | 0 <= k < |rows|
      ensures After(rows[k], plan[..i + 1], lower).name
              == if rows[k].key == item.key then item.restored else After(rows[k], plan[..i], lower).name
    {
      AfterStep(rows[k], plan, i, lower);
    }
  }

  lemma {:induction false} SameKeys(rows: seq<Row>, now: seq<Row>)
    requires |now| == |rows| && forall k | 0 <= k < |rows| :: now[k].key == rows[k].key
    ensures Names(now).Keys == Names(rows).Keys
  {
    if rows != [] {
      var n := |rows| - 1;
      SameKeys(rows[..n], now[..n]);
    }
  }

  lemma SameNames(rows: Rows, now: Rows, names: map<string, string>)
    requires |now| == |rows| && forall k | 0 <= k < |rows| :: now[k].key == rows[k].key
    requires names.Keys == Names(rows).Keys
    requires forall k | 0 <= k < |rows| :: rows[k].key in names && names[rows[k].key] == now[k].name
    ensures names == Names(now)
  {
    NamesMeaning(rows);
    NamesMeaning(now);
    SameKeys(rows, now);
    hide Names, DistinctKeys;
    forall key | key in names ensures names[key] == Names(now)[key] {
      var k := KeyIndex(rows, key);
    }
  }

  lemma DictionaryPlanCodes(tools: Tools, rows: Rows, plan: seq<Item>, i: nat)
    requires IsPlan(tools, DictionaryPass, rows, plan) && i < |plan|
    ensures plan[i].code == plan[i].key
  {
    hide IsShadeTail, Cut;
    assert plan[i] in plan;
    var k :| 0 <= k < |rows| && Proposal(tools, DictionaryPass, rows[k]) == Some(plan[i]);
  }

  /** _run_restore_shade_names: plan both passes from what is stored, then write both or neither. */
  method RestoreShadeNames(tools: Tools, dictionary: NameTable, products: NameTable, apply: bool)
    returns (plan: seq<Item>, cardPlan: seq<Item>, r: Result<(nat, nat), Item>)
    requires dictionary != products
    modifies dictionary, products
    ensures IsPlan(tools, DictionaryPass, old(dictionary.rows), plan) && Sorted(plan)
    ensures var names := Names(AllAfter(old(dictionary.rows), plan, tools.lower));
      IsPlan(tools, CardPass(names), old(products.rows), cardPlan) && Sorted(cardPlan)
    ensures r.Ok? <==> !apply || ((forall item | item in plan :: Fits(old(dictionary.rows), item))
                                  && forall item | item in cardPlan :: Fits(old(products.rows), item))
    ensures !apply || r.Err? ==> dictionary.rows == old(dictionary.rows) && products.rows == old(products.rows)
    ensures apply && r.Ok? ==>
      && dictionary.rows == AllAfter(old(dictionary.rows), plan, tools.lower)
      && products.rows == AllAfter(old(products.rows), cardPlan, tools.lower)
      && r.value == (|plan|, |cardPlan|)
  {
    var storedRows, storedCards := dictionary.rows, products.rows;
    plan := PlanUpdates(tools, DictionaryPass, dictionary.rows);
    PlanIsDistinct(tools, DictionaryPass, dictionary.rows, plan);
    forall i | 0 <= i < |plan| ensures plan[i].code == plan[i].key {
      DictionaryPlanCodes(tools, dictionary.rows, plan, i);
    }
    var names := DictionaryNamesAfter(dictionary.rows, plan, tools.lower);
    cardPlan := PlanUpdates(tools, CardPass(names), products.rows);
    PlanIsDistinct(tools, CardPass(names), products.rows, cardPlan);
    hide Proposal, IsPlan, Sorted, Fits, AllAfter;
    if !apply {
      return plan, cardPlan, Ok((0, 0));
    }
    var updated := dictionary.Apply(plan, tools.lower);
    if updated.Err? {
      dictionary.rows := storedRows;
      return plan, cardPlan, Err(updated.error);
    }
    var cards := products.Apply(cardPlan, tools.lower);
    if cards.Err? {
      dictionary.rows, products.rows := storedRows, storedCards;
      return plan, cardPlan, Err(cards.error);
    }
    r := Ok((updated.value, cards.value));
  }

  lemma NothingPlanned(rows: seq<Row>, lower: string -> string)
    ensures AllAfter(rows, [], lower) == rows
  {
  }

  /** After an applied run, whatever the next run plans is nothing, for the dictionary and the cards. */
  lemma SecondRunIsEmpty(tools: Tools, rows: Rows, cards: Rows, plan: seq<Item>, cardPlan: seq<Item>,
                         again: seq<Item>, cardsAgain: seq<Item>)
    requires IsPlan(tools, DictionaryPass, rows, plan)
    requires var now := AllAfter(rows, plan, tools.lower);
      && IsPlan(tools, CardPass(Names(now)), cards, cardPlan)
      && IsPlan(tools, DictionaryPass, now, again)
      && IsPlan(tools, CardPass(Names(AllAfter(now, again, tools.lower))), AllAfter(cards, cardPlan, tools.lower), cardsAgain)
    ensures again == [] && cardsAgain == []
  {
    hide IsPlan, AllAfter;
    var now := AllAfter(rows, plan, tools.lower);
    PlanAgainIsEmpty(tools, DictionaryPass, rows, plan, again);
    NothingPlanned(now, tools.lower);
    PlanAgainIsEmpty(tools, CardPass(Names(now)), cards, cardPlan, cardsAgain);
  }
}
