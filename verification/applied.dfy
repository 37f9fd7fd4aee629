/** What one row of the sheet leaves behind when --apply accepts it, and what the summary counts, over runs
    of any length and any store. */
module Applied {
  import opened Base
  import opened Text
  import opened Receipt
  import opened DryRun

  /* ---------- one accepted row ---------- */

  /** The card of a code: the one it has, or a new one. */
  function CardOf(s: Store, code: string): nat {
    if code in s.products then s.products[code] else s.nextProduct
  }

  /** The row's code has a card now, and every other code has the card it had. */
  predicate CardKept(s: Store, t: Store, code: string) {
    && t.products == s.products[code := CardOf(s, code)]
    && t.nextProduct == (if code in s.products then s.nextProduct else s.nextProduct + 1)
  }

  /** The batch at `id` has the pieces of the row on top and the expiry of the row, if the row has one; nothing
      else in any batch has changed. */
  predicate ToppedUp(s: Store, t: Store, id: nat, row: Row, setup: Setup, pieces: nat) {
    && id < |s.batches| == |t.batches|
    && s.batches[id].product == CardOf(s, row.code) && s.batches[id].warehouse == setup.warehouse
    && t.batches[id].quantity == s.batches[id].quantity + pieces
    && t.batches[id].expiry == (if row.expiry != "" then Some(row.expiry) else s.batches[id].expiry)
    && t.batches[id].product == s.batches[id].product && t.batches[id].warehouse == s.batches[id].warehouse
    && t.batches[id].created == s.batches[id].created
    && forall i | 0 <= i < |s.batches| && i != id :: t.batches[i] == s.batches[i]
  }

  /** One batch more, last: the row's card and pieces, its date as yyyy-mm-dd, and the clock's time. */
  predicate Shelved(s: Store, t: Store, row: Row, setup: Setup, pieces: nat, clock: nat) {
    && |t.batches| == |s.batches| + 1 && t.batches[..|s.batches|] == s.batches
    && var b := t.batches[|s.batches|];
       && b.product == CardOf(s, row.code) && b.warehouse == setup.warehouse
       && b.quantity == pieces && b.created == clock
       && (row.expiry == "" <==> b.expiry.None?)
       && (Canonical(row.expiry) ==> b.expiry == Some(row.expiry))
       && (|row.expiry| == 8 && AllDigits(row.expiry) ==>
             b.expiry == Some(row.expiry[..4] + "-" + row.expiry[4..6] + "-" + row.expiry[6..]))
  }

  /** An accepted row is written as decided: a top-up changes the decided batch and no other, by the pieces of
      the row and to the expiry of the row; a new batch is appended. A row is accepted only with a positive
      number of pieces. */
  lemma AppliedRow(s0: Store, rows: seq<Row>, fates: seq<ReceiptFate>, setup: Setup, n: nat)
    requires n < |rows| == |fates| && !rows[n].skipped
    requires !Halted(Run(s0, rows, fates, setup, true, n + 1))
    ensures var a, after, row := Run(s0, rows, fates, setup, true, n), Run(s0, rows, fates, setup, true, n + 1), rows[n];
      var d := ResolveRow(a.store, row, setup, a.pending);
      && after.actions == a.actions + [d.action]
      && AllDigits(row.qty) && Number(row.qty) > 0
      && CardKept(a.store, after.store, row.code)
      && (d.action.TopUp? ==> d.batch.Some? && ToppedUp(a.store, after.store, d.batch.value, row, setup, Number(row.qty)))
      && (d.action.NewBatch? ==> Shelved(a.store, after.store, row, setup, Number(row.qty), fates[n].clock))
  {
    var a, row, fate := Run(s0, rows, fates, setup, true, n), rows[n], fates[n];
    RunStep(s0, rows, fates, setup, true, n + 1);
    var d := ResolveRow(a.store, row, setup, a.pending);
    hide Run, ResolveRow, Count;
    var r := Register(a.store, row, d, setup, fate);
    Registered(a.store, row, d, setup, fate);
    hide Register, QtyOf, CardKept, ToppedUp, Shelved;
    if d.action.TopUp? {
      Rewritten(a.store, r.value.0, r.value.1, row, d, setup);
    }
  }

  /** The receipt of a top-up adds pieces; the expiry comes after it. */
  lemma Registered(s: Store, row: Row, d: Decision, setup: Setup, fate: ReceiptFate)
    requires Register(s, row, d, setup, fate).Some?
    ensures AllDigits(row.qty) && Number(row.qty) > 0
    ensures var (t, id) := Register(s, row, d, setup, fate).value;
      && CardKept(s, t, row.code)
      && (d.action.TopUp? ==> d.batch == Some(id) && Refilled(s, t, id, row, setup, Number(row.qty)))
      && (d.action.NewBatch? ==> Shelved(s, t, row, setup, Number(row.qty), fate.clock))
  {
    hide Number;
    assert row.code in s.products ==> s.products == s.products[row.code := s.products[row.code]];
    if d.action.NewBatch? { DateForms(row, setup); }
    hide IsoExpiry, Canonical, AllDigits;
  }

  lemma DateForms(row: Row, setup: Setup)
    ensures Canonical(row.expiry) ==> row.expiry != "" && IsoExpiry(row.expiry, setup) == Some(row.expiry)
    ensures |row.expiry| == 8 && AllDigits(row.expiry) ==>
      IsoExpiry(row.expiry, setup) == Some(row.expiry[..4] + "-" + row.expiry[4..6] + "-" + row.expiry[6..])
  {
  }

  predicate Refilled(s: Store, t: Store, id: nat, row: Row, setup: Setup, pieces: nat) {
    && id < |s.batches| == |t.batches|
    && s.batches[id].product == CardOf(s, row.code) && s.batches[id].warehouse == setup.warehouse
    && t.batches == s.batches[id := s.batches[id].(quantity := s.batches[id].quantity + pieces)]
  }

  lemma Rewritten(s: Store, t: Store, id: nat, row: Row, d: Decision, setup: Setup)
    requires AllDigits(row.qty) && CardKept(s, t, row.code) && Refilled(s, t, id, row, setup, Number(row.qty))
    ensures CardKept(s, TopUpNotes(t, id, row), row.code)
    ensures ToppedUp(s, TopUpNotes(t, id, row), id, row, setup, Number(row.qty))
  {
    hide Number, AllDigits, CardOf;
  }

  /* ---------- a refused row ---------- */

  /** Every batch remembered for a condition is one of its card, in the warehouse of the run. */
  ghost predicate Remembered(w: Walk, setup: Setup) {
    && w.pending.newCodes == {} && w.pending.newBatches == {} && !w.crashed
    && forall k <- w.pending.conditionBatches :: HomeOf(w.store, setup, k.code, w.pending.conditionBatches[k])
  }

  predicate HomeOf(s: Store, setup: Setup, code: string, id: nat) {
    && code in s.products && id < |s.batches|
    && s.batches[id].product == s.products[code] && s.batches[id].warehouse == setup.warehouse
  }

  /** No date can be made of the expiry of a new batch, or the pieces are not a positive number, or the
      receipt is refused for another reason. */
  predicate Refuses(row: Row, d: Decision, setup: Setup, fate: ReceiptFate) {
    || !fate.accepts || !AllDigits(row.qty) || Number(row.qty) == 0
    || (d.action.NewBatch? && row.expiry != "" && IsoExpiry(row.expiry, setup).None?)
  }

  lemma RefusedStep(w: Walk, row: Row, setup: Setup, fate: ReceiptFate)
    requires Remembered(w, setup) && !Halted(w) && !row.skipped
    ensures var d, next := ResolveRow(w.store, row, setup, w.pending), Step(w, row, setup, true, fate);
      && (Halted(next) <==> Refuses(row, d, setup, fate)) && !next.crashed
      && (Halted(next) ==> next.stoppedAt == Some(row.lineNo) && next.store == w.store
                           && next.summary.rowsWritten == w.summary.rowsWritten)
  {
    DecidedHome(w, row, setup);
    var d := ResolveRow(w.store, row, setup, w.pending);
    assert d.action.TopUp? ==> d.batch.Some? by { hide Earliest; }
    hide ResolveRow, Number, AllDigits, IsoExpiry, Remembered;
  }

  lemma DecidedHome(w: Walk, row: Row, setup: Setup)
    requires Remembered(w, setup)
    ensures var d := ResolveRow(w.store, row, setup, w.pending);
      d.action.TopUp? ==> d.batch.Some? && HomeOf(w.store, setup, row.code, d.batch.value)
  {
    hide Earliest, YearMonth, InMonth;
  }

  lemma {:induction false} RunRemembers(s0: Store, rows: seq<Row>, fates: seq<ReceiptFate>, setup: Setup, n: nat)
    requires n <= |rows| == |fates|
    ensures Remembered(Run(s0, rows, fates, setup, true, n), setup)
  {
    if n > 0 {
      RunRemembers(s0, rows, fates, setup, n - 1);
      RunStep(s0, rows, fates, setup, true, n);
      var w := Run(s0, rows, fates, setup, true, n - 1);
      hide Run;
      StepRemembers(w, rows[n - 1], setup, fates[n - 1]);
    }
  }

  /** Cards and batches keep what a decision looks at. */
  ghost predicate ShapesStay(s: Store, t: Store) {
    && (forall c <- s.products :: c in t.products && t.products[c] == s.products[c])
    && |s.batches| <= |t.batches|
    && forall i | 0 <= i < |s.batches| ::
         t.batches[i].product == s.batches[i].product && t.batches[i].warehouse == s.batches[i].warehouse
  }

  lemma RegisterKeepsShapes(s: Store, row: Row, d: Decision, setup: Setup, fate: ReceiptFate)
    requires Register(s, row, d, setup, fate).Some?
    ensures var (t, id) := Register(s, row, d, setup, fate).value;
      && ShapesStay(s, t) && HomeOf(t, setup, row.code, id)
      && ShapesStay(s, if id < |t.batches| then TopUpNotes(t, id, row) else t)
  {
    hide QtyOf, IsoExpiry;
  }

  lemma StepRemembers(w: Walk, row: Row, setup: Setup, fate: ReceiptFate)
    requires Remembered(w, setup)
    ensures Remembered(Step(w, row, setup, true, fate), setup)
  {
    if !Halted(w) && !row.skipped {
      RefusedStep(w, row, setup, fate);
      var d := ResolveRow(w.store, row, setup, w.pending);
      hide ResolveRow, Refuses, Count;
      if Register(w.store, row, d, setup, fate).Some? {
        RegisterKeepsShapes(w.store, row, d, setup, fate);
        hide Register, TopUpNotes;
      }
    }
  }

  /** --apply stops exactly at a row that is refused, at its line and before anything of it is written, and takes
      no row after it; the internal error never occurs. */
  lemma RefusedRow(s0: Store, rows: seq<Row>, fates: seq<ReceiptFate>, setup: Setup, n: nat, m: nat)
    requires n < m <= |rows| == |fates| && !rows[n].skipped && !Halted(Run(s0, rows, fates, setup, true, n))
    ensures var a, after := Run(s0, rows, fates, setup, true, n), Run(s0, rows, fates, setup, true, n + 1);
      && !after.crashed
      && (Halted(after) <==> Refuses(rows[n], ResolveRow(a.store, rows[n], setup, a.pending), setup, fates[n]))
      && (Halted(after) ==>
            && after.stoppedAt == Some(rows[n].lineNo) && after.store == a.store
            && after.summary.rowsWritten == a.summary.rowsWritten && Run(s0, rows, fates, setup, true, m) == after)
  {
    RunRemembers(s0, rows, fates, setup, n);
    RunStep(s0, rows, fates, setup, true, n + 1);
    RefusedStep(Run(s0, rows, fates, setup, true, n), rows[n], setup, fates[n]);
    if Halted(Run(s0, rows, fates, setup, true, n + 1)) { HaltedStays(s0, rows, fates, setup, n + 1, m); }
    hide Run, Step, Refuses, ResolveRow;
  }

  lemma {:induction false} HaltedStays(s0: Store, rows: seq<Row>, fates: seq<ReceiptFate>, setup: Setup, n: nat, m: nat)
    requires n <= m <= |rows| == |fates| && Halted(Run(s0, rows, fates, setup, true, n))
    ensures Run(s0, rows, fates, setup, true, m) == Run(s0, rows, fates, setup, true, n)
  {
    if n < m {
      HaltedStays(s0, rows, fates, setup, n, m - 1);
      RunStep(s0, rows, fates, setup, true, m);
    }
  }

  /* ---------- the batch that is topped up ---------- */

  /** Of the batches of the month the one chosen expires first, and of those the one created first. */
  lemma EarliestIsSoonest(s: Store, product: nat, warehouse: nat, month: Month, excluded: set<nat>, id: nat)
    requires id < |s.batches| && Candidate(s, id, product, warehouse, month, excluded)
    ensures var r := Earliest(s, product, warehouse, month, excluded, |s.batches|);
      && r.Some? && s.batches[r.value].expiry.Some? == s.batches[id].expiry.Some?
      && var best, b := s.batches[r.value], s.batches[id];
         if b.expiry.Some? && best.expiry != b.expiry then Less(best.expiry.value, b.expiry.value)
         else best.created <= b.created
  {
    EarliestIsFirst(s, product, warehouse, month, excluded, |s.batches|, id);
    var best, b := s.batches[Earliest(s, product, warehouse, month, excluded, |s.batches|).value], s.batches[id];
    if b.expiry.Some? && best.expiry.Some? { LessTotal(best.expiry.value, b.expiry.value); }
    hide Earliest, Less, Like;
  }

  /* ---------- what the summary counts ---------- */

  /** The rows that are not skipped, among the first `n`. */
  function Taken(rows: seq<Row>, n: nat): seq<Row>
    requires n <= |rows|
  {
    if n == 0 then [] else Taken(rows, n - 1) + (if rows[n - 1].skipped then [] else [rows[n - 1]])
  }

  function Pieces(rows: seq<Row>): nat {
    if rows == [] then 0
    else
      var last := rows[|rows| - 1].qty;
      Pieces(rows[..|rows| - 1]) + (if AllDigits(last) then Number(last) else 0)
  }

  function Conditioned(rows: seq<Row>): nat {
    if rows == [] then 0
    else Conditioned(rows[..|rows| - 1]) + (if rows[|rows| - 1].condition != "" then 1 else 0)
  }

  /** The codes of the sheet that had no card before the run. */
  function NewCodes(s0: Store, rows: seq<Row>): set<string> {
    set i | 0 <= i < |rows| && rows[i].code !in s0.products :: rows[i].code
  }

  /** A card of a rouble warehouse takes a price from the price list if there is one. */
  predicate Unpriced(setup: Setup, code: string) {
    !setup.rub || code !in setup.prices || (setup.prices[code].consultant.None? && setup.prices[code].consumer.None?)
  }

  function UnpricedCodes(s0: Store, setup: Setup, rows: seq<Row>): set<string> {
    set c | c in NewCodes(s0, rows) && Unpriced(setup, c)
  }

  /** The counters of the summary, in either mode. */
  ghost predicate Counted(w: Walk, s0: Store, setup: Setup, rows: seq<Row>) {
    && w.summary.toReceipt == |rows| && w.summary.qtyTotal == Pieces(rows) && w.summary.conditionRows == Conditioned(rows)
    && w.summary.newProducts == |NewCodes(s0, rows)| && w.summary.priceless == UnpricedCodes(s0, setup, rows)
    && w.store.products.Keys + w.pending.newCodes == s0.products.Keys + NewCodes(s0, rows)
  }

  /** While a run goes on, in either mode, its summary counts the rows taken, their pieces, the rows with a
      condition, each new card once, and the new cards without a price. */
  lemma {:induction false} SummaryCounts(s0: Store, rows: seq<Row>, fates: seq<ReceiptFate>, setup: Setup, apply: bool, n: nat)
    requires n <= |rows| == |fates| && !Halted(Run(s0, rows, fates, setup, apply, n))
    ensures Counted(Run(s0, rows, fates, setup, apply, n), s0, setup, Taken(rows, n))
  {
    hide Counted, Step, Halted;
    if n == 0 {
      NothingCounted(s0, setup);
    } else {
      RunStep(s0, rows, fates, setup, apply, n);
      var w := Run(s0, rows, fates, setup, apply, n - 1);
      hide Run;
      StaysHalted(w, rows[n - 1], setup, apply, fates[n - 1]);
      SummaryCounts(s0, rows, fates, setup, apply, n - 1);
      if rows[n - 1].skipped {
        SkippedRow(w, rows[n - 1], setup, apply, fates[n - 1]);
        assert Taken(rows, n) == Taken(rows, n - 1);
      } else {
        CountedNext(w, s0, setup, Taken(rows, n - 1), rows[n - 1], apply, fates[n - 1]);
      }
    }
  }

  lemma NothingCounted(s0: Store, setup: Setup)
    ensures Counted(Begin(s0), s0, setup, [])
  {
  }

  lemma StaysHalted(w: Walk, row: Row, setup: Setup, apply: bool, fate: ReceiptFate)
    ensures Halted(w) ==> Halted(Step(w, row, setup, apply, fate))
  {
  }

  lemma SkippedRow(w: Walk, row: Row, setup: Setup, apply: bool, fate: ReceiptFate)
    requires row.skipped
    ensures Step(w, row, setup, apply, fate) == w
  {
  }

  lemma CountedNext(w: Walk, s0: Store, setup: Setup, rows: seq<Row>, row: Row, apply: bool, fate: ReceiptFate)
    requires Counted(w, s0, setup, rows) && !row.skipped && !Halted(Step(w, row, setup, apply, fate))
    ensures Counted(Step(w, row, setup, apply, fate), s0, setup, rows + [row])
  {
    var d, next := ResolveRow(w.store, row, setup, w.pending), Step(w, row, setup, apply, fate);
    StepCounters(w, row, setup, apply, fate);
    KnownProduct(w, row, setup);
    CountMeans(w.summary, row, d);
    hide Step, ResolveRow, Count, QtyOf;
    assert next.summary.toReceipt == w.summary.toReceipt + 1 && next.summary.qtyTotal == w.summary.qtyTotal + QtyOf(row)
      && next.summary.conditionRows == w.summary.conditionRows + (if row.condition != "" then 1 else 0);
    CodesCounted(w, next, s0, setup, rows, row, d, apply || !d.productExists);
    NumbersCounted(w, next, s0, setup, rows, row);
  }

  lemma NumbersCounted(w: Walk, next: Walk, s0: Store, setup: Setup, rows: seq<Row>, row: Row)
    requires Counted(w, s0, setup, rows)
    requires next.summary.toReceipt == w.summary.toReceipt + 1 && next.summary.qtyTotal == w.summary.qtyTotal + QtyOf(row)
    requires next.summary.conditionRows == w.summary.conditionRows + (if row.condition != "" then 1 else 0)
    ensures var more := rows + [row];
      && next.summary.toReceipt == |more| && next.summary.qtyTotal == Pieces(more)
      && next.summary.conditionRows == Conditioned(more)
  {
    MorePieces(rows, row);
    hide Pieces, Conditioned, NewCodes, UnpricedCodes, QtyOf;
  }

  lemma CodesCounted(w: Walk, next: Walk, s0: Store, setup: Setup, rows: seq<Row>, row: Row, d: Decision, added: bool)
    requires Counted(w, s0, setup, rows)
    requires d.productExists <==> row.code in w.store.products.Keys + w.pending.newCodes
    requires !d.productExists ==> (d.cost.None? && d.sale.None? <==> Unpriced(setup, row.code))
    requires next.summary.newProducts == w.summary.newProducts + (if d.productExists then 0 else 1)
    requires next.summary.priceless
             == w.summary.priceless + (if !d.productExists && d.cost.None? && d.sale.None? then {row.code} else {})
    requires !added ==> d.productExists
    requires next.store.products.Keys + next.pending.newCodes
             == w.store.products.Keys + w.pending.newCodes + (if added then {row.code} else {})
    ensures var more := rows + [row];
      && next.summary.newProducts == |NewCodes(s0, more)| && next.summary.priceless == UnpricedCodes(s0, setup, more)
      && next.store.products.Keys + next.pending.newCodes == s0.products.Keys + NewCodes(s0, more)
  {
    hide Pieces, Conditioned, NewCodes, UnpricedCodes, Unpriced;
    MoreNewCodes(s0, rows, row);
    MoreUnpriced(s0, setup, rows, row, d.productExists);
    CodesGrow(w.store.products.Keys + w.pending.newCodes, s0.products.Keys, NewCodes(s0, rows), row.code, added);
    NewCodeCounted(s0, rows, row.code, d.productExists);
  }

  lemma CountMeans(m: Summary, row: Row, d: Decision)
    ensures var c := Count(m, row, d);
      && c.toReceipt == m.toReceipt + 1 && c.qtyTotal == m.qtyTotal + QtyOf(row)
      && c.conditionRows == m.conditionRows + (if row.condition != "" then 1 else 0)
      && c.newProducts == m.newProducts + (if d.productExists then 0 else 1)
      && c.priceless == m.priceless + (if !d.productExists && d.cost.None? && d.sale.None? then {row.code} else {})
  {
  }

  lemma CodesGrow(known: set<string>, base: set<string>, news: set<string>, code: string, added: bool)
    requires known == base + news && (!added ==> code in known)
    ensures known + (if added then {code} else {}) == base + (news + (if code in base then {} else {code}))
  {
  }

  lemma NewCodeCounted(s0: Store, rows: seq<Row>, code: string, known: bool)
    requires known <==> code in s0.products.Keys + NewCodes(s0, rows)
    ensures |NewCodes(s0, rows) + (if code in s0.products then {} else {code})|
            == |NewCodes(s0, rows)| + (if known then 0 else 1)
  {
    if known && code !in s0.products {
      assert NewCodes(s0, rows) + {code} == NewCodes(s0, rows);
    } else if known {
      assert NewCodes(s0, rows) + {} == NewCodes(s0, rows);
    }
  }

  /** What a row does to the counters and the known codes, whatever is decided. */
  lemma StepCounters(w: Walk, row: Row, setup: Setup, apply: bool, fate: ReceiptFate)
    requires !row.skipped && !Halted(Step(w, row, setup, apply, fate))
    ensures var d, next := ResolveRow(w.store, row, setup, w.pending), Step(w, row, setup, apply, fate);
      && next.summary.(rowsWritten := 0) == Count(w.summary, row, d).(rowsWritten := 0)
      && next.store.products.Keys + next.pending.newCodes
         == w.store.products.Keys + w.pending.newCodes + (if apply || !d.productExists then {row.code} else {})
  {
    var d := ResolveRow(w.store, row, setup, w.pending);
    hide ResolveRow, Count;
    if apply {
      var r := Register(w.store, row, d, setup, fate);
      if r.Some? {
        assert r.value.0.products.Keys == w.store.products.Keys + {row.code};
      }
    }
  }

  lemma KnownProduct(w: Walk, row: Row, setup: Setup)
    ensures var d := ResolveRow(w.store, row, setup, w.pending);
      && (d.productExists <==> row.code in w.store.products.Keys + w.pending.newCodes)
      && (!d.productExists ==> (d.cost.None? && d.sale.None? <==> Unpriced(setup, row.code)))
      && (!d.productExists && setup.rub && row.code in setup.prices ==>
            d.cost == setup.prices[row.code].consultant && d.sale == setup.prices[row.code].consumer)
  {
    hide Earliest;
  }

  lemma MoreNewCodes(s0: Store, rows: seq<Row>, row: Row)
    ensures NewCodes(s0, rows + [row]) == NewCodes(s0, rows) + (if row.code in s0.products then {} else {row.code})
  {
    var more := rows + [row];
    assert forall i | 0 <= i < |rows| :: more[i] == rows[i];
    assert more[|rows|] == row;
  }

  lemma MoreUnpriced(s0: Store, setup: Setup, rows: seq<Row>, row: Row, known: bool)
    requires known <==> row.code in s0.products.Keys + NewCodes(s0, rows)
    ensures UnpricedCodes(s0, setup, rows + [row])
            == UnpricedCodes(s0, setup, rows) + (if !known && Unpriced(setup, row.code) then {row.code} else {})
  {
    MoreNewCodes(s0, rows, row);
    hide NewCodes, Unpriced;
  }

  lemma MorePieces(rows: seq<Row>, row: Row)
    ensures Pieces(rows + [row]) == Pieces(rows) + QtyOf(row)
    ensures Conditioned(rows + [row]) == Conditioned(rows) + (if row.condition != "" then 1 else 0)
  {
    assert (rows + [row])[..|rows|] == rows;
    hide Number, AllDigits;
  }
}
