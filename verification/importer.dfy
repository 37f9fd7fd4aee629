/** run_import as it is written: one loop over the sheet that updates the database, the run-scoped
    memory and the summary in place. It is proved equal to `Receipt.Run`. */
module Importer {
  import opened Base
  import opened Receipt
  import opened DryRun

  class Database {
    var products: map<string, nat>
    var nextProduct: nat
    var batches: seq<Batch>

    constructor (s: Store)
      ensures Rows() == s
    {
      products, nextProduct, batches := s.products, s.nextProduct, s.batches;
    }

    function Rows(): Store
      reads this
    {
      Store(products, nextProduct, batches)
    }

    /** register_receipt: on a refusal nothing is written. */
    method RegisterReceipt(row: Row, d: Decision, setup: Setup, fate: ReceiptFate) returns (id: Option<nat>)
      modifies this
      ensures var r := Register(old(Rows()), row, d, setup, fate);
        if r.None? then id.None? && Rows() == old(Rows())
        else id == Some(r.value.1) && Rows() == r.value.0
    {
      var expiry := if row.expiry == "" then None else IsoExpiry(row.expiry, setup);
      if !fate.accepts || QtyOf(row) == 0 {
        return None;
      }
      if d.action.NewBatch? && row.expiry != "" && expiry.None? {
        return None;
      }
      var product := if row.code in products then products[row.code] else nextProduct;
      if d.action.TopUp? {
        if d.batch.None? || d.batch.value >= |batches|
           || batches[d.batch.value].product != product
           || batches[d.batch.value].warehouse != setup.warehouse {
          return None;
        }
      }
      if row.code !in products {
        products, nextProduct := products[row.code := product], nextProduct + 1;
      }
      if d.action.NewBatch? {
        id := Some(|batches|);
        batches := batches + [Batch(product, setup.warehouse, expiry, fate.clock, QtyOf(row))];
      } else {
        id := d.batch;
        var b := batches[id.value];
        batches := batches[id.value := b.(quantity := b.quantity + QtyOf(row))];
      }
    }

    /** _apply_topup_notes: the expiry takes the sheet's shape. */
    method ApplyTopUpNotes(id: nat, row: Row)
      requires id < |batches|
      modifies `batches
      ensures Rows() == TopUpNotes(old(Rows()), id, row)
    {
      if row.expiry != "" && batches[id].expiry != Some(row.expiry) {
        batches := batches[id := batches[id].(expiry := Some(row.expiry))];
      }
    }
  }

  lemma {:induction false} HaltedStays(s: Store, rows: seq<Row>, fates: seq<ReceiptFate>, setup: Setup, apply: bool, i: nat, n: nat)
    requires i <= n <= |rows| == |fates| && Halted(Run(s, rows, fates, setup, apply, i))
    ensures Run(s, rows, fates, setup, apply, n) == Run(s, rows, fates, setup, apply, i)
  {
    if i < n { HaltedStays(s, rows, fates, setup, apply, i, n - 1); }
  }

  lemma RunBegins(s: Store, rows: seq<Row>, fates: seq<ReceiptFate>, setup: Setup, apply: bool)
    requires |rows| == |fates|
    ensures Run(s, rows, fates, setup, apply, 0) == Begin(s)
  {
  }

  lemma RegisteredIsThere(s: Store, row: Row, d: Decision, setup: Setup, fate: ReceiptFate)
    ensures var r := Register(s, row, d, setup, fate); r.Some? ==> r.value.1 < |r.value.0.batches|
  {
  }

  /** run_import */
  method RunImport(db: Database, rows: seq<Row>, fates: seq<ReceiptFate>, setup: Setup, apply: bool)
    returns (summary: Summary, stoppedAt: Option<nat>, crashed: bool, actions: seq<Action>)
    requires |rows| == |fates|
    modifies db
    ensures var w := Run(old(db.Rows()), rows, fates, setup, apply, |rows|);
      && db.Rows() == w.store && summary == w.summary && stoppedAt == w.stoppedAt
      && crashed == w.crashed && actions == w.actions
    ensures !apply ==> db.Rows() == old(db.Rows())
  {
    ghost var s0 := db.Rows();
    summary, stoppedAt, crashed, actions := EMPTY_SUMMARY, None, false, [];
    var pending := NOTHING_PENDING;
    RunBegins(s0, rows, fates, setup, apply);
    hide ResolveRow, Register, TopUpNotes, Count, Remember, KeyOf, Run;
    var i := 0;
    while i < |rows|
      invariant 0 <= i <= |rows|
      invariant Run(s0, rows, fates, setup, apply, i) == Walk(db.Rows(), pending, summary, stoppedAt, crashed, actions)
      invariant !crashed && stoppedAt.None?
    {
      var row := rows[i];
      ghost var before := Walk(db.Rows(), pending, summary, stoppedAt, crashed, actions);
      i := i + 1;
      RunStep(s0, rows, fates, setup, apply, i);
      if row.skipped {
        continue;
      }
      var d := ResolveRow(db.Rows(), row, setup, pending);
      summary, actions := Count(summary, row, d), actions + [d.action];
      if !apply {
        pending := Remember(pending, row, d);
        continue;
      }
      if d.action.TopUp? && d.batch.None? {
        crashed := true;
        HaltedStays(s0, rows, fates, setup, apply, i, |rows|);
        break;
      }
      RegisteredIsThere(db.Rows(), row, d, setup, fates[i - 1]);
      var id := db.RegisterReceipt(row, d, setup, fates[i - 1]);
      if id.None? {
        stoppedAt := Some(row.lineNo);
        HaltedStays(s0, rows, fates, setup, apply, i, |rows|);
        break;
      }
      summary := summary.(rowsWritten := summary.rowsWritten + 1);
      if d.action.NewBatch? {
        if row.condition != "" {
          pending := pending.(conditionBatches := pending.conditionBatches[KeyOf(row) := id.value],
                              conditionIds := pending.conditionIds + {id.value});
        }
      } else {
        db.ApplyTopUpNotes(id.value, row);
      }
    }
    if !apply {
      DryRunWritesNothing(s0, rows, fates, setup, |rows|);
    }
  }
}
