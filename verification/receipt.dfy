/** scripts/import_inventory_receipt.py: what one sheet row does, decided read-only and shared by the
    dry run and by --apply. */
module Receipt {
  import opened Base
  import opened Text

  datatype Row = Row(
    lineNo: nat, code: string, qty: string, expiry: string,
    placement: string, condition: string, skipped: bool)

  /** A batch is identified by its position: rows are only ever appended. */
  datatype Batch = Batch(
    product: nat, warehouse: nat, expiry: Option<string>, created: nat, quantity: int)

  /** `products` maps the code of every active card to its id. */
  datatype Store = Store(products: map<string, nat>, nextProduct: nat, batches: seq<Batch>)

  datatype Price = Price(consultant: Option<int>, consumer: Option<int>)

  /** `weekDates`: the texts in an ISO week form, with the date each denotes. */
  datatype Setup = Setup(warehouse: nat, rub: bool, prices: map<string, Price>, weekDates: map<string, string>)

  datatype Action = NewBatch | TopUp

  type Month = Option<string>

  datatype Key = Key(code: string, month: Month, condition: string)

  /** `cost` and `sale` are None where the script sends an empty string. */
  datatype Decision = Decision(
    action: Action, productExists: bool, batch: Option<nat>, cost: Option<int>, sale: Option<int>)

  datatype Pending = Pending(
    newCodes: set<string>, newBatches: set<Key>,
    conditionBatches: map<Key, nat>, conditionIds: set<nat>)

  const NOTHING_PENDING := Pending({}, {}, map[], {})

  function YearMonth(expiry: string): Month {
    if expiry == "" then None
    else Some(if |expiry| <= 7 then expiry else expiry[..7])
  }

  function KeyOf(row: Row): Key {
    Key(row.code, YearMonth(row.expiry), row.condition)
  }

  /* ---------- the month lookup ---------- */

  predicate InMonth(b: Batch, month: Month) {
    match month
    case None => b.expiry.None?
    case Some(m) => b.expiry.Some? && Like(b.expiry.value, m + "-%")
  }

  predicate Candidate(s: Store, id: nat, product: nat, warehouse: nat, month: Month, excluded: set<nat>) {
    && id < |s.batches| && id !in excluded
    && s.batches[id].product == product && s.batches[id].warehouse == warehouse
    && InMonth(s.batches[id], month)
  }

  /** ORDER BY expiry, created_at. */
  predicate Earlier(a: Batch, b: Batch) {
    if a.expiry.Some? && b.expiry.Some? && a.expiry.value != b.expiry.value
    then Less(a.expiry.value, b.expiry.value)
    else a.created < b.created
  }

  /** The first row of the month query among the first `n` batches. */
  function Earliest(s: Store, product: nat, warehouse: nat, month: Month, excluded: set<nat>, n: nat): (r: Option<nat>)
    requires n <= |s.batches|
    ensures r.Some? <==> exists id | 0 <= id < n :: Candidate(s, id, product, warehouse, month, excluded)
    ensures r.Some? ==> r.value < n && Candidate(s, r.value, product, warehouse, month, excluded)
  {
    if n == 0 then None
    else
      var before := Earliest(s, product, warehouse, month, excluded, n - 1);
      if !Candidate(s, n - 1, product, warehouse, month, excluded) then before
      else if before.Some? && !Earlier(s.batches[n - 1], s.batches[before.value]) then before
      else Some(n - 1)
  }

  /** The chosen batch really is the earliest candidate of the month. */
  lemma {:induction false} EarliestIsFirst(s: Store, product: nat, warehouse: nat, month: Month, excluded: set<nat>, n: nat, id: nat)
    requires n <= |s.batches| && id < n && Candidate(s, id, product, warehouse, month, excluded)
    ensures var r := Earliest(s, product, warehouse, month, excluded, n);
      r.Some? && !Earlier(s.batches[id], s.batches[r.value])
  {
    var before := Earliest(s, product, warehouse, month, excluded, n - 1);
    if id < n - 1 {
      EarliestIsFirst(s, product, warehouse, month, excluded, n - 1, id);
      var x, y, z := s.batches[id], s.batches[before.value], s.batches[n - 1];
      if Candidate(s, n - 1, product, warehouse, month, excluded) && Earlier(z, y) && Earlier(x, z) {
        EarlierTransitive(x, z, y);
      }
    }
  }

  lemma EarlierTransitive(a: Batch, b: Batch, c: Batch)
    requires a.expiry.Some? == b.expiry.Some? == c.expiry.Some?
    requires Earlier(a, b) && Earlier(b, c)
    ensures Earlier(a, c)
  {
    if a.expiry.Some? {
      var x, y, z := a.expiry.value, b.expiry.value, c.expiry.value;
      if x != y && y != z { LessTransitive(x, y, z); LessAsymmetric(x, y); LessAsymmetric(y, z); LessAsymmetric(x, z); }
    }
  }

  /* ---------- resolve_row ---------- */

  function ResolveRow(s: Store, row: Row, setup: Setup, pending: Pending): Decision {
    var key := KeyOf(row);
    var productExists := row.code in s.products || row.code in pending.newCodes;
    var known :=
      if row.condition != "" then
        if key in pending.conditionBatches then Some(pending.conditionBatches[key]) else None
      else if row.code in s.products then
        Earliest(s, s.products[row.code], setup.warehouse, key.month, pending.conditionIds, |s.batches|)
      else None;
    var action := if known.Some? || key in pending.newBatches then TopUp else NewBatch;
    var priced := !productExists && setup.rub && row.code in setup.prices;
    Decision(action, productExists, known,
             if priced then setup.prices[row.code].consultant else None,
             if priced then setup.prices[row.code].consumer else None)
  }

  /* ---------- register_receipt and the top-up fixes ---------- */

  /** Whatever else register_receipt may refuse (name, price, warehouse, a lost race) is `accepts`;
      `clock` stamps a new batch. */
  datatype ReceiptFate = ReceiptFate(accepts: bool, clock: nat)

  function QtyOf(row: Row): nat {
    if AllDigits(row.qty) then Number(row.qty) else 0
  }

  predicate Canonical(e: string) {
    && |e| == 10 && e[4] == '-' && e[7] == '-'
    && forall i | 0 <= i < 10 && i != 4 && i != 7 :: IsDigit(e[i])
  }

  /** date.fromisoformat(...).isoformat(): the extended form stays, the basic and week forms are rewritten. */
  function IsoExpiry(e: string, setup: Setup): Option<string> {
    if Canonical(e) then Some(e)
    else if |e| == 8 && AllDigits(e) then Some(e[..4] + "-" + e[4..6] + "-" + e[6..])
    else if e in setup.weekDates then Some(setup.weekDates[e])
    else None
  }

  /** register_receipt: None when it reports errors, and then nothing was written. */
  function Register(s: Store, row: Row, d: Decision, setup: Setup, fate: ReceiptFate): Option<(Store, nat)> {
    var expiry := if row.expiry == "" then None else IsoExpiry(row.expiry, setup);
    if !fate.accepts || QtyOf(row) == 0 then None
    else if d.action.NewBatch? && row.expiry != "" && expiry.None? then None
    else
      var unknown := row.code !in s.products;
      var product := if unknown then s.nextProduct else s.products[row.code];
      var s1 := if unknown then s.(products := s.products[row.code := product], nextProduct := product + 1) else s;
      if d.action.NewBatch? then
        var b := Batch(product, setup.warehouse, expiry, fate.clock, QtyOf(row));
        Some((s1.(batches := s.batches + [b]), |s.batches|))
      else if d.batch.None? || d.batch.value >= |s.batches|
           || s.batches[d.batch.value].product != product
           || s.batches[d.batch.value].warehouse != setup.warehouse then None
      else
        var id := d.batch.value;
        Some((s1.(batches := s.batches[id := s.batches[id].(quantity := s.batches[id].quantity + QtyOf(row))]), id))
  }

  /** _apply_topup_notes, as far as the expiry is concerned. */
  function TopUpNotes(s: Store, id: nat, row: Row): Store
    requires id < |s.batches|
  {
    if row.expiry != "" && s.batches[id].expiry != Some(row.expiry)
    then s.(batches := s.batches[id := s.batches[id].(expiry := Some(row.expiry))])
    else s
  }

  /* ---------- one iteration of run_import ---------- */

  datatype Summary = Summary(
    toReceipt: nat, qtyTotal: nat, newProducts: nat, newBatches: nat, topups: nat,
    conditionRows: nat, rowsWritten: nat, priceless: set<string>)

  const EMPTY_SUMMARY := Summary(0, 0, 0, 0, 0, 0, 0, {})

  /** `crashed` is the internal error «top-up target undetermined»; `stoppedAt` a refused receipt.
      `actions` lists what was decided for each row that is not skipped. */
  datatype Walk = Walk(
    store: Store, pending: Pending, summary: Summary,
    stoppedAt: Option<nat>, crashed: bool, actions: seq<Action>)

  function Begin(s: Store): Walk {
    Walk(s, NOTHING_PENDING, EMPTY_SUMMARY, None, false, [])
  }

  predicate Halted(w: Walk) {
    w.crashed || w.stoppedAt.Some?
  }

  /** The counters of one row, the same in both modes. */
  function Count(m: Summary, row: Row, d: Decision): Summary {
    m.(toReceipt := m.toReceipt + 1,
       qtyTotal := m.qtyTotal + QtyOf(row),
       conditionRows := m.conditionRows + (if row.condition != "" then 1 else 0),
       newProducts := m.newProducts + (if d.productExists then 0 else 1),
       newBatches := m.newBatches + (if d.action.NewBatch? then 1 else 0),
       topups := m.topups + (if d.action.TopUp? then 1 else 0),
       priceless := if !d.productExists && d.cost.None? && d.sale.None? then m.priceless + {row.code} else m.priceless)
  }

  /** D-2: a dry run remembers its own predictions. */
  function Remember(p: Pending, row: Row, d: Decision): Pending {
    p.(newCodes := if d.productExists then p.newCodes else p.newCodes + {row.code},
       newBatches := if d.action.NewBatch? then p.newBatches + {KeyOf(row)} else p.newBatches)
  }

  function Step(w: Walk, row: Row, setup: Setup, apply: bool, fate: ReceiptFate): Walk {
    if Halted(w) || row.skipped then w
    else
      var d := ResolveRow(w.store, row, setup, w.pending);
      var counted := w.(summary := Count(w.summary, row, d), actions := w.actions + [d.action]);
      if !apply then counted.(pending := Remember(w.pending, row, d))
      else if d.action.TopUp? && d.batch.None? then counted.(crashed := true)
      else
        var receipt := Register(w.store, row, d, setup, fate);
        if receipt.None? then counted.(stoppedAt := Some(row.lineNo))
        else Write(counted, row, d, receipt.value.0, receipt.value.1)
  }

  /** What --apply does once the receipt of a row is written. */
  function Write(w: Walk, row: Row, d: Decision, s: Store, id: nat): Walk {
    var written := w.(store := s, summary := w.summary.(rowsWritten := w.summary.rowsWritten + 1));
    if d.action.NewBatch? then
      if row.condition == "" then written
      else written.(pending := w.pending.(
                      conditionBatches := w.pending.conditionBatches[KeyOf(row) := id],
                      conditionIds := w.pending.conditionIds + {id}))
    else if id < |s.batches| then written.(store := TopUpNotes(s, id, row))
    else written
  }

  /** run_import over the first `n` rows. */
  function Run(s: Store, rows: seq<Row>, fates: seq<ReceiptFate>, setup: Setup, apply: bool, n: nat): Walk
    requires n <= |rows| == |fates|
  {
    if n == 0 then Begin(s)
    else Step(Run(s, rows, fates, setup, apply, n - 1), rows[n - 1], setup, apply, fates[n - 1])
  }
}
