/** The dry run of the sheet import predicts --apply: a simulation between the run whose memory is
    the `Pending` sets and the run whose memory is the database it writes. */
module DryRun {
  import opened Base
  import opened Text
  import opened Receipt

  /** Expiries the sheet and the ledger are meant to hold: none, or canonical yyyy-mm-dd. */
  predicate Tidy(s: Store) {
    && (forall b <- s.batches :: b.expiry.Some? ==> Canonical(b.expiry.value))
    && (forall b <- s.batches :: b.product < s.nextProduct)
    && (forall c <- s.products :: s.products[c] < s.nextProduct)
    && (forall c, d | c in s.products && d in s.products && c != d :: s.products[c] != s.products[d])
  }

  predicate TidyRow(row: Row) {
    row.expiry == "" || Canonical(row.expiry)
  }

  function MonthOf(b: Batch): Month {
    if b.expiry.None? then None else YearMonth(b.expiry.value)
  }

  /** For canonical dates the LIKE of the month query compares year and month. */
  lemma InMonthIsMonthOf(b: Batch, row: Row)
    requires TidyRow(row) && (b.expiry.Some? ==> Canonical(b.expiry.value))
    ensures InMonth(b, YearMonth(row.expiry)) <==> MonthOf(b) == YearMonth(row.expiry)
  {
    if row.expiry != "" && b.expiry.Some? {
      var m, e := row.expiry[..7], b.expiry.value;
      assert m + "-%" == (m + "-") + "%";
      LikePrefix(e, m + "-");
      assert m + "-" <= e <==> e[..7] == m by {
        assert e[..8] == e[..7] + "-";
      }
    }
  }

  /** All that later rows can see of a batch. */
  datatype Shape = Shape(product: nat, warehouse: nat, month: Month)

  function ShapeOf(b: Batch): Shape {
    Shape(b.product, b.warehouse, MonthOf(b))
  }

  /** Some batch of this card, warehouse and month is open to ordinary rows. */
  ghost predicate Offers(s: Store, product: nat, warehouse: nat, month: Month, excluded: set<nat>) {
    exists id | 0 <= id < |s.batches| :: id !in excluded && ShapeOf(s.batches[id]) == Shape(product, warehouse, month)
  }

  lemma EarliestIsOffer(s: Store, row: Row, product: nat, warehouse: nat, excluded: set<nat>)
    requires Tidy(s) && TidyRow(row)
    ensures Earliest(s, product, warehouse, YearMonth(row.expiry), excluded, |s.batches|).Some?
            <==> Offers(s, product, warehouse, YearMonth(row.expiry), excluded)
  {
    forall id | 0 <= id < |s.batches|
      ensures InMonth(s.batches[id], YearMonth(row.expiry)) <==> MonthOf(s.batches[id]) == YearMonth(row.expiry)
    {
      InMonthIsMonthOf(s.batches[id], row);
    }
    var month := YearMonth(row.expiry);
    assert forall id | 0 <= id < |s.batches| ::
        Candidate(s, id, product, warehouse, month, excluded) <==>
        id !in excluded && ShapeOf(s.batches[id]) == Shape(product, warehouse, month);
  }

  /* ---------- what the two runs have in common ---------- */

  /** The counters both modes print; `rowsWritten` belongs to --apply alone. */
  predicate SameCounts(a: Summary, d: Summary) {
    a == d.(rowsWritten := a.rowsWritten)
  }

  /** The run's own condition batches, and nothing else, are excluded from the month query. */
  ghost predicate ConditionBook(a: Walk, s0: Store, setup: Setup) {
    && (forall k <- a.pending.conditionBatches ::
          var id := a.pending.conditionBatches[k];
          && |s0.batches| <= id < |a.store.batches| && id in a.pending.conditionIds
          && k.code in a.store.products
          && ShapeOf(a.store.batches[id]) == Shape(a.store.products[k.code], setup.warehouse, k.month))
    && (forall id <- a.pending.conditionIds :: |s0.batches| <= id < |a.store.batches|)
  }

  /** An ordinary row of this code and month tops up under --apply exactly if it did before the run
      or the dry run has already predicted a batch for it. */
  ghost predicate OrdinaryBook(a: Walk, d: Walk, s0: Store, setup: Setup) {
    forall c, m | c in a.store.products ::
      Offers(a.store, a.store.products[c], setup.warehouse, m, a.pending.conditionIds) <==>
        (c in s0.products && Offers(s0, s0.products[c], setup.warehouse, m, {}))
        || Key(c, m, "") in d.pending.newBatches
  }

  /** Cards and keys known to both runs. */
  ghost predicate KeysAgree(a: Walk, d: Walk, s0: Store) {
    && Tidy(a.store) && d.store == s0 && |s0.batches| <= |a.store.batches|
    && s0.products.Keys + d.pending.newCodes == a.store.products.Keys
    && (forall c <- s0.products :: a.store.products[c] == s0.products[c])
    && a.pending.newCodes == {} && a.pending.newBatches == {}
    && d.pending.conditionBatches == map[] && d.pending.conditionIds == {}
    && (forall k <- d.pending.newBatches :: k.code in a.store.products)
    && (forall k: Key | k.condition != "" :: k in d.pending.newBatches <==> k in a.pending.conditionBatches)
    && (forall k <- a.pending.conditionBatches :: k.condition != "")
  }

  ghost predicate Agree(a: Walk, d: Walk, s0: Store, setup: Setup) {
    && !a.crashed && !Halted(d)
    && a.actions == d.actions && SameCounts(a.summary, d.summary)
    && KeysAgree(a, d, s0) && ConditionBook(a, s0, setup) && OrdinaryBook(a, d, s0, setup)
  }

  /** The heart of the matter: from agreeing states the shared decision is the same. */
  lemma SameDecision(a: Walk, d: Walk, s0: Store, setup: Setup, row: Row)
    requires Tidy(s0) && TidyRow(row) && Agree(a, d, s0, setup)
    ensures var x, y := ResolveRow(a.store, row, setup, a.pending), ResolveRow(s0, row, setup, d.pending);
      && x.action == y.action && x.productExists == y.productExists && x.cost == y.cost && x.sale == y.sale
      && (x.action.TopUp? ==>
            && x.batch.Some? && x.batch.value < |a.store.batches| && row.code in a.store.products
            && ShapeOf(a.store.batches[x.batch.value])
               == Shape(a.store.products[row.code], setup.warehouse, YearMonth(row.expiry)))
  {
    if row.condition == "" {
      if row.code in a.store.products {
        EarliestIsOffer(a.store, row, a.store.products[row.code], setup.warehouse, a.pending.conditionIds);
        var known := Earliest(a.store, a.store.products[row.code], setup.warehouse, YearMonth(row.expiry), a.pending.conditionIds, |a.store.batches|);
        if known.Some? {
          InMonthIsMonthOf(a.store.batches[known.value], row);
        }
      }
      if row.code in s0.products {
        EarliestIsOffer(s0, row, s0.products[row.code], setup.warehouse, {});
      }
    }
  }

  /* ---------- one row keeps the agreement ---------- */

  predicate SameShapes(s: Store, t: Store) {
    && |s.batches| == |t.batches| && s.products == t.products && s.nextProduct == t.nextProduct
    && forall id | 0 <= id < |s.batches| :: ShapeOf(s.batches[id]) == ShapeOf(t.batches[id])
  }

  /** A top-up may rewrite the expiry, but never the month: later rows see the same shapes. */
  lemma TopUpKeepsShapes(s: Store, row: Row, d: Decision, setup: Setup, fate: ReceiptFate)
    requires Tidy(s) && TidyRow(row) && d.action.TopUp? && d.batch.Some? && d.batch.value < |s.batches|
    requires row.code in s.products
    requires ShapeOf(s.batches[d.batch.value]) == Shape(s.products[row.code], setup.warehouse, YearMonth(row.expiry))
    ensures var r := Register(s, row, d, setup, fate);
      (r.Some? <==> fate.accepts && QtyOf(row) > 0) &&
      (r.Some? ==> r.value.1 == d.batch.value < |r.value.0.batches|
                   && SameShapes(s, TopUpNotes(r.value.0, r.value.1, row)) && Tidy(TopUpNotes(r.value.0, r.value.1, row)))
  {
    var r := Register(s, row, d, setup, fate);
    if r.Some? {
      var id, t := d.batch.value, TopUpNotes(r.value.0, r.value.1, row);
      assert |t.batches| == |s.batches|;
      assert forall i | 0 <= i < |s.batches| && i != id :: t.batches[i] == s.batches[i];
      assert MonthOf(t.batches[id]) == MonthOf(s.batches[id]);
      assert t.batches[id].product == s.batches[id].product;
    }
  }

  lemma SameShapesSameOffers(s: Store, t: Store, product: nat, warehouse: nat, month: Month, excluded: set<nat>)
    requires SameShapes(s, t)
    ensures Offers(s, product, warehouse, month, excluded) <==> Offers(t, product, warehouse, month, excluded)
  {
  }

  lemma TopUpAgrees(a: Walk, d: Walk, s0: Store, setup: Setup, row: Row, fate: ReceiptFate)
    requires Tidy(s0) && TidyRow(row) && Agree(a, d, s0, setup) && !row.skipped && !Halted(a)
    requires ResolveRow(a.store, row, setup, a.pending).action.TopUp?
    ensures var a', d' := Step(a, row, setup, true, fate), Step(d, row, setup, false, fate);
      && !a'.crashed && !Halted(d') && a'.actions == d'.actions && SameCounts(a'.summary, d'.summary)
      && (!Halted(a') ==> Agree(a', d', s0, setup))
      && (Halted(a') <==> !fate.accepts || QtyOf(row) == 0)
  {
    hide Agree, Tidy, TidyRow, SameShapes, ShapeOf, ResolveRow, Register, TopUpNotes, Step, Count, Remember, QtyOf;
    AgreeMeans(a, d, s0, setup);
    SameDecision(a, d, s0, setup, row);
    var x, y := ResolveRow(a.store, row, setup, a.pending), ResolveRow(s0, row, setup, d.pending);
    TopUpKeepsShapes(a.store, row, x, setup, fate);
    TopUpStep(a, row, setup, true, fate);
    TopUpStep(d, row, setup, false, fate);
    SameCounted(a.summary, d.summary, row, x, y);
    KnownCard(a.store, row, setup, a.pending);
    RememberedTopUp(d.pending, row, y);
    var a', d' := Step(a, row, setup, true, fate), Step(d, row, setup, false, fate);
    var r := Register(a.store, row, x, setup, fate);
    if r.Some? {
      var t := TopUpNotes(r.value.0, r.value.1, row);
      ShapesKeepAgreement(a, t, d, s0, setup);
      CountsAside(a.(store := t), d, a', d', s0, setup);
    }
  }

  lemma KnownCard(s: Store, row: Row, setup: Setup, pending: Pending)
    ensures row.code in s.products ==> ResolveRow(s, row, setup, pending).productExists
  {
  }

  lemma RememberedTopUp(p: Pending, row: Row, y: Decision)
    requires y.action.TopUp? && y.productExists
    ensures Remember(p, row, y) == p
  {
  }

  /** What a top-up row does in either mode. */
  lemma TopUpStep(w: Walk, row: Row, setup: Setup, apply: bool, fate: ReceiptFate)
    requires !row.skipped && !Halted(w)
    requires var x := ResolveRow(w.store, row, setup, w.pending); x.action.TopUp? && (apply ==> x.batch.Some?)
    requires var x := ResolveRow(w.store, row, setup, w.pending);
      apply && x.batch.Some? && Register(w.store, row, x, setup, fate).Some? ==>
        Register(w.store, row, x, setup, fate).value.1 < |Register(w.store, row, x, setup, fate).value.0.batches|
    ensures var x, next := ResolveRow(w.store, row, setup, w.pending), Step(w, row, setup, apply, fate);
      var r := Register(w.store, row, x, setup, fate);
      && next.actions == w.actions + [TopUp] && !next.crashed
      && next.summary.(rowsWritten := 0) == Count(w.summary, row, x).(rowsWritten := 0)
      && (apply ==> next.pending == w.pending && (Halted(next) <==> r.None?)
                    && (r.Some? ==> next.store == TopUpNotes(r.value.0, r.value.1, row)))
      && (!apply ==> !Halted(next) && next.store == w.store && next.pending == Remember(w.pending, row, x))
  {
    hide ResolveRow, Register, TopUpNotes, Count;
  }

  /** The agreement of memories does not look at counters and actions. */
  lemma CountsAside(a: Walk, d: Walk, a': Walk, d': Walk, s0: Store, setup: Setup)
    requires Agree(a, d, s0, setup)
    requires a'.store == a.store && a'.pending == a.pending && d'.store == d.store && d'.pending == d.pending
    requires !a'.crashed && !Halted(d') && a'.actions == d'.actions && SameCounts(a'.summary, d'.summary)
    ensures Agree(a', d', s0, setup)
  {
    hide Offers, ShapeOf, Tidy;
  }

  lemma ShapesKeepAgreement(a: Walk, t: Store, d: Walk, s0: Store, setup: Setup)
    requires Agree(a, d, s0, setup) && SameShapes(a.store, t) && Tidy(t)
    ensures Agree(a.(store := t), d, s0, setup)
  {
    forall c, m | c in t.products
      ensures Offers(t, t.products[c], setup.warehouse, m, a.pending.conditionIds)
              <==> Offers(a.store, a.store.products[c], setup.warehouse, m, a.pending.conditionIds)
    {
      SameShapesSameOffers(a.store, t, t.products[c], setup.warehouse, m, a.pending.conditionIds);
    }
  }

  /** One more batch, last, of the row's shape, under the row's card, which is new if the code was. */
  predicate Appends(s: Store, t: Store, setup: Setup, row: Row) {
    && |t.batches| == |s.batches| + 1 && t.batches[..|s.batches|] == s.batches
    && t.products.Keys == s.products.Keys + {row.code}
    && (forall c <- s.products :: t.products[c] == s.products[c])
    && (row.code !in s.products ==> t.products[row.code] == s.nextProduct)
    && ShapeOf(t.batches[|s.batches|]) == Shape(t.products[row.code], setup.warehouse, YearMonth(row.expiry))
  }

  lemma NewBatchRegistered(s: Store, row: Row, d: Decision, setup: Setup, fate: ReceiptFate)
    requires Tidy(s) && TidyRow(row) && d.action.NewBatch?
    ensures var r := Register(s, row, d, setup, fate);
      (r.Some? <==> fate.accepts && QtyOf(row) > 0) &&
      (r.Some? ==> Tidy(r.value.0) && r.value.1 == |s.batches| && Appends(s, r.value.0, setup, row))
  {
    var r := Register(s, row, d, setup, fate);
    TidyExpiryStays(row, setup);
    if r.Some? {
      NewBatchWritten(s, row, d, setup, fate);
      var t := r.value.0;
      var b := t.batches[|s.batches|];
      hide Register, IsoExpiry, QtyOf;
      AppendTidy(s, t, b, row.code);
      assert t.batches == s.batches + [b];
    }
    hide IsoExpiry, Canonical, YearMonth, QtyOf, Tidy;
  }

  lemma TidyExpiryStays(row: Row, setup: Setup)
    requires TidyRow(row)
    ensures row.expiry != "" ==> IsoExpiry(row.expiry, setup) == Some(row.expiry)
  {
  }

  lemma NewBatchWritten(s: Store, row: Row, d: Decision, setup: Setup, fate: ReceiptFate)
    requires TidyRow(row) && d.action.NewBatch? && Register(s, row, d, setup, fate).Some?
    ensures var (t, id) := Register(s, row, d, setup, fate).value;
      var product := if row.code in s.products then s.products[row.code] else s.nextProduct;
      && id == |s.batches| && t.products == s.products[row.code := product]
      && t.nextProduct == (if row.code in s.products then s.nextProduct else s.nextProduct + 1)
      && t.batches == s.batches + [Batch(product, setup.warehouse, if row.expiry == "" then None else Some(row.expiry),
                                         fate.clock, QtyOf(row))]
  {
    TidyExpiryStays(row, setup);
    hide IsoExpiry, QtyOf, TidyRow;
    assert row.code in s.products ==> s.products == s.products[row.code := s.products[row.code]];
  }

  lemma AppendTidy(s: Store, t: Store, b: Batch, code: string)
    requires Tidy(s) && t.batches == s.batches + [b] && code in t.products && t.products == s.products[code := t.products[code]]
    requires b.expiry.Some? ==> Canonical(b.expiry.value)
    requires b.product == t.products[code]
    requires if code in s.products then t.products[code] == s.products[code] && t.nextProduct == s.nextProduct
             else t.products[code] == s.nextProduct && t.nextProduct == s.nextProduct + 1
    ensures Tidy(t)
  {
    hide Canonical;
    assert forall x <- t.batches :: x in s.batches || x == b;
  }

  /** Appending one batch makes exactly its own shape newly offered, unless it is excluded. */
  lemma OffersAppended(s: Store, t: Store, product: nat, warehouse: nat, month: Month, excluded: set<nat>, excluded': set<nat>)
    requires |t.batches| == |s.batches| + 1 && t.batches[..|s.batches|] == s.batches
    requires excluded' == excluded || excluded' == excluded + {|s.batches|}
    requires |s.batches| !in excluded
    ensures Offers(t, product, warehouse, month, excluded') <==>
      Offers(s, product, warehouse, month, excluded)
      || (|s.batches| !in excluded' && ShapeOf(t.batches[|s.batches|]) == Shape(product, warehouse, month))
  {
    assert forall id | 0 <= id < |s.batches| :: t.batches[id] == s.batches[id];
    if Offers(s, product, warehouse, month, excluded) {
      var id :| 0 <= id < |s.batches| && id !in excluded && ShapeOf(s.batches[id]) == Shape(product, warehouse, month);
      assert id !in excluded' && ShapeOf(t.batches[id]) == Shape(product, warehouse, month);
    }
  }

  lemma NewBatchAgrees(a: Walk, d: Walk, s0: Store, setup: Setup, row: Row, fate: ReceiptFate)
    requires Tidy(s0) && TidyRow(row) && Agree(a, d, s0, setup) && !row.skipped && !Halted(a)
    requires ResolveRow(a.store, row, setup, a.pending).action.NewBatch?
    ensures var a', d' := Step(a, row, setup, true, fate), Step(d, row, setup, false, fate);
      && !a'.crashed && !Halted(d') && a'.actions == d'.actions && SameCounts(a'.summary, d'.summary)
      && (!Halted(a') ==> Agree(a', d', s0, setup))
      && (Halted(a') <==> !fate.accepts || QtyOf(row) == 0)
  {
    hide Agree, Tidy, TidyRow, Appends, Register, ResolveRow, Step, Count, Opened, Predicted, QtyOf;
    AgreeMeans(a, d, s0, setup);
    SameDecision(a, d, s0, setup, row);
    var x, y := ResolveRow(a.store, row, setup, a.pending), ResolveRow(s0, row, setup, d.pending);
    NewBatchRegistered(a.store, row, x, setup, fate);
    NewBatchStep(a, row, setup, fate);
    PredictedDryStep(d, row, setup, fate);
    SameCounted(a.summary, d.summary, row, x, y);
    var r := Register(a.store, row, x, setup, fate);
    if r.Some? {
      AppendKeepsAgreement(a, r.value.0, d, s0, setup, row);
      CountsKeepAgreement(a.(store := r.value.0, pending := Opened(a, row)), d.(pending := Predicted(d, row)), s0, setup, row, x, y);
      AgreeMeans(Step(a, row, setup, true, fate), Step(d, row, setup, false, fate), s0, setup);
    }
  }

  lemma AgreeMeans(a: Walk, d: Walk, s0: Store, setup: Setup)
    requires Agree(a, d, s0, setup)
    ensures Tidy(a.store) && d.store == s0 && !a.crashed && !Halted(d)
    ensures a.actions == d.actions && SameCounts(a.summary, d.summary)
  {
  }

  lemma SameCounted(m: Summary, k: Summary, row: Row, x: Decision, y: Decision)
    requires SameCounts(m, k)
    requires x.action == y.action && x.productExists == y.productExists && x.cost == y.cost && x.sale == y.sale
    ensures var c := Count(m, row, x);
      SameCounts(c, Count(k, row, y)) && SameCounts(c.(rowsWritten := c.rowsWritten + 1), Count(k, row, y))
  {
    hide QtyOf;
  }

  lemma NewBatchStep(a: Walk, row: Row, setup: Setup, fate: ReceiptFate)
    requires !row.skipped && !Halted(a) && ResolveRow(a.store, row, setup, a.pending).action.NewBatch?
    ensures var x := ResolveRow(a.store, row, setup, a.pending);
      var r := Register(a.store, row, x, setup, fate);
      var counted := Count(a.summary, row, x);
      Step(a, row, setup, true, fate) ==
        if r.None? then a.(summary := counted, actions := a.actions + [NewBatch], stoppedAt := Some(row.lineNo))
        else a.(store := r.value.0, pending := Opened(a, row), actions := a.actions + [NewBatch],
                summary := counted.(rowsWritten := counted.rowsWritten + 1))
  {
  }

  lemma PredictedDryStep(d: Walk, row: Row, setup: Setup, fate: ReceiptFate)
    requires !row.skipped && !Halted(d) && ResolveRow(d.store, row, setup, d.pending).action.NewBatch?
    ensures Step(d, row, setup, false, fate)
            == d.(summary := Count(d.summary, row, ResolveRow(d.store, row, setup, d.pending)),
                  actions := d.actions + [NewBatch], pending := Predicted(d, row))
  {
    hide Count;
  }

  lemma CountsKeepAgreement(a: Walk, d: Walk, s0: Store, setup: Setup, row: Row, x: Decision, y: Decision)
    requires Agree(a, d, s0, setup)
    requires x.action == y.action && x.productExists == y.productExists && x.cost == y.cost && x.sale == y.sale
    ensures var m := Count(a.summary, row, x);
      Agree(a.(summary := m.(rowsWritten := m.rowsWritten + 1), actions := a.actions + [x.action]),
            d.(summary := Count(d.summary, row, y), actions := d.actions + [y.action]), s0, setup)
  {
  }

  function Opened(a: Walk, row: Row): Pending {
    if row.condition == "" then a.pending
    else a.pending.(conditionBatches := a.pending.conditionBatches[KeyOf(row) := |a.store.batches|],
                    conditionIds := a.pending.conditionIds + {|a.store.batches|})
  }

  function Predicted(d: Walk, row: Row): Pending {
    var exists' := row.code in d.store.products || row.code in d.pending.newCodes;
    d.pending.(newCodes := if exists' then d.pending.newCodes else d.pending.newCodes + {row.code},
               newBatches := d.pending.newBatches + {KeyOf(row)})
  }

  lemma AppendKeepsAgreement(a: Walk, t: Store, d: Walk, s0: Store, setup: Setup, row: Row)
    requires Agree(a, d, s0, setup) && Tidy(t) && Appends(a.store, t, setup, row)
    ensures Agree(a.(store := t, pending := Opened(a, row)), d.(pending := Predicted(d, row)), s0, setup)
  {
    var a', d' := a.(store := t, pending := Opened(a, row)), d.(pending := Predicted(d, row));
    AppendKeepsKeys(a, t, d, s0, setup, row);
    AppendKeepsConditionBook(a, t, d, s0, setup, row);
    forall c, m | c in t.products
      ensures Offers(t, t.products[c], setup.warehouse, m, a'.pending.conditionIds) <==>
        (c in s0.products && Offers(s0, s0.products[c], setup.warehouse, m, {}))
        || Key(c, m, "") in d'.pending.newBatches
    {
      AppendKeepsOrdinary(a, t, d, s0, setup, row, c, m);
    }
    assert OrdinaryBook(a', d', s0, setup);
  }

  lemma AppendKeepsKeys(a: Walk, t: Store, d: Walk, s0: Store, setup: Setup, row: Row)
    requires KeysAgree(a, d, s0) && Tidy(t) && Appends(a.store, t, setup, row)
    ensures KeysAgree(a.(store := t, pending := Opened(a, row)), d.(pending := Predicted(d, row)), s0)
  {
  }

  lemma AppendKeepsConditionBook(a: Walk, t: Store, d: Walk, s0: Store, setup: Setup, row: Row)
    requires KeysAgree(a, d, s0) && ConditionBook(a, s0, setup) && Appends(a.store, t, setup, row)
    ensures ConditionBook(a.(store := t, pending := Opened(a, row)), s0, setup)
  {
    var a' := a.(store := t, pending := Opened(a, row));
    hide ShapeOf, Tidy;
    assert forall id | 0 <= id < |a.store.batches| :: t.batches[id] == t.batches[..|a.store.batches|][id];
    forall k | k in a'.pending.conditionBatches
      ensures var id := a'.pending.conditionBatches[k];
        && |s0.batches| <= id < |t.batches| && id in a'.pending.conditionIds
        && k.code in t.products
        && ShapeOf(t.batches[id]) == Shape(t.products[k.code], setup.warehouse, k.month)
    {
      if row.condition == "" || k != KeyOf(row) {
        assert a'.pending.conditionBatches[k] == a.pending.conditionBatches[k];
      }
    }
  }

  lemma AppendKeepsOrdinary(a: Walk, t: Store, d: Walk, s0: Store, setup: Setup, row: Row, c: string, m: Month)
    requires Agree(a, d, s0, setup) && Tidy(t) && Appends(a.store, t, setup, row) && c in t.products
    ensures Offers(t, t.products[c], setup.warehouse, m, Opened(a, row).conditionIds) <==>
      (c in s0.products && Offers(s0, s0.products[c], setup.warehouse, m, {}))
      || Key(c, m, "") in Predicted(d, row).newBatches
  {
    var s := a.store;
    OffersAppended(s, t, t.products[c], setup.warehouse, m, a.pending.conditionIds, Opened(a, row).conditionIds);
    assert forall id | 0 <= id < |s.batches| :: s.batches[id] in s.batches;
    hide Offers, MonthOf;
    if c !in s.products {
      assert c == row.code && t.products[c] == s.nextProduct;
      NothingOffered(s, s.nextProduct, setup.warehouse, m, a.pending.conditionIds);
    } else {
      assert t.products[c] == s.products[c];
      assert t.products[row.code] == t.products[c] ==> row.code == c;
    }
  }

  lemma NothingOffered(s: Store, product: nat, warehouse: nat, month: Month, ids: set<nat>)
    requires forall id | 0 <= id < |s.batches| :: s.batches[id].product < product
    ensures !Offers(s, product, warehouse, month, ids)
  {
  }

  lemma StepAgrees(a: Walk, d: Walk, s0: Store, setup: Setup, row: Row, fate: ReceiptFate)
    requires Tidy(s0) && TidyRow(row) && Agree(a, d, s0, setup) && !Halted(a)
    ensures var a', d' := Step(a, row, setup, true, fate), Step(d, row, setup, false, fate);
      && !a'.crashed && !Halted(d') && a'.actions == d'.actions && SameCounts(a'.summary, d'.summary)
      && (!Halted(a') ==> Agree(a', d', s0, setup))
      && (Halted(a') <==> !row.skipped && (!fate.accepts || QtyOf(row) == 0))
  {
    if !row.skipped {
      if ResolveRow(a.store, row, setup, a.pending).action.TopUp? {
        TopUpAgrees(a, d, s0, setup, row, fate);
      } else {
        NewBatchAgrees(a, d, s0, setup, row, fate);
      }
    }
  }

  /* ---------- whole runs ---------- */

  ghost predicate TidyInput(s0: Store, rows: seq<Row>) {
    Tidy(s0) && forall row <- rows :: TidyRow(row)
  }

  predicate Succeeds(row: Row, fate: ReceiptFate) {
    row.skipped || (fate.accepts && QtyOf(row) > 0)
  }

  /** What is known of the two runs after the same rows, halted or not. */
  ghost predicate Predicts(a: Walk, d: Walk, s0: Store, setup: Setup) {
    && !a.crashed && !Halted(d) && a.actions <= d.actions
    && (!Halted(a) ==> Agree(a, d, s0, setup))
  }

  lemma StepPredicts(a: Walk, d: Walk, s0: Store, setup: Setup, row: Row, fate: ReceiptFate)
    requires Tidy(s0) && TidyRow(row) && Predicts(a, d, s0, setup)
    ensures var a', d' := Step(a, row, setup, true, fate), Step(d, row, setup, false, fate);
      && Predicts(a', d', s0, setup)
      && (!Halted(a') <==> !Halted(a) && Succeeds(row, fate))
  {
    if Halted(a) {
      DryStep(d, row, setup, fate);
    } else {
      StepAgrees(a, d, s0, setup, row, fate);
    }
  }

  lemma BeginPredicts(s0: Store, setup: Setup)
    requires Tidy(s0)
    ensures Predicts(Begin(s0), Begin(s0), s0, setup) && !Halted(Begin(s0))
  {
    assert OrdinaryBook(Begin(s0), Begin(s0), s0, setup);
    assert ConditionBook(Begin(s0), s0, setup);
  }

  lemma RunStep(s0: Store, rows: seq<Row>, fates: seq<ReceiptFate>, setup: Setup, apply: bool, n: nat)
    requires 0 < n <= |rows| == |fates|
    ensures Run(s0, rows, fates, setup, apply, n)
            == Step(Run(s0, rows, fates, setup, apply, n - 1), rows[n - 1], setup, apply, fates[n - 1])
  {
  }

  lemma {:induction false} RunsPredict(s0: Store, rows: seq<Row>, fates: seq<ReceiptFate>, setup: Setup, n: nat)
    requires TidyInput(s0, rows) && n <= |rows| == |fates|
    ensures var a, d := Run(s0, rows, fates, setup, true, n), Run(s0, rows, fates, setup, false, n);
      Predicts(a, d, s0, setup) && (!Halted(a) <==> forall i | 0 <= i < n :: Succeeds(rows[i], fates[i]))
  {
    hide Step;
    if n == 0 {
      BeginPredicts(s0, setup);
    } else {
      RunsPredict(s0, rows, fates, setup, n - 1);
      assert rows[n - 1] in rows;
      var a, d := Run(s0, rows, fates, setup, true, n - 1), Run(s0, rows, fates, setup, false, n - 1);
      StepPredicts(a, d, s0, setup, rows[n - 1], fates[n - 1]);
      RunStep(s0, rows, fates, setup, true, n);
      RunStep(s0, rows, fates, setup, false, n);
    }
  }

  /** The dry run predicts --apply: the same action for every row both modes reach, and, when every
      receipt succeeds, the same counts. The internal error of --apply is unreachable. */
  lemma DryRunPredictsApply(s0: Store, rows: seq<Row>, fates: seq<ReceiptFate>, setup: Setup, n: nat)
    requires TidyInput(s0, rows) && n <= |rows| == |fates|
    ensures var a, d := Run(s0, rows, fates, setup, true, n), Run(s0, rows, fates, setup, false, n);
      && !a.crashed && !Halted(d)
      && a.actions <= d.actions
      && (!Halted(a) ==> a.actions == d.actions && SameCounts(a.summary, d.summary))
      && (!Halted(a) <==> forall i | 0 <= i < n :: Succeeds(rows[i], fates[i]))
  {
    RunsPredict(s0, rows, fates, setup, n);
  }

  lemma DryStep(d: Walk, row: Row, setup: Setup, fate: ReceiptFate)
    requires !Halted(d)
    ensures var d' := Step(d, row, setup, false, fate); !Halted(d') && d.actions <= d'.actions
  {
  }

  /** A dry run writes nothing. */
  lemma {:induction false} DryRunWritesNothing(s0: Store, rows: seq<Row>, fates: seq<ReceiptFate>, setup: Setup, n: nat)
    requires n <= |rows| == |fates|
    ensures Run(s0, rows, fates, setup, false, n).store == s0
  {
    if n > 0 { DryRunWritesNothing(s0, rows, fates, setup, n - 1); }
  }

  /** A row that cannot use any batch the warehouse held before the run. */
  ghost predicate NeedsBatch(s0: Store, row: Row, setup: Setup) {
    !row.skipped &&
    (row.condition != "" || row.code !in s0.products
     || !Offers(s0, s0.products[row.code], setup.warehouse, YearMonth(row.expiry), {}))
  }

  ghost function NeededKeys(s0: Store, rows: seq<Row>, setup: Setup, n: nat): set<Key>
    requires n <= |rows|
  {
    set i | 0 <= i < n && NeedsBatch(s0, rows[i], setup) :: KeyOf(rows[i])
  }

  lemma {:induction false} PredictedKeys(s0: Store, rows: seq<Row>, fates: seq<ReceiptFate>, setup: Setup, n: nat)
    requires TidyInput(s0, rows) && n <= |rows| == |fates|
    ensures var d := Run(s0, rows, fates, setup, false, n);
      && d.pending.newBatches == NeededKeys(s0, rows, setup, n)
      && d.summary.newBatches == |d.pending.newBatches|
      && d.store == s0 && d.pending.conditionBatches == map[] && d.pending.conditionIds == {} && !Halted(d)
  {
    NeededKeysStart(s0, rows, setup);
    hide NeededKeys, NeedsBatch, Tidy;
    if n > 0 {
      PredictedKeys(s0, rows, fates, setup, n - 1);
      assert rows[n - 1] in rows;
      NeededKeysStep(s0, rows, setup, n);
      OrdinaryKeysNeed(s0, rows, setup, n - 1, rows[n - 1]);
      hide Step, TidyRow;
      PredictedStep(s0, Run(s0, rows, fates, setup, false, n - 1), rows[n - 1], fates[n - 1], setup);
    }
  }

  lemma NeededKeysStart(s0: Store, rows: seq<Row>, setup: Setup)
    ensures NeededKeys(s0, rows, setup, 0) == {}
  {
  }

  /** One dry-run row: it adds its key exactly if it needs a batch. */
  lemma PredictedStep(s0: Store, d: Walk, row: Row, fate: ReceiptFate, setup: Setup)
    requires Tidy(s0) && TidyRow(row) && !Halted(d)
    requires d.store == s0 && d.pending.conditionBatches == map[] && d.pending.conditionIds == {}
    requires d.summary.newBatches == |d.pending.newBatches|
    requires !row.skipped && KeyOf(row) in d.pending.newBatches ==> NeedsBatch(s0, row, setup)
    ensures var e := Step(d, row, setup, false, fate);
      && e.pending.newBatches == d.pending.newBatches + (if NeedsBatch(s0, row, setup) then {KeyOf(row)} else {})
      && e.summary.newBatches == |e.pending.newBatches|
      && e.store == s0 && e.pending.conditionBatches == map[] && e.pending.conditionIds == {} && !Halted(e)
  {
    if row.code in s0.products {
      EarliestIsOffer(s0, row, s0.products[row.code], setup.warehouse, {});
    }
    hide Earliest, Offers, Tidy, TidyRow, QtyOf, YearMonth;
  }

  lemma NeededKeysStep(s0: Store, rows: seq<Row>, setup: Setup, n: nat)
    requires 0 < n <= |rows|
    ensures NeededKeys(s0, rows, setup, n) ==
      NeededKeys(s0, rows, setup, n - 1) + (if NeedsBatch(s0, rows[n - 1], setup) then {KeyOf(rows[n - 1])} else {})
  {
  }

  /** An ordinary key is needed by one row exactly if every row with that key needs it. */
  lemma OrdinaryKeysNeed(s0: Store, rows: seq<Row>, setup: Setup, n: nat, row: Row)
    requires n <= |rows|
    ensures !row.skipped && KeyOf(row) in NeededKeys(s0, rows, setup, n) ==> NeedsBatch(s0, row, setup)
  {
  }

  /** Under --apply the batches created are one per needed key, and they are all there is to it. */
  lemma NewBatchesCounted(s0: Store, rows: seq<Row>, fates: seq<ReceiptFate>, setup: Setup)
    requires TidyInput(s0, rows) && |rows| == |fates|
    requires forall i | 0 <= i < |rows| :: Succeeds(rows[i], fates[i])
    ensures var a := Run(s0, rows, fates, setup, true, |rows|);
      && a.summary.newBatches == |NeededKeys(s0, rows, setup, |rows|)|
      && |a.store.batches| == |s0.batches| + a.summary.newBatches
      && a.summary.topups + a.summary.newBatches == a.summary.toReceipt == a.summary.rowsWritten
  {
    DryRunPredictsApply(s0, rows, fates, setup, |rows|);
    PredictedKeys(s0, rows, fates, setup, |rows|);
    StoreGrows(s0, rows, fates, setup, |rows|);
  }

  lemma StepGrows(w: Walk, row: Row, setup: Setup, fate: ReceiptFate)
    ensures var v := Step(w, row, setup, true, fate);
      !Halted(v) ==>
        && |v.store.batches| - |w.store.batches| == v.summary.newBatches - w.summary.newBatches
        && v.summary.topups + v.summary.newBatches - v.summary.toReceipt
           == w.summary.topups + w.summary.newBatches - w.summary.toReceipt
        && v.summary.rowsWritten - v.summary.toReceipt == w.summary.rowsWritten - w.summary.toReceipt
        && Stock(v.store.batches) - Stock(w.store.batches) == v.summary.qtyTotal - w.summary.qtyTotal
  {
    var v := Step(w, row, setup, true, fate);
    if !Halted(v) && !row.skipped {
      var d := ResolveRow(w.store, row, setup, w.pending);
      var (t, id) := Register(w.store, row, d, setup, fate).value;
      if d.action.NewBatch? {
        assert t.batches[..|w.store.batches|] == w.store.batches;
      } else {
        StockUpdated(w.store.batches, id, t.batches[id]);
        StockUpdated(t.batches, id, v.store.batches[id]);
        assert v.store.batches == t.batches[id := v.store.batches[id]];
      }
    }
  }

  lemma {:induction false} StoreGrows(s0: Store, rows: seq<Row>, fates: seq<ReceiptFate>, setup: Setup, n: nat)
    requires n <= |rows| == |fates|
    ensures var a := Run(s0, rows, fates, setup, true, n);
      !Halted(a) ==>
        && |a.store.batches| == |s0.batches| + a.summary.newBatches
        && a.summary.topups + a.summary.newBatches == a.summary.toReceipt == a.summary.rowsWritten
        && Stock(a.store.batches) == Stock(s0.batches) + a.summary.qtyTotal
  {
    if n > 0 {
      StoreGrows(s0, rows, fates, setup, n - 1);
      StepGrows(Run(s0, rows, fates, setup, true, n - 1), rows[n - 1], setup, fates[n - 1]);
    }
  }

  /** The pieces lying in all batches together. */
  function Stock(batches: seq<Batch>): int {
    if batches == [] then 0 else Stock(batches[..|batches| - 1]) + batches[|batches| - 1].quantity
  }

  lemma {:induction false} StockUpdated(batches: seq<Batch>, id: nat, b: Batch)
    requires id < |batches|
    ensures Stock(batches[id := b]) == Stock(batches) - batches[id].quantity + b.quantity
  {
    var n := |batches| - 1;
    if id < n {
      assert batches[id := b][..n] == batches[..n][id := b];
      StockUpdated(batches[..n], id, b);
    } else {
      assert batches[id := b][..n] == batches[..n];
    }
  }

  /** Rule 2.2: a condition row never tops up a batch older than the run, an ordinary row never a
      condition batch of the run, and then the earliest batch of its month. */
  lemma TopUpTargets(s0: Store, rows: seq<Row>, fates: seq<ReceiptFate>, setup: Setup, n: nat)
    requires TidyInput(s0, rows) && n < |rows| == |fates| && !rows[n].skipped
    requires !Halted(Run(s0, rows, fates, setup, true, n))
    ensures var a, row := Run(s0, rows, fates, setup, true, n), rows[n];
      var d := ResolveRow(a.store, row, setup, a.pending);
      d.action.TopUp? ==>
        && d.batch.Some? && d.batch.value < |a.store.batches| && row.code in a.store.products
        && (row.condition != "" ==> d.batch.value >= |s0.batches| && d.batch.value in a.pending.conditionIds)
        && (row.condition == "" ==> d.batch.value !in a.pending.conditionIds)
        && (row.condition == "" ==>
              forall id | 0 <= id < |a.store.batches|
                && Candidate(a.store, id, a.store.products[row.code], setup.warehouse, YearMonth(row.expiry), a.pending.conditionIds) ::
                !Earlier(a.store.batches[id], a.store.batches[d.batch.value]))
  {
    RunsPredict(s0, rows, fates, setup, n);
    var a, d, row := Run(s0, rows, fates, setup, true, n), Run(s0, rows, fates, setup, false, n), rows[n];
    assert row in rows;
    SameDecision(a, d, s0, setup, row);
    if row.condition == "" && row.code in a.store.products {
      forall id | 0 <= id < |a.store.batches|
        && Candidate(a.store, id, a.store.products[row.code], setup.warehouse, YearMonth(row.expiry), a.pending.conditionIds)
        ensures var best := Earliest(a.store, a.store.products[row.code], setup.warehouse, YearMonth(row.expiry), a.pending.conditionIds, |a.store.batches|);
          best.Some? && !Earlier(a.store.batches[id], a.store.batches[best.value])
      {
        EarliestIsFirst(a.store, a.store.products[row.code], setup.warehouse, YearMonth(row.expiry), a.pending.conditionIds, |a.store.batches|, id);
      }
    }
  }

  /** Canonical expiries are needed: for the basic form «20260131» the dry run predicts one batch and
      a top-up where --apply creates two batches. */
  lemma BasicFormDiverges()
    ensures
      var s0 := Store(map[], 0, []);
      var row := Row(2, "33155", "1", "20260131", "", "", false);
      var fate := ReceiptFate(true, 0);
      && Run(s0, [row, row], [fate, fate], Setup(0, true, map[], map[]), false, 2).actions == [NewBatch, TopUp]
      && Run(s0, [row, row], [fate, fate], Setup(0, true, map[], map[]), true, 2).actions == [NewBatch, NewBatch]
  {
    var s0 := Store(map[], 0, []);
    var row := Row(2, "33155", "1", "20260131", "", "", false);
    var fate, setup := ReceiptFate(true, 0), Setup(0, true, map[], map[]);
    var rows, fates := [row, row], [fate, fate];
    var d1, a1 := Step(Begin(s0), row, setup, false, fate), Step(Begin(s0), row, setup, true, fate);
    assert Run(s0, rows, fates, setup, false, 0) == Begin(s0) == Run(s0, rows, fates, setup, true, 0);
    assert Run(s0, rows, fates, setup, false, 1) == d1 && Run(s0, rows, fates, setup, true, 1) == a1;
    FirstBasicRow(s0, row, setup, fate);
    var b := a1.store.batches[0];
    assert !InMonth(b, YearMonth(row.expiry)) by {
      assert "2026013" + "-%" == "2026013-" + "%";
      LikePrefix("2026-01-31", "2026013-");
      assert "2026-01-31"[4] != "2026013-"[4];
    }
    assert !Candidate(a1.store, 0, 0, 0, YearMonth(row.expiry), {});
    assert ResolveRow(a1.store, row, setup, a1.pending).action == NewBatch;
  }

  lemma FirstBasicRow(s0: Store, row: Row, setup: Setup, fate: ReceiptFate)
    requires s0 == Store(map[], 0, []) && row == Row(2, "33155", "1", "20260131", "", "", false)
    requires setup == Setup(0, true, map[], map[]) && fate == ReceiptFate(true, 0)
    ensures var d1, a1 := Step(Begin(s0), row, setup, false, fate), Step(Begin(s0), row, setup, true, fate);
      && d1.actions == [NewBatch] && !Halted(d1) && d1.store == s0 && KeyOf(row) in d1.pending.newBatches
      && a1.actions == [NewBatch] && !Halted(a1) && a1.pending == NOTHING_PENDING
      && a1.store == Store(map["33155" := 0], 1, [Batch(0, 0, Some("2026-01-31"), 0, 1)])
      && YearMonth(row.expiry) == Some("2026013")
      && QtyOf(row) == 1
  {
    assert row.qty[..0] == "" && Number("") == 0;
    assert QtyOf(row) == 1;
    assert row.expiry[..4] + "-" + row.expiry[4..6] + "-" + row.expiry[6..] == "2026-01-31";
    assert IsoExpiry(row.expiry, setup) == Some("2026-01-31");
    assert row.expiry[..7] == "2026013";
  }
}
