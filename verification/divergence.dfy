/** When the dry run of the sheet import fails to predict --apply: the exact condition, for every sheet
    whose expiries are dates in any ISO form. Each run's decisions are characterised on their own, by the
    sheet and the store it started from, and the two characterisations are compared. */
module Divergence {
  import opened Base
  import opened Text
  import opened Receipt
  import opened DryRun

  /* ---------- expiries that are dates, but not written yyyy-mm-dd ---------- */

  predicate WeekForm(e: string) {
    && |e| >= 7 && (e[4] == 'W' || (e[4] == '-' && e[5] == 'W'))
    && forall i | 0 <= i < 7 :: IsDigit(e[i]) || e[i] == '-' || e[i] == 'W'
  }

  /** What date.fromisoformat and isoformat guarantee of the week forms. */
  ghost predicate GoodDates(setup: Setup) {
    forall e <- setup.weekDates :: WeekForm(e) && Canonical(setup.weekDates[e])
  }

  predicate Dated(row: Row, setup: Setup) {
    row.expiry == "" || IsoExpiry(row.expiry, setup).Some?
  }

  predicate Loose(row: Row) {
    row.expiry != "" && !Canonical(row.expiry)
  }

  predicate Ordinary(row: Row) {
    !row.skipped && row.condition == ""
  }

  /** The month of the batch that the receipt of this row creates. */
  function ShelfMonth(row: Row, setup: Setup): Month
    requires Dated(row, setup)
  {
    if row.expiry == "" then None else YearMonth(IsoExpiry(row.expiry, setup).value)
  }

  lemma ShelfMonthOfTidy(row: Row, setup: Setup)
    requires TidyRow(row)
    ensures Dated(row, setup) && ShelfMonth(row, setup) == YearMonth(row.expiry)
  {
  }

  lemma IsoExpiryIsCanonical(row: Row, setup: Setup)
    requires GoodDates(setup) && Dated(row, setup) && row.expiry != ""
    ensures Canonical(IsoExpiry(row.expiry, setup).value)
  {
    var e := row.expiry;
    if !Canonical(e) && |e| == 8 && AllDigits(e) {
      var c := e[..4] + "-" + e[4..6] + "-" + e[6..];
      assert c[4] == '-' && c[7] == '-';
      assert forall i | 0 <= i < 4 :: c[i] == e[i];
      assert c[5] == e[4] && c[6] == e[5] && c[8] == e[6] && c[9] == e[7];
    }
  }

  /** A pattern character that is no wildcard stands at its place in every match. */
  lemma {:induction false} LikeAt(t: string, p: string, k: nat)
    requires k < |p| && Like(t, p) && forall i | 0 <= i <= k :: p[i] != '%' && p[i] != '_'
    ensures k < |t| && Fold(t[k]) == Fold(p[k])
  {
    if k > 0 {
      LikeAt(t[1..], p[1..], k - 1);
    }
  }

  /** A loose expiry's month text is no canonical month, and the month query never finds a canonical date by it. */
  lemma LooseMonth(row: Row, setup: Setup, e: string)
    requires GoodDates(setup) && Dated(row, setup) && Loose(row) && Canonical(e)
    ensures YearMonth(row.expiry) != YearMonth(e)
    ensures !Like(e, YearMonth(row.expiry).value + "-%")
  {
    var x, m := row.expiry, YearMonth(row.expiry).value;
    var p := m + "-%";
    assert |m| == 7 && forall i | 0 <= i < 7 :: m[i] == x[i] && p[i] == x[i];
    assert forall i | 0 <= i < 7 :: p[i] != '%' && p[i] != '_';
    if Like(e, p) {
      LikeAt(e, p, 4);
      LikeAt(e, p, 5);
    }
    assert e[..7][4] == e[4] && e[..7][5] == e[5];
  }

  /* ---------- what each run decides ---------- */

  /** The store offered a batch for an ordinary row with this key before the run. */
  ghost predicate Known(s0: Store, k: Key, setup: Setup) {
    k.code in s0.products && Offers(s0, s0.products[k.code], setup.warehouse, k.month, {})
  }

  ghost predicate SeenKey(rows: seq<Row>, n: nat, k: Key)
    requires n <= |rows|
  {
    exists i | 0 <= i < n :: !rows[i].skipped && KeyOf(rows[i]) == k
  }

  ghost predicate SeenCode(rows: seq<Row>, n: nat, c: string)
    requires n <= |rows|
  {
    exists i | 0 <= i < n :: !rows[i].skipped && rows[i].code == c
  }

  ghost predicate AllDated(rows: seq<Row>, setup: Setup) {
    forall i | 0 <= i < |rows| :: Dated(rows[i], setup)
  }

  /** An earlier ordinary row of this code put, or found, a batch on the shelf for this month. */
  ghost predicate Shelved(rows: seq<Row>, setup: Setup, n: nat, code: string, month: Month)
    requires n <= |rows| && AllDated(rows, setup)
  {
    exists i | 0 <= i < n :: Ordinary(rows[i]) && rows[i].code == code && ShelfMonth(rows[i], setup) == month
  }

  /** Row `j` of a dry run: its memory goes by the month as it is written. */
  ghost predicate DryTopsUp(s0: Store, rows: seq<Row>, setup: Setup, j: nat)
    requires j < |rows|
  {
    (rows[j].condition == "" && Known(s0, KeyOf(rows[j]), setup)) || SeenKey(rows, j, KeyOf(rows[j]))
  }

  /** Row `j` under --apply: the database goes by the month of the stored date. */
  ghost predicate ApplyTopsUp(s0: Store, rows: seq<Row>, setup: Setup, j: nat)
    requires j < |rows| && AllDated(rows, setup)
  {
    if rows[j].condition != "" then SeenKey(rows, j, KeyOf(rows[j]))
    else
      && !Loose(rows[j])
      && (Known(s0, KeyOf(rows[j]), setup) || Shelved(rows, setup, j, rows[j].code, YearMonth(rows[j].expiry)))
  }

  ghost predicate DatedInput(s0: Store, rows: seq<Row>, fates: seq<ReceiptFate>, setup: Setup) {
    && Tidy(s0) && GoodDates(setup) && |rows| == |fates| && AllDated(rows, setup)
    && forall i | 0 <= i < |rows| :: Succeeds(rows[i], fates[i])
  }

  /* ---------- the month query ---------- */

  /** Every batch that is open to ordinary rows holds a canonical date or none. */
  ghost predicate CanonicalShelf(s: Store, excluded: set<nat>) {
    forall id | 0 <= id < |s.batches| :: id !in excluded && s.batches[id].expiry.Some? ==> Canonical(s.batches[id].expiry.value)
  }

  /** The month query finds a batch exactly if one is offered for the month as written; for a loose
      expiry it finds none. */
  lemma QueryIsOffer(s: Store, row: Row, product: nat, setup: Setup, excluded: set<nat>)
    requires CanonicalShelf(s, excluded) && GoodDates(setup) && Dated(row, setup)
    ensures var month := YearMonth(row.expiry);
      && (Earliest(s, product, setup.warehouse, month, excluded, |s.batches|).Some?
          <==> Offers(s, product, setup.warehouse, month, excluded))
      && (Loose(row) ==> !Offers(s, product, setup.warehouse, month, excluded))
  {
    var month := YearMonth(row.expiry);
    forall id | 0 <= id < |s.batches| && id !in excluded
      ensures InMonth(s.batches[id], month) <==> MonthOf(s.batches[id]) == month
      ensures Loose(row) ==> MonthOf(s.batches[id]) != month
    {
      QueryOfOne(s.batches[id], row, setup);
    }
    hide InMonth, MonthOf, Loose, Dated;
    assert forall id | 0 <= id < |s.batches| ::
        Candidate(s, id, product, setup.warehouse, month, excluded) <==>
        id !in excluded && ShapeOf(s.batches[id]) == Shape(product, setup.warehouse, month);
  }

  lemma QueryOfOne(b: Batch, row: Row, setup: Setup)
    requires GoodDates(setup) && Dated(row, setup) && (b.expiry.Some? ==> Canonical(b.expiry.value))
    ensures InMonth(b, YearMonth(row.expiry)) <==> MonthOf(b) == YearMonth(row.expiry)
    ensures Loose(row) ==> MonthOf(b) != YearMonth(row.expiry)
  {
    if Loose(row) {
      if b.expiry.Some? { LooseMonth(row, setup, b.expiry.value); }
    } else {
      InMonthIsMonthOf(b, row);
    }
  }

  /* ---------- the dry run ---------- */

  ghost predicate DryBook(d: Walk, s0: Store, rows: seq<Row>, setup: Setup, n: nat)
    requires n <= |rows|
  {
    && d.store == s0 && !Halted(d) && d.pending.conditionBatches == map[] && d.pending.conditionIds == {}
    && (forall k :: k in d.pending.newBatches <==> SeenKey(rows, n, k) && (k.condition != "" || !Known(s0, k, setup)))
    && (forall c :: c in d.pending.newCodes <==> c !in s0.products && SeenCode(rows, n, c))
  }

  lemma TidyShelf(s0: Store)
    requires Tidy(s0)
    ensures CanonicalShelf(s0, {})
  {
  }

  lemma DryDecision(d: Walk, s0: Store, rows: seq<Row>, setup: Setup, n: nat)
    requires n < |rows| && DryBook(d, s0, rows, setup, n) && Tidy(s0) && GoodDates(setup) && AllDated(rows, setup)
    ensures var x := ResolveRow(d.store, rows[n], setup, d.pending);
      && (x.action.TopUp? <==> DryTopsUp(s0, rows, setup, n))
      && (x.productExists <==> rows[n].code in s0.products || SeenCode(rows, n, rows[n].code))
  {
    var row := rows[n];
    TidyShelf(s0);
    if row.code in s0.products {
      QueryIsOffer(s0, row, s0.products[row.code], setup, {});
    }
    hide Earliest, Offers, SeenKey, SeenCode, Loose, Dated, Tidy;
  }

  lemma SeenNext(rows: seq<Row>, n: nat, k: Key, c: string)
    requires n < |rows|
    ensures SeenKey(rows, n + 1, k) <==> SeenKey(rows, n, k) || (!rows[n].skipped && KeyOf(rows[n]) == k)
    ensures SeenCode(rows, n + 1, c) <==> SeenCode(rows, n, c) || (!rows[n].skipped && rows[n].code == c)
  {
  }

  lemma DryBookNext(d: Walk, s0: Store, rows: seq<Row>, setup: Setup, n: nat, fate: ReceiptFate)
    requires n < |rows| && DryBook(d, s0, rows, setup, n) && Tidy(s0) && GoodDates(setup) && AllDated(rows, setup)
    ensures DryBook(Step(d, rows[n], setup, false, fate), s0, rows, setup, n + 1)
  {
    var row, d' := rows[n], Step(d, rows[n], setup, false, fate);
    DryDecision(d, s0, rows, setup, n);
    forall k, c
      ensures SeenKey(rows, n + 1, k) <==> SeenKey(rows, n, k) || (!row.skipped && KeyOf(row) == k)
      ensures SeenCode(rows, n + 1, c) <==> SeenCode(rows, n, c) || (!row.skipped && row.code == c)
    {
      SeenNext(rows, n, k, c);
    }
    hide SeenKey, SeenCode, Known, ResolveRow, Count, Tidy, GoodDates, AllDated;
  }

  /* ---------- the run under --apply ---------- */

  /** The cards: those of the store, and one for every new code seen. */
  ghost predicate CardBook(s: Store, s0: Store, rows: seq<Row>, n: nat)
    requires n <= |rows|
  {
    && (forall c :: c in s.products <==> c in s0.products || SeenCode(rows, n, c))
    && (forall c <- s0.products :: c in s.products && s.products[c] == s0.products[c])
    && (forall c, d | c in s.products && d in s.products && c != d :: s.products[c] != s.products[d])
    && (forall c <- s.products :: s.products[c] < s.nextProduct)
    && (forall id | 0 <= id < |s.batches| :: s.batches[id].product < s.nextProduct)
  }

  /** What the shelf offers to ordinary rows. */
  ghost predicate ShelfBook(s: Store, ids: set<nat>, s0: Store, rows: seq<Row>, setup: Setup, n: nat)
    requires n <= |rows| && AllDated(rows, setup)
  {
    && CanonicalShelf(s, ids) && (forall id <- ids :: id < |s.batches|)
    && forall c, m | c in s.products ::
         Offers(s, s.products[c], setup.warehouse, m, ids)
         <==> Known(s0, Key(c, m, ""), setup) || Shelved(rows, setup, n, c, m)
  }

  /** The run's own condition batches, one per condition key seen. */
  ghost predicate ConditionsKept(s: Store, p: Pending, rows: seq<Row>, setup: Setup, n: nat)
    requires n <= |rows|
  {
    && p.newCodes == {} && p.newBatches == {}
    && (forall k :: k in p.conditionBatches <==> k.condition != "" && SeenKey(rows, n, k))
    && forall k <- p.conditionBatches :: KeepsCondition(s, p, setup, k)
  }

  ghost predicate KeepsCondition(s: Store, p: Pending, setup: Setup, k: Key)
    requires k in p.conditionBatches
  {
    var id := p.conditionBatches[k];
    && id in p.conditionIds && id < |s.batches| && k.code in s.products
    && s.batches[id].product == s.products[k.code] && s.batches[id].warehouse == setup.warehouse
  }

  ghost predicate ApplyBook(a: Walk, s0: Store, rows: seq<Row>, setup: Setup, n: nat)
    requires n <= |rows| && AllDated(rows, setup)
  {
    && !Halted(a) && CardBook(a.store, s0, rows, n)
    && ShelfBook(a.store, a.pending.conditionIds, s0, rows, setup, n)
    && ConditionsKept(a.store, a.pending, rows, setup, n)
  }

  lemma ShelvedIsSeen(rows: seq<Row>, setup: Setup, n: nat, code: string, month: Month)
    requires n <= |rows| && AllDated(rows, setup)
    ensures Shelved(rows, setup, n, code, month) ==> SeenCode(rows, n, code)
    ensures n < |rows| ==>
      (Shelved(rows, setup, n + 1, code, month) <==>
         Shelved(rows, setup, n, code, month)
         || (Ordinary(rows[n]) && rows[n].code == code && ShelfMonth(rows[n], setup) == month))
  {
    hide ShelfMonth, Dated;
  }

  lemma ApplyDecision(a: Walk, s0: Store, rows: seq<Row>, setup: Setup, n: nat)
    requires n < |rows| && AllDated(rows, setup) && GoodDates(setup) && ApplyBook(a, s0, rows, setup, n)
    ensures var row, x := rows[n], ResolveRow(a.store, rows[n], setup, a.pending);
      && (x.action.TopUp? <==> ApplyTopsUp(s0, rows, setup, n))
      && (x.productExists <==> row.code in s0.products || SeenCode(rows, n, row.code))
      && (x.action.TopUp? ==>
            && x.batch.Some? && x.batch.value < |a.store.batches| && row.code in a.store.products
            && a.store.batches[x.batch.value].product == a.store.products[row.code]
            && a.store.batches[x.batch.value].warehouse == setup.warehouse
            && (row.condition != "" ==> x.batch.value in a.pending.conditionIds)
            && (row.condition == "" ==>
                  && !Loose(row) && x.batch.value !in a.pending.conditionIds
                  && MonthOf(a.store.batches[x.batch.value]) == YearMonth(row.expiry)))
  {
    var row, s, ids := rows[n], a.store, a.pending.conditionIds;
    if row.condition == "" {
      if row.code in s.products {
        QueryIsOffer(s, row, s.products[row.code], setup, ids);
        var found := Earliest(s, s.products[row.code], setup.warehouse, YearMonth(row.expiry), ids, |s.batches|);
        if found.Some? {
          QueryOfOne(s.batches[found.value], row, setup);
        }
      } else {
        ShelvedIsSeen(rows, setup, n, row.code, YearMonth(row.expiry));
      }
    }
    hide Earliest, Offers, SeenKey, SeenCode, Loose, Dated, GoodDates, CanonicalShelf, Shelved, InMonth;
  }

  /* ---------- a new batch ---------- */

  /** What a successful receipt of a new batch leaves. */
  predicate Receives(s: Store, t: Store, row: Row, setup: Setup)
    requires Dated(row, setup)
  {
    var product := if row.code in s.products then s.products[row.code] else s.nextProduct;
    && |t.batches| == |s.batches| + 1 && t.batches[..|s.batches|] == s.batches
    && t.batches[|s.batches|].product == product && t.batches[|s.batches|].warehouse == setup.warehouse
    && t.batches[|s.batches|].expiry == (if row.expiry == "" then None else IsoExpiry(row.expiry, setup))
    && t.products == s.products[row.code := product]
    && t.nextProduct == (if row.code in s.products then s.nextProduct else s.nextProduct + 1)
  }

  lemma NewBatchReceived(s: Store, row: Row, d: Decision, setup: Setup, fate: ReceiptFate)
    requires Dated(row, setup) && d.action.NewBatch? && fate.accepts && QtyOf(row) > 0
    ensures var r := Register(s, row, d, setup, fate);
      r.Some? && r.value.1 == |s.batches| && Receives(s, r.value.0, row, setup)
  {
    hide IsoExpiry, QtyOf;
    var r := Register(s, row, d, setup, fate);
    assert row.code in s.products ==> s.products == s.products[row.code := s.products[row.code]];
  }

  lemma CardsAfterNewBatch(s: Store, t: Store, s0: Store, rows: seq<Row>, setup: Setup, n: nat)
    requires n < |rows| && !rows[n].skipped && Dated(rows[n], setup)
    requires CardBook(s, s0, rows, n) && Receives(s, t, rows[n], setup)
    ensures CardBook(t, s0, rows, n + 1)
  {
    ReceiptAdds(s, t, rows[n], setup);
    hide Receives, Dated;
    forall c ensures SeenCode(rows, n + 1, c) <==> SeenCode(rows, n, c) || rows[n].code == c {
      SeenNext(rows, n, KeyOf(rows[n]), c);
    }
    hide SeenCode;
    forall c, d | c in t.products && d in t.products && c != d
      ensures t.products[c] != t.products[d]
    {
      assert c !in s.products ==> c == rows[n].code;
      assert d !in s.products ==> d == rows[n].code;
    }
  }

  /** The same card by card: the row's code has a card now, the others keep theirs, and one batch of that
      card stands last. */
  ghost predicate Adds(s: Store, t: Store, row: Row, setup: Setup) {
    && |t.batches| == |s.batches| + 1 && (forall id | 0 <= id < |s.batches| :: t.batches[id] == s.batches[id])
    && t.products.Keys == s.products.Keys + {row.code}
    && (forall c <- s.products :: t.products[c] == s.products[c])
    && (row.code !in s.products ==> t.products[row.code] == s.nextProduct)
    && t.nextProduct == (if row.code in s.products then s.nextProduct else s.nextProduct + 1)
    && t.batches[|s.batches|].product == t.products[row.code] && t.batches[|s.batches|].warehouse == setup.warehouse
  }

  lemma ReceiptAdds(s: Store, t: Store, row: Row, setup: Setup)
    requires Dated(row, setup) && Receives(s, t, row, setup)
    ensures Adds(s, t, row, setup)
  {
    hide IsoExpiry, Dated;
    assert forall id | 0 <= id < |s.batches| :: t.batches[id] == t.batches[..|s.batches|][id];
  }

  lemma CanonicalAfterNewBatch(s: Store, t: Store, ids: set<nat>, ids': set<nat>, row: Row, setup: Setup)
    requires GoodDates(setup) && Dated(row, setup) && CanonicalShelf(s, ids) && Receives(s, t, row, setup) && ids <= ids'
    ensures CanonicalShelf(t, ids')
  {
    if row.expiry != "" { IsoExpiryIsCanonical(row, setup); }
    hide IsoExpiry, Canonical;
    assert forall id | 0 <= id < |s.batches| :: t.batches[id] == s.batches[id];
  }

  lemma ShelfAfterNewBatch(s: Store, t: Store, ids: set<nat>, ids': set<nat>, s0: Store, rows: seq<Row>, setup: Setup, n: nat,
                           c: string, m: Month)
    requires n < |rows| && !rows[n].skipped && AllDated(rows, setup) && GoodDates(setup)
    requires CardBook(s, s0, rows, n) && ShelfBook(s, ids, s0, rows, setup, n) && Receives(s, t, rows[n], setup)
    requires ids' == (if rows[n].condition == "" then ids else ids + {|s.batches|}) && c in t.products
    ensures Offers(t, t.products[c], setup.warehouse, m, ids')
            <==> Known(s0, Key(c, m, ""), setup) || Shelved(rows, setup, n + 1, c, m)
  {
    var row := rows[n];
    ShelvedIsSeen(rows, setup, n, c, m);
    OffersAppended(s, t, t.products[c], setup.warehouse, m, ids, ids');
    assert MonthOf(t.batches[|s.batches|]) == ShelfMonth(row, setup);
    hide Dated, ShelfMonth, IsoExpiry, SeenCode, Shelved, MonthOf;
    if c in s.products {
      assert t.products[c] == s.products[c];
      assert row.code in s.products ==> (s.products[row.code] == s.products[c] <==> row.code == c);
    } else {
      assert c == row.code && t.products[c] == s.nextProduct;
      NothingOffered(s, s.nextProduct, setup.warehouse, m, ids);
    }
  }

  lemma ConditionsAfterNewBatch(s: Store, t: Store, p: Pending, q: Pending, rows: seq<Row>, setup: Setup, n: nat)
    requires n < |rows| && !rows[n].skipped && Dated(rows[n], setup)
    requires ConditionsKept(s, p, rows, setup, n) && Receives(s, t, rows[n], setup)
    requires q == if rows[n].condition == "" then p
                  else p.(conditionBatches := p.conditionBatches[KeyOf(rows[n]) := |s.batches|],
                          conditionIds := p.conditionIds + {|s.batches|})
    ensures ConditionsKept(t, q, rows, setup, n + 1)
  {
    ReceiptAdds(s, t, rows[n], setup);
    hide Receives, Dated;
    forall k ensures k in q.conditionBatches <==> k.condition != "" && SeenKey(rows, n + 1, k) {
      SeenNext(rows, n, k, "");
    }
    hide SeenKey;
    forall k <- q.conditionBatches ensures KeepsCondition(t, q, setup, k) {
      ConditionAfterNewBatch(s, t, p, q, rows[n], setup, k);
    }
    hide KeepsCondition, Adds;
  }

  lemma ConditionAfterNewBatch(s: Store, t: Store, p: Pending, q: Pending, row: Row, setup: Setup, k: Key)
    requires Adds(s, t, row, setup) && k in q.conditionBatches
    requires k in p.conditionBatches ==> KeepsCondition(s, p, setup, k)
    requires q == if row.condition == "" then p
                  else p.(conditionBatches := p.conditionBatches[KeyOf(row) := |s.batches|],
                          conditionIds := p.conditionIds + {|s.batches|})
    ensures KeepsCondition(t, q, setup, k)
  {
    if row.condition == "" || k != KeyOf(row) {
      assert k in p.conditionBatches && q.conditionBatches[k] == p.conditionBatches[k];
    }
  }

  lemma ApplyBookNewBatch(a: Walk, s0: Store, rows: seq<Row>, setup: Setup, n: nat, fate: ReceiptFate)
    requires n < |rows| && !rows[n].skipped && AllDated(rows, setup) && GoodDates(setup) && ApplyBook(a, s0, rows, setup, n)
    requires ResolveRow(a.store, rows[n], setup, a.pending).action.NewBatch? && fate.accepts && QtyOf(rows[n]) > 0
    ensures ApplyBook(Step(a, rows[n], setup, true, fate), s0, rows, setup, n + 1)
  {
    var row, d := rows[n], ResolveRow(a.store, rows[n], setup, a.pending);
    NewBatchReceived(a.store, row, d, setup, fate);
    NewBatchStep(a, row, setup, fate);
    var t, q := Register(a.store, row, d, setup, fate).value.0, Opened(a, row);
    hide Step, Register, ResolveRow, Receives, CardBook, ShelfBook, ConditionsKept, QtyOf;
    CardsAfterNewBatch(a.store, t, s0, rows, setup, n);
    ConditionsAfterNewBatch(a.store, t, a.pending, q, rows, setup, n);
    ShelfBookNewBatch(a.store, t, a.pending.conditionIds, q.conditionIds, s0, rows, setup, n);
  }

  lemma ShelfBookNewBatch(s: Store, t: Store, ids: set<nat>, ids': set<nat>, s0: Store, rows: seq<Row>, setup: Setup, n: nat)
    requires n < |rows| && !rows[n].skipped && AllDated(rows, setup) && GoodDates(setup)
    requires CardBook(s, s0, rows, n) && ShelfBook(s, ids, s0, rows, setup, n) && Receives(s, t, rows[n], setup)
    requires ids' == if rows[n].condition == "" then ids else ids + {|s.batches|}
    ensures ShelfBook(t, ids', s0, rows, setup, n + 1)
  {
    CanonicalAfterNewBatch(s, t, ids, ids', rows[n], setup);
    forall c, m | c in t.products
      ensures Offers(t, t.products[c], setup.warehouse, m, ids')
              <==> Known(s0, Key(c, m, ""), setup) || Shelved(rows, setup, n + 1, c, m)
    {
      ShelfAfterNewBatch(s, t, ids, ids', s0, rows, setup, n, c, m);
    }
    hide Known, Offers, Shelved, CanonicalShelf, AllDated, GoodDates;
  }

  /* ---------- a top-up ---------- */

  /** What a successful top-up leaves: one batch with more pieces and perhaps the row's expiry. */
  predicate TopsUp(s: Store, t: Store, id: nat, row: Row) {
    && id < |s.batches| && t.products == s.products && t.nextProduct == s.nextProduct
    && |t.batches| == |s.batches| && (forall i | 0 <= i < |s.batches| && i != id :: t.batches[i] == s.batches[i])
    && t.batches[id].product == s.batches[id].product && t.batches[id].warehouse == s.batches[id].warehouse
    && (t.batches[id].expiry == s.batches[id].expiry || (row.expiry != "" && t.batches[id].expiry == Some(row.expiry)))
  }

  lemma TopUpReceived(s: Store, row: Row, d: Decision, setup: Setup, fate: ReceiptFate)
    requires d.action.TopUp? && fate.accepts && QtyOf(row) > 0 && row.code in s.products
    requires d.batch.Some? && d.batch.value < |s.batches|
    requires s.batches[d.batch.value].product == s.products[row.code] && s.batches[d.batch.value].warehouse == setup.warehouse
    ensures var r := Register(s, row, d, setup, fate);
      && r.Some? && r.value.1 == d.batch.value < |r.value.0.batches|
      && TopsUp(s, TopUpNotes(r.value.0, r.value.1, row), d.batch.value, row)
  {
    hide IsoExpiry, QtyOf;
  }

  /** An ordinary top-up keeps what the shelf offers, because the rewritten expiry stays in its month;
      a condition batch is not on the shelf. */
  lemma ShelfAfterTopUp(s: Store, t: Store, ids: set<nat>, id: nat, row: Row)
    requires TopsUp(s, t, id, row) && CanonicalShelf(s, ids)
    requires id in ids || (!Loose(row) && MonthOf(s.batches[id]) == YearMonth(row.expiry))
    ensures CanonicalShelf(t, ids)
    ensures forall product, warehouse, month ::
      Offers(t, product, warehouse, month, ids) <==> Offers(s, product, warehouse, month, ids)
  {
    assert id !in ids ==> ShapeOf(t.batches[id]) == ShapeOf(s.batches[id]);
    forall product, warehouse, month
      ensures Offers(t, product, warehouse, month, ids) <==> Offers(s, product, warehouse, month, ids)
    {
      SameOutside(s, t, product, warehouse, month, ids);
    }
  }

  lemma SameOutside(s: Store, t: Store, product: nat, warehouse: nat, month: Month, ids: set<nat>)
    requires |t.batches| == |s.batches|
    requires forall i | 0 <= i < |s.batches| && i !in ids :: ShapeOf(t.batches[i]) == ShapeOf(s.batches[i])
    ensures Offers(t, product, warehouse, month, ids) <==> Offers(s, product, warehouse, month, ids)
  {
    hide ShapeOf;
  }

  lemma ApplyBookTopUp(a: Walk, s0: Store, rows: seq<Row>, setup: Setup, n: nat, fate: ReceiptFate)
    requires n < |rows| && !rows[n].skipped && AllDated(rows, setup) && GoodDates(setup) && ApplyBook(a, s0, rows, setup, n)
    requires ResolveRow(a.store, rows[n], setup, a.pending).action.TopUp? && fate.accepts && QtyOf(rows[n]) > 0
    ensures ApplyBook(Step(a, rows[n], setup, true, fate), s0, rows, setup, n + 1)
  {
    var row, d := rows[n], ResolveRow(a.store, rows[n], setup, a.pending);
    ApplyDecision(a, s0, rows, setup, n);
    TopUpReceived(a.store, row, d, setup, fate);
    TopUpStep(a, row, setup, true, fate);
    var r := Register(a.store, row, d, setup, fate).value;
    var t, id := TopUpNotes(r.0, r.1, row), d.batch.value;
    hide Step, Register, ResolveRow, TopUpNotes, CardBook, ShelfBook, ConditionsKept, QtyOf, TopsUp, ApplyTopsUp;
    CardsAfterTopUp(a.store, t, id, a.pending, s0, rows, setup, n);
    ShelfBookTopUp(a.store, t, id, a.pending.conditionIds, s0, rows, setup, n);
  }

  lemma CardsAfterTopUp(s: Store, t: Store, id: nat, p: Pending, s0: Store, rows: seq<Row>, setup: Setup, n: nat)
    requires n < |rows| && !rows[n].skipped && TopsUp(s, t, id, rows[n]) && rows[n].code in s.products
    requires CardBook(s, s0, rows, n) && ConditionsKept(s, p, rows, setup, n)
    requires rows[n].condition != "" ==> SeenKey(rows, n, KeyOf(rows[n]))
    ensures CardBook(t, s0, rows, n + 1) && ConditionsKept(t, p, rows, setup, n + 1)
  {
    SamePlaces(s, t, id, rows[n]);
    hide TopsUp;
    CardsStay(s, t, s0, rows, n);
    ConditionsStay(s, t, p, rows, setup, n);
  }

  ghost predicate Alike(s: Store, t: Store) {
    && t.products == s.products && t.nextProduct == s.nextProduct && |t.batches| == |s.batches|
    && forall i | 0 <= i < |s.batches| ::
         t.batches[i].product == s.batches[i].product && t.batches[i].warehouse == s.batches[i].warehouse
  }

  lemma SamePlaces(s: Store, t: Store, id: nat, row: Row)
    requires TopsUp(s, t, id, row)
    ensures Alike(s, t)
  {
  }

  lemma CardsStay(s: Store, t: Store, s0: Store, rows: seq<Row>, n: nat)
    requires n < |rows| && rows[n].code in s.products && Alike(s, t) && CardBook(s, s0, rows, n)
    ensures CardBook(t, s0, rows, n + 1)
  {
    forall c ensures c in t.products <==> c in s0.products || SeenCode(rows, n + 1, c) {
      SeenNext(rows, n, KeyOf(rows[n]), c);
    }
    hide SeenCode;
  }

  lemma ConditionsStay(s: Store, t: Store, p: Pending, rows: seq<Row>, setup: Setup, n: nat)
    requires n < |rows| && Alike(s, t) && ConditionsKept(s, p, rows, setup, n)
    requires rows[n].condition != "" ==> SeenKey(rows, n, KeyOf(rows[n]))
    ensures ConditionsKept(t, p, rows, setup, n + 1)
  {
    forall k ensures k in p.conditionBatches <==> k.condition != "" && SeenKey(rows, n + 1, k) {
      SeenNext(rows, n, k, "");
    }
    hide SeenKey;
  }

  lemma ShelfBookTopUp(s: Store, t: Store, id: nat, ids: set<nat>, s0: Store, rows: seq<Row>, setup: Setup, n: nat)
    requires n < |rows| && !rows[n].skipped && AllDated(rows, setup) && ShelfBook(s, ids, s0, rows, setup, n)
    requires TopsUp(s, t, id, rows[n]) && rows[n].code in s.products
    requires s.batches[id].product == s.products[rows[n].code] && s.batches[id].warehouse == setup.warehouse
    requires rows[n].condition != "" ==> id in ids
    requires rows[n].condition == "" ==> id !in ids && !Loose(rows[n]) && MonthOf(s.batches[id]) == YearMonth(rows[n].expiry)
    ensures ShelfBook(t, ids, s0, rows, setup, n + 1)
  {
    var row := rows[n];
    ShelfAfterTopUp(s, t, ids, id, row);
    if row.condition == "" {
      ShelfMonthOfTidy(row, setup);
      assert Offers(s, s.products[row.code], setup.warehouse, ShelfMonth(row, setup), ids) by {
        assert ShapeOf(s.batches[id]) == Shape(s.products[row.code], setup.warehouse, ShelfMonth(row, setup));
      }
    }
    forall c, m | c in t.products
      ensures Shelved(rows, setup, n + 1, c, m)
              <==> Shelved(rows, setup, n, c, m) || (Ordinary(row) && row.code == c && ShelfMonth(row, setup) == m)
    {
      ShelvedIsSeen(rows, setup, n, c, m);
    }
    hide Known, Offers, Shelved, CanonicalShelf, AllDated, ShelfMonth, Loose, MonthOf;
  }

  lemma ApplyBookNext(a: Walk, s0: Store, rows: seq<Row>, setup: Setup, n: nat, fate: ReceiptFate)
    requires n < |rows| && AllDated(rows, setup) && GoodDates(setup) && ApplyBook(a, s0, rows, setup, n)
    requires Succeeds(rows[n], fate)
    ensures ApplyBook(Step(a, rows[n], setup, true, fate), s0, rows, setup, n + 1)
  {
    hide ResolveRow, QtyOf, AllDated, GoodDates;
    if rows[n].skipped {
      BooksSkip(a, s0, rows, setup, n);
    } else {
      hide Step, ApplyBook;
      if ResolveRow(a.store, rows[n], setup, a.pending).action.TopUp? {
        ApplyBookTopUp(a, s0, rows, setup, n, fate);
      } else {
        ApplyBookNewBatch(a, s0, rows, setup, n, fate);
      }
    }
  }

  lemma BooksSkip(a: Walk, s0: Store, rows: seq<Row>, setup: Setup, n: nat)
    requires n < |rows| && rows[n].skipped && AllDated(rows, setup) && ApplyBook(a, s0, rows, setup, n)
    ensures ApplyBook(a, s0, rows, setup, n + 1)
  {
    SkipSees(rows, setup, n);
    hide SeenKey, SeenCode, Shelved, Known, Offers, CanonicalShelf, AllDated;
    assert CardBook(a.store, s0, rows, n + 1);
    assert ConditionsKept(a.store, a.pending, rows, setup, n + 1);
    hide CardBook, ConditionsKept;
  }

  lemma SkipSees(rows: seq<Row>, setup: Setup, n: nat)
    requires n < |rows| && rows[n].skipped && AllDated(rows, setup)
    ensures forall k :: SeenKey(rows, n + 1, k) <==> SeenKey(rows, n, k)
    ensures forall c :: SeenCode(rows, n + 1, c) <==> SeenCode(rows, n, c)
    ensures forall c, m :: Shelved(rows, setup, n + 1, c, m) <==> Shelved(rows, setup, n, c, m)
  {
    forall k, c, m
      ensures SeenKey(rows, n + 1, k) <==> SeenKey(rows, n, k)
      ensures SeenCode(rows, n + 1, c) <==> SeenCode(rows, n, c)
      ensures Shelved(rows, setup, n + 1, c, m) <==> Shelved(rows, setup, n, c, m)
    {
      SeenNext(rows, n, k, c);
      ShelvedIsSeen(rows, setup, n, c, m);
    }
  }

  lemma BooksBegin(s0: Store, rows: seq<Row>, setup: Setup)
    requires Tidy(s0) && AllDated(rows, setup)
    ensures DryBook(Begin(s0), s0, rows, setup, 0) && ApplyBook(Begin(s0), s0, rows, setup, 0)
  {
    assert forall id | 0 <= id < |s0.batches| :: s0.batches[id] in s0.batches;
  }

  /* ---------- whole runs ---------- */

  ghost predicate TopsUpAt(s0: Store, rows: seq<Row>, setup: Setup, apply: bool, j: nat)
    requires j < |rows| && AllDated(rows, setup)
  {
    if apply then ApplyTopsUp(s0, rows, setup, j) else DryTopsUp(s0, rows, setup, j)
  }

  /** The decisions for the first `n` rows, as the characterisations give them. */
  ghost function Decisions(s0: Store, rows: seq<Row>, setup: Setup, apply: bool, n: nat): seq<Action>
    requires n <= |rows| && AllDated(rows, setup)
  {
    if n == 0 then []
    else
      Decisions(s0, rows, setup, apply, n - 1)
      + (if rows[n - 1].skipped then [] else [if TopsUpAt(s0, rows, setup, apply, n - 1) then TopUp else NewBatch])
  }

  /** The counters that do not depend on the decisions. */
  function Others(m: Summary): Summary {
    m.(newBatches := 0, topups := 0, rowsWritten := 0)
  }

  function Times(actions: seq<Action>, x: Action): nat {
    if actions == [] then 0
    else Times(actions[..|actions| - 1], x) + (if actions[|actions| - 1] == x then 1 else 0)
  }

  lemma TimesNext(actions: seq<Action>, y: Action, x: Action)
    ensures Times(actions + [y], x) == Times(actions, x) + (if y == x then 1 else 0)
  {
    assert (actions + [y])[..|actions|] == actions;
  }

  ghost predicate Tallied(w: Walk) {
    w.summary.newBatches == Times(w.actions, NewBatch) && w.summary.topups == Times(w.actions, TopUp)
  }

  /** Both runs after `n` rows: their decisions, and counters that differ by the decisions only. */
  ghost predicate Characterised(a: Walk, d: Walk, s0: Store, rows: seq<Row>, setup: Setup, n: nat)
    requires n <= |rows| && AllDated(rows, setup)
  {
    && ApplyBook(a, s0, rows, setup, n) && DryBook(d, s0, rows, setup, n)
    && a.actions == Decisions(s0, rows, setup, true, n) && d.actions == Decisions(s0, rows, setup, false, n)
    && Others(a.summary) == Others(d.summary) && Tallied(a) && Tallied(d)
  }

  lemma {:induction false} RunsCharacterised(s0: Store, rows: seq<Row>, fates: seq<ReceiptFate>, setup: Setup, n: nat)
    requires DatedInput(s0, rows, fates, setup) && n <= |rows|
    ensures Characterised(Run(s0, rows, fates, setup, true, n), Run(s0, rows, fates, setup, false, n), s0, rows, setup, n)
  {
    hide Step, Characterised, AllDated, GoodDates, Tidy, Succeeds;
    if n == 0 {
      BeginCharacterised(s0, rows, setup);
    } else {
      RunsCharacterised(s0, rows, fates, setup, n - 1);
      RunStep(s0, rows, fates, setup, true, n);
      RunStep(s0, rows, fates, setup, false, n);
      assert Succeeds(rows[n - 1], fates[n - 1]);
      var a, d := Run(s0, rows, fates, setup, true, n - 1), Run(s0, rows, fates, setup, false, n - 1);
      hide Run;
      CharacterisedNext(a, d, s0, rows, setup, n - 1, fates[n - 1]);
    }
  }

  lemma BeginCharacterised(s0: Store, rows: seq<Row>, setup: Setup)
    requires Tidy(s0) && AllDated(rows, setup)
    ensures Characterised(Begin(s0), Begin(s0), s0, rows, setup, 0)
  {
    BooksBegin(s0, rows, setup);
  }

  lemma CharacterisedNext(a: Walk, d: Walk, s0: Store, rows: seq<Row>, setup: Setup, n: nat, fate: ReceiptFate)
    requires n < |rows| && Tidy(s0) && AllDated(rows, setup) && GoodDates(setup) && Succeeds(rows[n], fate)
    requires Characterised(a, d, s0, rows, setup, n)
    ensures Characterised(Step(a, rows[n], setup, true, fate), Step(d, rows[n], setup, false, fate), s0, rows, setup, n + 1)
  {
    hide Step, ApplyBook, DryBook, AllDated, GoodDates, Tidy, Decisions, Tallied, Succeeds, Others;
    ApplyBookNext(a, s0, rows, setup, n, fate);
    DryBookNext(d, s0, rows, setup, n, fate);
    StepCharacterised(a, d, s0, rows, setup, n, fate);
  }

  lemma StepCharacterised(a: Walk, d: Walk, s0: Store, rows: seq<Row>, setup: Setup, n: nat, fate: ReceiptFate)
    requires n < |rows| && Tidy(s0) && AllDated(rows, setup) && GoodDates(setup) && Succeeds(rows[n], fate)
    requires ApplyBook(a, s0, rows, setup, n) && DryBook(d, s0, rows, setup, n)
    requires a.actions == Decisions(s0, rows, setup, true, n) && d.actions == Decisions(s0, rows, setup, false, n)
    requires Others(a.summary) == Others(d.summary) && Tallied(a) && Tallied(d)
    ensures var a', d' := Step(a, rows[n], setup, true, fate), Step(d, rows[n], setup, false, fate);
      && a'.actions == Decisions(s0, rows, setup, true, n + 1) && d'.actions == Decisions(s0, rows, setup, false, n + 1)
      && Others(a'.summary) == Others(d'.summary) && Tallied(a') && Tallied(d')
  {
    hide ApplyBook, DryBook, AllDated, GoodDates, Tidy, ResolveRow, QtyOf, Decisions, TopsUpAt, Times, Step;
    if rows[n].skipped {
      SkippedStep(a, s0, rows, setup, true, n, fate);
      SkippedStep(d, s0, rows, setup, false, n, fate);
    } else {
      DecisionsRelated(a, d, s0, rows, setup, n);
      var x, y := ResolveRow(a.store, rows[n], setup, a.pending), ResolveRow(d.store, rows[n], setup, d.pending);
      NotHalted(a, d, s0, rows, setup, n);
      StepCounts(a, rows[n], setup, true, fate);
      StepCounts(d, rows[n], setup, false, fate);
      DecisionsNext(s0, rows, setup, true, n);
      DecisionsNext(s0, rows, setup, false, n);
      hide Tallied;
      SameOthers(a.summary, d.summary, rows[n], x, y);
      OthersSkipWritten(Step(a, rows[n], setup, true, fate).summary, Count(a.summary, rows[n], x));
      OthersSkipWritten(Step(d, rows[n], setup, false, fate).summary, Count(d.summary, rows[n], y));
    }
  }

  lemma NotHalted(a: Walk, d: Walk, s0: Store, rows: seq<Row>, setup: Setup, n: nat)
    requires n <= |rows| && AllDated(rows, setup) && ApplyBook(a, s0, rows, setup, n) && DryBook(d, s0, rows, setup, n)
    ensures !Halted(a) && !Halted(d)
  {
  }

  lemma SkippedStep(w: Walk, s0: Store, rows: seq<Row>, setup: Setup, apply: bool, n: nat, fate: ReceiptFate)
    requires n < |rows| && rows[n].skipped && AllDated(rows, setup)
    ensures Step(w, rows[n], setup, apply, fate) == w
    ensures Decisions(s0, rows, setup, apply, n + 1) == Decisions(s0, rows, setup, apply, n)
  {
    hide TopsUpAt, AllDated;
  }

  lemma DecisionsNext(s0: Store, rows: seq<Row>, setup: Setup, apply: bool, n: nat)
    requires n < |rows| && !rows[n].skipped && AllDated(rows, setup)
    ensures Decisions(s0, rows, setup, apply, n + 1)
            == Decisions(s0, rows, setup, apply, n) + [if TopsUpAt(s0, rows, setup, apply, n) then TopUp else NewBatch]
  {
    hide TopsUpAt, AllDated;
  }

  /** Where both runs stand, each decides as characterised and sees the same card and prices. */
  lemma DecisionsRelated(a: Walk, d: Walk, s0: Store, rows: seq<Row>, setup: Setup, n: nat)
    requires n < |rows| && Tidy(s0) && AllDated(rows, setup) && GoodDates(setup)
    requires ApplyBook(a, s0, rows, setup, n) && DryBook(d, s0, rows, setup, n)
    ensures var x, y := ResolveRow(a.store, rows[n], setup, a.pending), ResolveRow(d.store, rows[n], setup, d.pending);
      && x.action == (if TopsUpAt(s0, rows, setup, true, n) then TopUp else NewBatch)
      && y.action == (if TopsUpAt(s0, rows, setup, false, n) then TopUp else NewBatch)
      && x.productExists == y.productExists && x.cost == y.cost && x.sale == y.sale
  {
    ApplyDecision(a, s0, rows, setup, n);
    DryDecision(d, s0, rows, setup, n);
    hide ApplyBook, DryBook, AllDated, GoodDates, Tidy, ApplyTopsUp, DryTopsUp, Earliest, SeenCode, KeyOf;
  }

  lemma StepCounts(w: Walk, row: Row, setup: Setup, apply: bool, fate: ReceiptFate)
    requires !row.skipped && !Halted(w) && Tallied(w)
    ensures var x, next := ResolveRow(w.store, row, setup, w.pending), Step(w, row, setup, apply, fate);
      && Tallied(next) && next.actions == w.actions + [x.action]
      && next.summary.(rowsWritten := 0) == Count(w.summary, row, x).(rowsWritten := 0)
  {
    StepOfAnyMode(w, row, setup, apply, fate);
    var x := ResolveRow(w.store, row, setup, w.pending);
    TimesNext(w.actions, x.action, NewBatch);
    TimesNext(w.actions, x.action, TopUp);
    hide Step, ResolveRow, Times, QtyOf;
    assert Step(w, row, setup, apply, fate).summary.newBatches == Count(w.summary, row, x).newBatches;
    assert Step(w, row, setup, apply, fate).summary.topups == Count(w.summary, row, x).topups;
  }

  lemma SameOthers(m: Summary, k: Summary, row: Row, x: Decision, y: Decision)
    requires Others(m) == Others(k) && x.productExists == y.productExists && x.cost == y.cost && x.sale == y.sale
    ensures Others(Count(m, row, x)) == Others(Count(k, row, y))
  {
    hide QtyOf;
  }

  lemma OthersSkipWritten(m: Summary, k: Summary)
    requires m.(rowsWritten := 0) == k.(rowsWritten := 0)
    ensures Others(m) == Others(k)
  {
    assert Others(m) == Others(m.(rowsWritten := 0));
  }

  /** Whatever is done with the row, its decision is listed and counted. */
  lemma StepOfAnyMode(w: Walk, row: Row, setup: Setup, apply: bool, fate: ReceiptFate)
    requires !row.skipped && !Halted(w)
    ensures var x, next := ResolveRow(w.store, row, setup, w.pending), Step(w, row, setup, apply, fate);
      next.actions == w.actions + [x.action]
      && next.summary.(rowsWritten := 0) == Count(w.summary, row, x).(rowsWritten := 0)
  {
    hide ResolveRow, Register, TopUpNotes, Count;
  }

  /* ---------- when the two runs part ---------- */

  /** The earlier row `i` is loose and ordinary, and row `j` of the same code either repeats the text of
      its month, which only the dry run recognises, or is the first to name its month, which only the
      database recognises. */
  ghost predicate Clash(s0: Store, rows: seq<Row>, setup: Setup, i: nat, j: nat)
    requires i < j < |rows| && AllDated(rows, setup)
  {
    && Ordinary(rows[i]) && Ordinary(rows[j]) && rows[i].code == rows[j].code && Loose(rows[i])
    && if Loose(rows[j]) then YearMonth(rows[i].expiry) == YearMonth(rows[j].expiry)
       else
         && rows[j].expiry != "" && ShelfMonth(rows[i], setup) == YearMonth(rows[j].expiry)
         && !Known(s0, KeyOf(rows[j]), setup) && !SeenKey(rows, j, KeyOf(rows[j]))
  }

  lemma {:induction false} DecisionsDiffer(s0: Store, rows: seq<Row>, setup: Setup, n: nat)
    requires n <= |rows| && AllDated(rows, setup)
    ensures |Decisions(s0, rows, setup, true, n)| == |Decisions(s0, rows, setup, false, n)|
    ensures Decisions(s0, rows, setup, true, n) != Decisions(s0, rows, setup, false, n)
            <==> exists j | 0 <= j < n :: !rows[j].skipped && TopsUpAt(s0, rows, setup, true, j) != TopsUpAt(s0, rows, setup, false, j)
  {
    hide TopsUpAt, AllDated;
    if n > 0 {
      DecisionsDiffer(s0, rows, setup, n - 1);
      var x, y := Decisions(s0, rows, setup, true, n - 1), Decisions(s0, rows, setup, false, n - 1);
      if rows[n - 1].skipped {
        assert Decisions(s0, rows, setup, true, n) == x && Decisions(s0, rows, setup, false, n) == y;
      } else {
        DecisionsNext(s0, rows, setup, true, n - 1);
        DecisionsNext(s0, rows, setup, false, n - 1);
        hide Decisions;
        LastDiffers(x, y, if TopsUpAt(s0, rows, setup, true, n - 1) then TopUp else NewBatch,
                    if TopsUpAt(s0, rows, setup, false, n - 1) then TopUp else NewBatch);
      }
    }
  }

  lemma LastDiffers(x: seq<Action>, y: seq<Action>, a: Action, b: Action)
    requires |x| == |y|
    ensures x + [a] == y + [b] <==> x == y && a == b
  {
    if x + [a] == y + [b] {
      assert x == (x + [a])[..|x|] && y == (y + [b])[..|y|];
      assert a == (x + [a])[|x|];
    }
  }

  /** A row is decided differently exactly when it clashes with an earlier one. */
  lemma ClashDecides(s0: Store, rows: seq<Row>, setup: Setup, j: nat)
    requires j < |rows| && !rows[j].skipped && Tidy(s0) && AllDated(rows, setup) && GoodDates(setup)
    ensures TopsUpAt(s0, rows, setup, true, j) != TopsUpAt(s0, rows, setup, false, j)
            <==> exists i | 0 <= i < j :: Clash(s0, rows, setup, i, j)
  {
    if rows[j].condition == "" {
      if Loose(rows[j]) {
        LooseClash(s0, rows, setup, j);
      } else {
        TidyClash(s0, rows, setup, j);
      }
    }
  }

  lemma LooseClash(s0: Store, rows: seq<Row>, setup: Setup, j: nat)
    requires j < |rows| && Ordinary(rows[j]) && Loose(rows[j]) && Tidy(s0) && AllDated(rows, setup) && GoodDates(setup)
    ensures !TopsUpAt(s0, rows, setup, true, j)
    ensures TopsUpAt(s0, rows, setup, false, j) <==> exists i | 0 <= i < j :: Clash(s0, rows, setup, i, j)
  {
    var row := rows[j];
    TidyShelf(s0);
    if row.code in s0.products {
      QueryIsOffer(s0, row, s0.products[row.code], setup, {});
    }
    forall i | 0 <= i < j
      ensures !rows[i].skipped && KeyOf(rows[i]) == KeyOf(row) <==> Clash(s0, rows, setup, i, j)
    {
      if YearMonth(rows[i].expiry) == YearMonth(row.expiry) && rows[i].expiry != "" && !Loose(rows[i]) {
        LooseMonth(row, setup, rows[i].expiry);
      }
    }
  }

  /** For a row without a loose expiry the month as written is the month of the stored date. */
  lemma TidyClash(s0: Store, rows: seq<Row>, setup: Setup, j: nat)
    requires j < |rows| && Ordinary(rows[j]) && !Loose(rows[j]) && AllDated(rows, setup) && GoodDates(setup)
    ensures TopsUpAt(s0, rows, setup, true, j) != TopsUpAt(s0, rows, setup, false, j)
            <==> exists i | 0 <= i < j :: Clash(s0, rows, setup, i, j)
  {
    var row := rows[j];
    forall i | 0 <= i < j && Ordinary(rows[i]) && rows[i].code == row.code
      ensures KeyOf(rows[i]) == KeyOf(row) ==> ShelfMonth(rows[i], setup) == YearMonth(row.expiry)
      ensures ShelfMonth(rows[i], setup) == YearMonth(row.expiry) && KeyOf(rows[i]) != KeyOf(row)
              ==> Loose(rows[i]) && row.expiry != ""
    {
      MonthsCompared(rows[i], row, setup);
    }
    hide ShelfMonth, Loose, YearMonth, Known;
    var k, m := KeyOf(row), YearMonth(row.expiry);
    if TopsUpAt(s0, rows, setup, true, j) && !TopsUpAt(s0, rows, setup, false, j) {
      var i :| 0 <= i < j && Ordinary(rows[i]) && rows[i].code == row.code && ShelfMonth(rows[i], setup) == m;
      assert KeyOf(rows[i]) != k;
      assert Clash(s0, rows, setup, i, j);
    }
    if SeenKey(rows, j, k) {
      var i :| 0 <= i < j && !rows[i].skipped && KeyOf(rows[i]) == k;
      assert Ordinary(rows[i]) && rows[i].code == row.code;
      assert Shelved(rows, setup, j, row.code, m);
    }
    forall i | 0 <= i < j && Clash(s0, rows, setup, i, j)
      ensures Shelved(rows, setup, j, row.code, m) && !Known(s0, k, setup) && !SeenKey(rows, j, k)
    {
    }
  }

  lemma MonthsCompared(x: Row, row: Row, setup: Setup)
    requires Dated(x, setup) && Dated(row, setup) && !Loose(row) && GoodDates(setup)
    ensures YearMonth(x.expiry) == YearMonth(row.expiry) ==> ShelfMonth(x, setup) == YearMonth(row.expiry)
    ensures ShelfMonth(x, setup) == YearMonth(row.expiry) && YearMonth(x.expiry) != YearMonth(row.expiry)
            ==> Loose(x) && row.expiry != ""
  {
    if Loose(x) {
      if row.expiry != "" { LooseMonth(x, setup, row.expiry); }
    } else {
      ShelfMonthOfTidy(x, setup);
    }
  }

  /** The dry run predicts every action, and with them every count, exactly when no two rows clash. */
  lemma DivergesExactly(s0: Store, rows: seq<Row>, fates: seq<ReceiptFate>, setup: Setup)
    requires DatedInput(s0, rows, fates, setup)
    ensures var a, d := Run(s0, rows, fates, setup, true, |rows|), Run(s0, rows, fates, setup, false, |rows|);
      && !Halted(a) && !Halted(d)
      && (a.actions != d.actions <==> exists i, j | 0 <= i < j < |rows| :: Clash(s0, rows, setup, i, j))
      && (a.actions == d.actions ==> SameCounts(a.summary, d.summary))
  {
    var n := |rows|;
    RunsCharacterised(s0, rows, fates, setup, n);
    DecisionsDiffer(s0, rows, setup, n);
    ClashSomewhere(s0, rows, setup);
    hide TopsUpAt, Clash, Decisions, Run, AllDated, GoodDates, Tidy, Times;
  }

  lemma ClashSomewhere(s0: Store, rows: seq<Row>, setup: Setup)
    requires Tidy(s0) && AllDated(rows, setup) && GoodDates(setup)
    ensures (exists j | 0 <= j < |rows| ::
               !rows[j].skipped && TopsUpAt(s0, rows, setup, true, j) != TopsUpAt(s0, rows, setup, false, j))
            <==> exists i, j | 0 <= i < j < |rows| :: Clash(s0, rows, setup, i, j)
  {
    forall j | 0 <= j < |rows| && !rows[j].skipped
      ensures TopsUpAt(s0, rows, setup, true, j) != TopsUpAt(s0, rows, setup, false, j)
              <==> exists i | 0 <= i < j :: Clash(s0, rows, setup, i, j)
    {
      ClashDecides(s0, rows, setup, j);
    }
    assert forall i, j | 0 <= i < j < |rows| :: Clash(s0, rows, setup, i, j) ==> !rows[j].skipped;
    hide TopsUpAt, Clash, AllDated, GoodDates, Tidy;
  }
}
