/** app/services/corrections.py over app/services/ledger.py: a stock correction writes one ledger row and
    moves the two cached quantities that project the ledger. */
module Corrections {
  import opened Base
  import opened Text
  import Calendar
  import IsoText

  datatype Product = Product(id: string, code: Option<string>, deleted: bool, quantity: int)

  datatype Batch = Batch(product: string, warehouse: string, legacy: bool, quantity: int)

  datatype Payload = Payload(note: Option<string>, mode: string)

  datatype Operation = Operation(kind: string, product: string, batch: Option<string>, delta: int, payload: Payload,
                                 businessDate: string)

  datatype Stock = Stock(products: seq<Product>, batches: map<string, Batch>, operations: seq<Operation>)

  /** The posted form. */
  datatype Request = Request(code: string, mode: string, value: string, note: string, batch: string, confirm: string,
                             opDate: string)

  /** What the request is answered against: the operator's warehouses, today, the date parser, and whether
      the insert loses a race for its sequence number. */
  datatype Context = Context(allowed: string -> bool, today: Date, parseDate: string -> Option<Date>, raced: bool)

  type Date = d: Calendar.Date | Calendar.Valid(d) witness Calendar.Date(2000, 1, 1)

  datatype Message = BadMode | NoCode | UnknownCode(code: string) | NoBatch | BadCount | BadDelta | NothingChanged
                   | BadDate | TooOld | InFuture | NotSaved

  /** Raised: an exception the service does not handle; nothing is committed. */
  datatype Outcome = Written(newQuantity: int) | Oversell(available: int, requested: int)
                   | Refused(errors: map<string, Message>) | Raised

  /* ---------- the cached sums ---------- */

  function ProductSum(operations: seq<Operation>, id: string): int {
    if operations == [] then 0
    else
      var last := operations[|operations| - 1];
      ProductSum(operations[..|operations| - 1], id) + (if last.product == id then last.delta else 0)
  }

  /** A legacy batch also absorbs its product's rows that name no batch. */
  predicate Counts(op: Operation, id: string, batch: Batch) {
    op.batch == Some(id) || (batch.legacy && op.batch.None? && op.product == batch.product)
  }

  function BatchSum(operations: seq<Operation>, id: string, batch: Batch): int {
    if operations == [] then 0
    else
      var last := operations[|operations| - 1];
      BatchSum(operations[..|operations| - 1], id, batch) + (if Counts(last, id, batch) then last.delta else 0)
  }

  ghost predicate DistinctIds(products: seq<Product>) {
    forall i, j | 0 <= i < j < |products| :: products[i].id != products[j].id
  }

  /** compute_stock and compute_batch_stock agree with every cached quantity. */
  ghost predicate Balanced(s: Stock) {
    && DistinctIds(s.products)
    && (forall i | 0 <= i < |s.products| :: s.products[i].quantity == ProductSum(s.operations, s.products[i].id))
    && (forall b <- s.batches :: s.batches[b].quantity == BatchSum(s.operations, b, s.batches[b]))
  }

  /* ---------- reading the request ---------- */

  /** The first active product with this code, or the number of products. */
  function ActiveProduct(products: seq<Product>, code: string): (i: nat)
    ensures i <= |products| && (i < |products| ==> products[i].code == Some(code) && !products[i].deleted)
    ensures forall k | 0 <= k < i :: products[k].code != Some(code) || products[k].deleted
  {
    if products == [] || (products[0].code == Some(code) && !products[0].deleted) then 0
    else ActiveProduct(products[1..], code) + 1
  }

  const OLDEST: Date := Calendar.Date(2000, 1, 1)

  /** parse_op_date: None is an empty field, which means today. */
  function OpDate(raw: string, cx: Context): Result<Option<Date>, Message> {
    var s := Strip(raw);
    if s == "" then Ok(None)
    else
      match cx.parseDate(s)
      case None => Err(BadDate)
      case Some(d) =>
        if Calendar.Before(d, OLDEST) then Err(TooOld)
        else if Less(IsoText.IsoDate(cx.today), IsoText.IsoDate(d)) then Err(InFuture)
        else Ok(Some(d))
  }

  /** int() refuses more digits than this. */
  const MAX_DIGITS := 4300

  datatype Parsed = Delta(n: int) | Bad(message: Message) | TooLong

  function Digits(s: string, bad: Message): Parsed {
    if !AllDigits(s) then Bad(bad) else if |s| > MAX_DIGITS then TooLong else Delta(Number(s))
  }

  /** A count is diffed against what remains in the picked batch; a delta is taken as it is. */
  function ParseValue(mode: string, raw: string, remaining: int): Parsed {
    var s := Strip(raw);
    if mode == "count" then
      match Digits(s, BadCount)
      case Delta(n) => Delta(n - remaining)
      case other => other
    else if s != "" && s[0] == '-' then
      match Digits(s[1..], BadDelta)
      case Delta(n) => Delta(-n)
      case other => other
    else Digits(s, BadDelta)
  }

  /** What SQLite can bind. */
  predicate Fits(n: int) {
    -0x8000_0000_0000_0000 <= n < 0x8000_0000_0000_0000
  }

  /* ---------- what a request asks for ---------- */

  predicate OwnBatch(s: Stock, i: nat, b: string, cx: Context)
    requires i < |s.products|
  {
    b != "" && b in s.batches && s.batches[b].product == s.products[i].id && cx.allowed(s.batches[b].warehouse)
  }

  function Problems(value: Parsed, date: Result<Option<Date>, Message>): map<string, Message> {
    (if value.Bad? then map["quantity" := value.message] else map[])
    + (if date.Err? then map["op_date" := date.error] else map[])
  }

  /** The answer for an active product and one of its batches. */
  function BatchAnswer(s: Stock, r: Request, cx: Context, i: nat, b: string): Outcome
    requires i < |s.products| && b in s.batches
  {
    var remaining := s.batches[b].quantity;
    var value, date := ParseValue(r.mode, r.value, remaining), OpDate(r.opDate, cx);
    if value.TooLong? then Raised
    else if value.Bad? || date.Err? then Refused(Problems(value, date))
    else if value.n == 0 then Refused(map["quantity" := NothingChanged])
    else if r.confirm != "1" && -value.n > remaining then Oversell(remaining, -value.n)
    else if !Fits(value.n) then Raised
    else if cx.raced then Refused(map["form" := NotSaved])
    else Written(s.products[i].quantity + value.n)
  }

  /** The checks in their order of precedence. */
  function Answer(s: Stock, r: Request, cx: Context): Outcome {
    var code, b := Strip(r.code), Strip(r.batch);
    if r.mode != "count" && r.mode != "delta" then Refused(map["mode" := BadMode])
    else if code == "" then Refused(map["code" := NoCode])
    else
      var i := ActiveProduct(s.products, code);
      if i == |s.products| then Refused(map["code" := UnknownCode(code)])
      else if !OwnBatch(s, i, b, cx) then Refused(map["batch" := NoBatch])
      else BatchAnswer(s, r, cx, i, b)
  }

  /* ---------- the write ---------- */

  function Recorded(s: Stock, i: nat, b: string, op: Operation): Stock
    requires i < |s.products| && b in s.batches
  {
    var product, batch := s.products[i], s.batches[b];
    Stock(s.products[i := product.(quantity := product.quantity + op.delta)],
          s.batches[b := batch.(quantity := batch.quantity + op.delta)],
          s.operations + [op])
  }

  function Correction(s: Stock, r: Request, cx: Context): Operation
    requires Answer(s, r, cx).Written?
  {
    var i, b := ActiveProduct(s.products, Strip(r.code)), Strip(r.batch);
    var value, date := ParseValue(r.mode, r.value, s.batches[b].quantity), OpDate(r.opDate, cx).value;
    var day := match date case None => cx.today case Some(d) => d;
    var note := Strip(r.note);
    Operation("correction", s.products[i].id, Some(b), value.n, Payload(if note == "" then None else Some(note), r.mode),
              IsoText.IsoDate(day))
  }

  function After(s: Stock, r: Request, cx: Context): Stock {
    if Answer(s, r, cx).Written?
    then Recorded(s, ActiveProduct(s.products, Strip(r.code)), Strip(r.batch), Correction(s, r, cx))
    else s
  }

  class StockStore {
    var products: seq<Product>
    var batches: map<string, Batch>
    var operations: seq<Operation>

    ghost function Contents(): Stock
      reads this
    {
      Stock(products, batches, operations)
    }

    constructor (products: seq<Product>, batches: map<string, Batch>, operations: seq<Operation>)
      ensures Contents() == Stock(products, batches, operations)
    {
      this.products, this.batches, this.operations := products, batches, operations;
    }

    /** record_operation for a correction: append, then increment both caches, in one transaction. */
    method RecordOperation(i: nat, b: string, op: Operation)
      requires i < |products| && b in batches
      modifies this
      ensures Contents() == Recorded(old(Contents()), i, b, op)
    {
      operations := operations + [op];
      products := products[i := products[i].(quantity := products[i].quantity + op.delta)];
      batches := batches[b := batches[b].(quantity := batches[b].quantity + op.delta)];
    }

    method RegisterCorrection(r: Request, cx: Context) returns (outcome: Outcome)
      modifies this
      ensures outcome == Answer(old(Contents()), r, cx)
      ensures Contents() == After(old(Contents()), r, cx)
    {
      hide ActiveProduct;
      ghost var s := Contents();
      if r.mode != "count" && r.mode != "delta" {
        return Refused(map["mode" := BadMode]);
      }
      var code, b := Strip(r.code), Strip(r.batch);
      if code == "" {
        return Refused(map["code" := NoCode]);
      }
      var i := ActiveProduct(products, code);
      if i == |products| {
        return Refused(map["code" := UnknownCode(code)]);
      }
      if b == "" || b !in batches || batches[b].product != products[i].id || !cx.allowed(batches[b].warehouse) {
        return Refused(map["batch" := NoBatch]);
      }
      outcome := CorrectBatch(r, cx, i, b);
    }

    method CorrectBatch(r: Request, cx: Context, i: nat, b: string) returns (outcome: Outcome)
      requires r.mode == "count" || r.mode == "delta"
      requires i < |products| && Strip(r.code) != "" && i == ActiveProduct(products, Strip(r.code))
      requires b == Strip(r.batch) && OwnBatch(Contents(), i, b, cx)
      modifies this
      ensures outcome == Answer(old(Contents()), r, cx)
      ensures Contents() == After(old(Contents()), r, cx)
    {
      hide ActiveProduct, ParseValue, OpDate, Strip;
      ghost var s := Contents();
      var errors: map<string, Message> := map[];
      var delta := 0;
      match ParseValue(r.mode, r.value, batches[b].quantity) {
        case TooLong => return Raised;
        case Bad(message) => errors := errors["quantity" := message];
        case Delta(n) => delta := n;
      }
      var date := OpDate(r.opDate, cx);
      if date.Err? {
        errors := errors["op_date" := date.error];
      }
      assert errors == Problems(ParseValue(r.mode, r.value, batches[b].quantity), date);
      assert date.Err? ==> "op_date" in errors;
      assert ParseValue(r.mode, r.value, batches[b].quantity).Bad? ==> "quantity" in errors;
      if errors != map[] {
        return Refused(errors);
      }
      if delta == 0 {
        return Refused(map["quantity" := NothingChanged]);
      }
      if r.confirm != "1" && -delta > batches[b].quantity {
        return Oversell(batches[b].quantity, -delta);
      }
      if !Fits(delta) {
        return Raised;
      }
      if cx.raced {
        return Refused(map["form" := NotSaved]);
      }
      var day := match date.value case None => cx.today case Some(d) => d;
      var note := Strip(r.note);
      var payload := Payload(if note == "" then None else Some(note), r.mode);
      RecordOperation(i, b, Operation("correction", products[i].id, Some(b), delta, payload, IsoText.IsoDate(day)));
      return Written(products[i].quantity);
    }
  }

  /* ---------- the caches project the ledger ---------- */

  lemma BatchSumIgnoresQuantity(operations: seq<Operation>, id: string, batch: Batch, quantity: int)
    ensures BatchSum(operations, id, batch.(quantity := quantity)) == BatchSum(operations, id, batch)
  {
    if operations != [] {
      BatchSumIgnoresQuantity(operations[..|operations| - 1], id, batch, quantity);
    }
  }

  lemma RecordedIsBalanced(s: Stock, i: nat, b: string, op: Operation)
    requires Balanced(s) && i < |s.products| && b in s.batches
    requires op.product == s.products[i].id && op.batch == Some(b)
    ensures Balanced(Recorded(s, i, b, op))
  {
    var now := Recorded(s, i, b, op);
    assert now.operations[..|s.operations|] == s.operations;
    forall j | 0 <= j < |now.products|
      ensures now.products[j].quantity == ProductSum(now.operations, now.products[j].id)
    {
    }
    forall c | c in now.batches
      ensures now.batches[c].quantity == BatchSum(now.operations, c, now.batches[c])
    {
      BatchSumIgnoresQuantity(s.operations, c, s.batches[c], now.batches[c].quantity);
    }
  }

  function RunAll(s: Stock, requests: seq<(Request, Context)>): Stock {
    if requests == [] then s
    else
      var last := requests[|requests| - 1];
      After(RunAll(s, requests[..|requests| - 1]), last.0, last.1)
  }

  /** Over any run of corrections, accepted or not, every cached quantity is its ledger sum. */
  lemma {:induction false} CorrectionsStayBalanced(s: Stock, requests: seq<(Request, Context)>)
    requires Balanced(s)
    ensures Balanced(RunAll(s, requests))
  {
    if requests != [] {
      var n := |requests| - 1;
      var before, r, cx := RunAll(s, requests[..n]), requests[n].0, requests[n].1;
      CorrectionsStayBalanced(s, requests[..n]);
      if Answer(before, r, cx).Written? {
        hide BatchAnswer, Recorded, Balanced;
        RecordedIsBalanced(before, ActiveProduct(before.products, Strip(r.code)), Strip(r.batch), Correction(before, r, cx));
      }
    }
  }

  /** One correction moves one batch and its product by the same amount and leaves everything else alone. */
  lemma SiblingsUntouched(s: Stock, r: Request, cx: Context)
    ensures var now := After(s, r, cx);
      if Answer(s, r, cx).Written? then
        var i, b, op := ActiveProduct(s.products, Strip(r.code)), Strip(r.batch), Correction(s, r, cx);
        && now.operations == s.operations + [op] && op.delta != 0 && s.batches[b].product == s.products[i].id
        && now.batches.Keys == s.batches.Keys && |now.products| == |s.products|
        && now.batches[b].quantity - s.batches[b].quantity == op.delta == now.products[i].quantity - s.products[i].quantity
        && Answer(s, r, cx).newQuantity == now.products[i].quantity
        && (forall c | c in s.batches && c != b :: now.batches[c] == s.batches[c])
        && (forall k | 0 <= k < |s.products| && k != i :: now.products[k] == s.products[k])
      else now == s
  {
    hide ParseValue, OpDate, Strip, ActiveProduct;
  }

  /* ---------- the two modes and the gate ---------- */

  /** Count mode ends at exactly the counted number and never meets the over-removal gate. */
  lemma CountModeEndsAtCount(s: Stock, r: Request, cx: Context)
    requires r.mode == "count"
    ensures !Answer(s, r, cx).Oversell?
    ensures Answer(s, r, cx).Written? ==>
      AllDigits(Strip(r.value)) && After(s, r, cx).batches[Strip(r.batch)].quantity == Number(Strip(r.value))
  {
    hide OpDate, Strip, ActiveProduct;
  }

  /** A text is a signed number: digits, or a minus sign and digits. */
  predicate SignedDigits(s: string) {
    AllDigits(s) || (s != "" && s[0] == '-' && AllDigits(s[1..]))
  }

  function SignedValue(s: string): int
    requires SignedDigits(s)
  {
    if s[0] == '-' then 0 - Number(s[1..]) else Number(s)
  }

  /** Which texts are read, and as what: signed digits in delta mode, digits in count mode, where the count is
      diffed; only a number that int() finds too long raises. */
  lemma ValueRead(raw: string, remaining: int)
    ensures var v, x := Strip(raw), ParseValue("delta", raw, remaining);
      && (x.Bad? <==> !SignedDigits(v)) && (x.TooLong? ==> |v| > 4300)
      && (SignedDigits(v) && |v| <= 4300 ==> x == Delta(SignedValue(v)))
    ensures var v, x := Strip(raw), ParseValue("count", raw, remaining);
      && (x.Bad? <==> !AllDigits(v)) && (x.TooLong? ==> |v| > 4300)
      && (AllDigits(v) && |v| <= 4300 ==> x == Delta(Number(v) - remaining))
  {
    MinusIsNoDigit(Strip(raw));
    hide Strip, AllDigits, Number;
  }

  /** Delta mode adds exactly the number typed in, with its sign, to the batch and to its product. */
  lemma DeltaModeAddsSignedValue(s: Stock, r: Request, cx: Context)
    requires r.mode == "delta" && Answer(s, r, cx).Written?
    ensures SignedDigits(Strip(r.value)) && Strip(r.batch) in s.batches
    ensures Moves(s, After(s, r, cx), Strip(r.code), Strip(r.batch), SignedValue(Strip(r.value)))
  {
    var v, i := Strip(r.value), ActiveProduct(s.products, Strip(r.code));
    MinusIsNoDigit(v);
    hide OpDate, Strip, ActiveProduct, Number, AllDigits;
    assert s.products[i].code == Some(Strip(r.code));
  }

  /** Batch `b` and the active product with this code, whose batch it is, both changed by `delta`. */
  ghost predicate Moves(s: Stock, now: Stock, code: string, b: string, delta: int)
    requires b in s.batches
  {
    && b in now.batches && now.batches[b].quantity == s.batches[b].quantity + delta
    && |now.products| == |s.products|
    && exists i | 0 <= i < |s.products| ::
         && s.products[i].code == Some(code) && !s.products[i].deleted && s.products[i].id == s.batches[b].product
         && now.products[i].quantity == s.products[i].quantity + delta
  }

  lemma MinusIsNoDigit(v: string)
    ensures AllDigits(v) ==> v[0] != '-'
  {
  }

  /** The gate asks back exactly about an unconfirmed change that would leave less than nothing; it says how
      much there is and how much would go, and writes nothing. */
  lemma OversellAsksBack(s: Stock, r: Request, cx: Context)
    requires Answer(s, r, cx).Oversell?
    ensures r.mode == "delta" && r.confirm != "1" && SignedDigits(Strip(r.value)) && Strip(r.batch) in s.batches
    ensures var available, delta := s.batches[Strip(r.batch)].quantity, SignedValue(Strip(r.value));
      Answer(s, r, cx) == Oversell(available, -delta) && available + delta < 0
    ensures After(s, r, cx) == s
  {
    MinusIsNoDigit(Strip(r.value));
    hide OpDate, Strip, ActiveProduct, Number, AllDigits;
  }

  /** Every refusal says why, under the field it is about, and writes nothing: a field is named exactly when it
      is the first of mode, code and batch to be wrong, and value and date are only looked at after those. */
  lemma RefusedFor(s: Stock, r: Request, cx: Context)
    requires Answer(s, r, cx).Refused?
    ensures var errors, code, b := Answer(s, r, cx).errors, Strip(r.code), Strip(r.batch);
      var modeOk := r.mode == "count" || r.mode == "delta";
      var codeOk := code != "" && exists i | 0 <= i < |s.products| :: s.products[i].code == Some(code) && !s.products[i].deleted;
      && ("mode" in errors || "code" in errors || "batch" in errors || "quantity" in errors || "op_date" in errors || "form" in errors)
      && After(s, r, cx) == s
      && ("mode" in errors <==> !modeOk) && ("code" in errors <==> modeOk && !codeOk)
      && ("batch" in errors ==> modeOk && codeOk)
      && ("quantity" in errors || "op_date" in errors || "form" in errors ==>
            modeOk && codeOk && b != "" && b in s.batches && cx.allowed(s.batches[b].warehouse))
      && ("op_date" in errors ==> Strip(r.opDate) != "" && OpDate(r.opDate, cx).Err?)
      && ("form" in errors ==> cx.raced)
  {
    var i, b := ActiveProduct(s.products, Strip(r.code)), Strip(r.batch);
    hide Strip, ActiveProduct, BatchAnswer, OpDate;
    FieldNames();
    if i < |s.products| {
      assert s.products[i].code == Some(Strip(r.code));
      if OwnBatch(s, i, b, cx) && BatchAnswer(s, r, cx, i, b).Refused? { BatchRefused(s, r, cx, i, b); }
    }
  }

  lemma BatchRefused(s: Stock, r: Request, cx: Context, i: nat, b: string)
    requires i < |s.products| && b in s.batches && BatchAnswer(s, r, cx, i, b).Refused?
    ensures var errors := BatchAnswer(s, r, cx, i, b).errors;
      && ("quantity" in errors || "op_date" in errors || "form" in errors)
      && "mode" !in errors && "code" !in errors && "batch" !in errors
      && ("op_date" in errors ==> Strip(r.opDate) != "" && OpDate(r.opDate, cx).Err?)
      && ("form" in errors ==> cx.raced)
  {
    var value, date := ParseValue(r.mode, r.value, s.batches[b].quantity), OpDate(r.opDate, cx);
    assert date.Err? ==> Strip(r.opDate) != "";
    FieldNames();
    hide ParseValue, Strip, OpDate;
    assert value.Bad? ==> "quantity" in Problems(value, date);
    assert date.Err? ==> "op_date" in Problems(value, date);
  }

  lemma FieldNames()
    ensures "mode" != "code" && "mode" != "batch" && "mode" != "quantity" && "mode" != "op_date" && "mode" != "form"
    ensures "code" != "batch" && "code" != "quantity" && "code" != "op_date" && "code" != "form"
    ensures "batch" != "quantity" && "batch" != "op_date" && "batch" != "form"
    ensures "quantity" != "op_date" && "quantity" != "form" && "op_date" != "form"
  {
    assert "mode"[0] != "code"[0] && "mode"[0] != "form"[0] && "code"[0] != "form"[0];
  }

  /** What is written for a correction: one row for the active product with this code and the picked batch,
      with the change, the note if there is one, the mode, and the business date or today. The answer is what
      the product then has. */
  lemma CorrectionRow(s: Stock, r: Request, cx: Context)
    requires Answer(s, r, cx).Written?
    ensures var b, note, date, now := Strip(r.batch), Strip(r.note), Strip(r.opDate), After(s, r, cx);
      && b in s.batches && cx.allowed(s.batches[b].warehouse) && b in now.batches
      && (date != "" ==> cx.parseDate(date).Some?)
      && now.operations == s.operations +
           [Operation("correction", s.batches[b].product, Some(b), now.batches[b].quantity - s.batches[b].quantity,
                      Payload(if note == "" then None else Some(note), r.mode),
                      IsoText.IsoDate(if date == "" then cx.today else cx.parseDate(date).value))]
      && exists i | 0 <= i < |s.products| ::
           && s.products[i].code == Some(Strip(r.code)) && !s.products[i].deleted && s.products[i].id == s.batches[b].product
           && i < |now.products| && Answer(s, r, cx) == Written(now.products[i].quantity)
  {
    var i := ActiveProduct(s.products, Strip(r.code));
    hide ParseValue, Strip, ActiveProduct, IsoText.IsoDate, Less;
    assert s.products[i].code == Some(Strip(r.code));
  }

  /** A request for an active product and an own batch with a readable value and date. */
  ghost predicate Acceptable(s: Stock, r: Request, cx: Context) {
    var i, b := ActiveProduct(s.products, Strip(r.code)), Strip(r.batch);
    && (r.mode == "count" || r.mode == "delta") && Strip(r.code) != ""
    && i < |s.products| && OwnBatch(s, i, b, cx)
    && ParseValue(r.mode, r.value, s.batches[b].quantity).Delta? && OpDate(r.opDate, cx).Ok?
  }

  /** A valid nonzero change is written exactly when it is confirmed or leaves at least zero, given that
      the database takes the row. */
  lemma WrittenExactlyWhen(s: Stock, r: Request, cx: Context)
    ensures Answer(s, r, cx).Written? <==>
      && Acceptable(s, r, cx)
      && var remaining := s.batches[Strip(r.batch)].quantity;
         var delta := ParseValue(r.mode, r.value, remaining).n;
         && delta != 0 && (r.confirm == "1" || remaining + delta >= 0)
         && Fits(delta) && !cx.raced
    ensures Answer(s, r, cx).Oversell? ==>
      Acceptable(s, r, cx) && r.confirm != "1" && s.batches[Strip(r.batch)].quantity < Answer(s, r, cx).requested
  {
    hide OpDate, ParseValue, Strip, ActiveProduct, OwnBatch;
  }

  /** The gate is not about removals alone: an addition that does not bring a batch back to zero is asked back. */
  lemma AdditionAskedBack(s: Stock, r: Request, cx: Context)
    requires Acceptable(s, r, cx) && r.mode == "delta" && r.confirm != "1" && AllDigits(Strip(r.value))
    requires 0 < Number(Strip(r.value)) < -s.batches[Strip(r.batch)].quantity
    ensures Answer(s, r, cx) == Oversell(s.batches[Strip(r.batch)].quantity, 0 - Number(Strip(r.value)))
    ensures After(s, r, cx) == s
  {
    MinusIsNoDigit(Strip(r.value));
    hide OpDate, Strip, ActiveProduct, Number, AllDigits, OwnBatch;
  }

  /** Without a confirmed over-removal no batch ever goes below zero. */
  lemma {:induction false} UnconfirmedNeverNegative(s: Stock, requests: seq<(Request, Context)>, b: string)
    requires b in s.batches && s.batches[b].quantity >= 0
    requires forall k | 0 <= k < |requests| :: requests[k].0.confirm != "1"
    ensures b in RunAll(s, requests).batches && RunAll(s, requests).batches[b].quantity >= 0
  {
    if requests != [] {
      var n := |requests| - 1;
      var before, r, cx := RunAll(s, requests[..n]), requests[n].0, requests[n].1;
      UnconfirmedNeverNegative(s, requests[..n], b);
      hide ParseValue, OpDate, Strip, ActiveProduct, OwnBatch, RunAll;
      assert RunAll(s, requests) == After(before, r, cx) by { RunStep(s, requests); }
    }
  }

  lemma RunStep(s: Stock, requests: seq<(Request, Context)>)
    requires requests != []
    ensures var n := |requests| - 1;
      RunAll(s, requests) == After(RunAll(s, requests[..n]), requests[n].0, requests[n].1)
  {
  }

  /** A written count leaves nothing to do: the same request again is refused as no change. */
  lemma CountTwiceChangesNothing(s: Stock, r: Request, cx: Context)
    requires r.mode == "count" && Answer(s, r, cx).Written?
    ensures Answer(After(s, r, cx), r, cx) == Refused(map["quantity" := NothingChanged])
  {
    var i, now := ActiveProduct(s.products, Strip(r.code)), After(s, r, cx);
    hide OpDate, Strip;
    SameActiveProduct(s.products, now.products, Strip(r.code));
    hide ActiveProduct;
  }

  lemma {:induction false} SameActiveProduct(a: seq<Product>, b: seq<Product>, code: string)
    requires |a| == |b| && forall k | 0 <= k < |a| :: a[k].code == b[k].code && a[k].deleted == b[k].deleted
    ensures ActiveProduct(a, code) == ActiveProduct(b, code)
  {
    if a != [] { SameActiveProduct(a[1..], b[1..], code); }
  }

  /* ---------- the business date ---------- */

  /** An accepted date lies between the floor and today, by the calendar and not only as text. */
  lemma AcceptedDateIsInRange(raw: string, cx: Context)
    ensures OpDate(raw, cx).Ok? && OpDate(raw, cx).value.Some? ==>
      Calendar.DayNumber(OLDEST) <= Calendar.DayNumber(OpDate(raw, cx).value.value) <= Calendar.DayNumber(cx.today)
    ensures Strip(raw) != "" && cx.parseDate(Strip(raw)).Some?
            && Calendar.DayNumber(OLDEST) <= Calendar.DayNumber(cx.parseDate(Strip(raw)).value) <= Calendar.DayNumber(cx.today)
            ==> OpDate(raw, cx) == Ok(cx.parseDate(Strip(raw)))
  {
    hide Strip, Calendar.DayNumber, IsoText.IsoDate;
    if cx.parseDate(Strip(raw)).Some? {
      var d := cx.parseDate(Strip(raw)).value;
      IsoText.IsoDateOrder(cx.today, d);
      Calendar.DayNumberOrder(cx.today, d);
      Calendar.DayNumberOrder(d, OLDEST);
    }
  }
}
