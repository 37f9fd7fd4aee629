/** app/services/catalog.py: product cards, the audit chain of their nine prices, and the uniqueness of an
    active product's code. */
module Catalog {
  import opened Base
  import opened Text
  import Money

  const FIELDS := 9

  /** The audit order of the price fields, and the form keys their errors go under. */
  const PRICE_KEYS: seq<string> :=
    ["cost", "sale", "min_sale", "cost_uah", "sale_uah", "min_sale_uah", "cost_eur", "sale_eur", "min_sale_eur"]

  type Prices = s: seq<Option<int>> | |s| == FIELDS witness [None, None, None, None, None, None, None, None, None]

  /** The posted prices; None is a field that was not submitted, which only UAH and EUR ones may be. */
  type Posted = s: seq<Option<string>> | |s| == FIELDS && s[0].Some? && s[1].Some? && s[2].Some? witness [Some(""), Some(""), Some(""), Some(""), Some(""), Some(""), Some(""), Some(""), Some("")]

  datatype Form = Form(code: string, name: string, category: string, prices: Posted, lowStock: string, stale: string)

  datatype Product = Product(code: Option<string>, name: string, nameLc: Option<string>, category: Option<string>,
                             prices: Prices, lowStock: Option<int>, stale: Option<int>, quantity: int, deleted: bool)

  /** The batch-less ledger rows of a card. */
  datatype Audit = Created(product: string, code: string, name: string)
                 | PriceChange(product: string, field: nat, previous: Option<int>, current: Option<int>)
                 | Edited(product: string, fields: seq<string>)

  datatype Store = Store(products: map<string, Product>, audit: seq<Audit>)

  datatype Problem = NoCode | NoName | DuplicateCode | BadPrice | BadThreshold | NotFound | IsDeleted

  /** Raised: an exception the service does not handle; the transaction is lost with it. */
  datatype Outcome = Saved(id: string) | Refused(errors: map<string, Problem>) | Raised
                   | Deleted | Blocked(quantity: int) | Nothing

  /** `raced`: another session's commit makes this one's violate a unique index. */
  datatype Call = Create(id: string, form: Form, raced: bool) | Update(id: string, form: Form, raced: bool)
                | SoftDelete(id: string) | QuickDelete(id: string) | Restore(id: string)

  /* ---------- reading the form ---------- */

  /** parse_optional_cents; None is the error. */
  function ParseCents(raw: string): Option<Option<int>> {
    var s := Strip(raw);
    if s == "" then Some(None)
    else
      match Money.ToCents(s)
      case Ok(cents) => if cents >= 0 then Some(Some(cents)) else None
      case Err(_) => None
  }

  /** A field that was not submitted keeps its price. */
  function NewPrice(raw: Option<string>, current: Option<int>): Option<Option<int>> {
    match raw case None => Some(current) case Some(text) => ParseCents(text)
  }

  const MAX_DIGITS := 4300

  datatype Threshold = Unset | Set(n: int) | Bad | TooLong

  /** parse_optional_int; int() itself raises beyond 4300 digits. */
  function ParseInt(raw: string): Threshold {
    var s := Strip(raw);
    if s == "" then Unset
    else if !AllDigits(s) then Bad
    else if |s| > MAX_DIGITS then TooLong
    else if Number(s) <= 2_147_483_647 then Set(Number(s))
    else Bad
  }

  function Stored(t: Threshold): Option<int> {
    if t.Set? then Some(t.n) else None
  }

  /** An active product other than `id` has this code. */
  predicate Taken(products: map<string, Product>, code: string, id: Option<string>) {
    exists other <- products :: Some(other) != id && !products[other].deleted && products[other].code == Some(code)
  }

  function CodeProblem(products: map<string, Product>, code: string, id: Option<string>): Option<Problem> {
    if code == "" then Some(NoCode) else if Taken(products, code, id) then Some(DuplicateCode) else None
  }

  function Noted(errors: map<string, Problem>, key: string, problem: Option<Problem>): map<string, Problem> {
    match problem case None => errors case Some(p) => errors[key := p]
  }

  function PriceProblem(raw: Option<string>): Option<Problem> {
    if raw.Some? && ParseCents(raw.value).None? then Some(BadPrice) else None
  }

  function PriceProblems(errors: map<string, Problem>, posted: Posted, n: nat): map<string, Problem>
    requires n <= FIELDS
  {
    if n == 0 then errors
    else Noted(PriceProblems(errors, posted, n - 1), PRICE_KEYS[n - 1], PriceProblem(posted[n - 1]))
  }

  lemma PriceRead(errors: map<string, Problem>, posted: Posted, f: nat)
    requires f < FIELDS
    ensures PriceProblems(errors, posted, f + 1) ==
      var before := PriceProblems(errors, posted, f);
      if posted[f].Some? && ParseCents(posted[f].value).None? then before[PRICE_KEYS[f] := BadPrice] else before
  {
    hide ParseCents;
  }

  lemma PricesUnread(posted: Posted)
    ensures forall errors :: PriceProblems(errors, posted, 0) == errors
  {
  }

  /** Every problem of a form, for the product `id` or for a new one. */
  function Problems(products: map<string, Product>, id: Option<string>, form: Form): map<string, Problem> {
    var coded := Noted(map[], "code", CodeProblem(products, Strip(form.code), id));
    var named := Noted(coded, "name", if Strip(form.name) == "" then Some(NoName) else None);
    var priced := PriceProblems(named, form.prices, FIELDS);
    var low := Noted(priced, "low_stock_threshold", if ParseInt(form.lowStock).Bad? then Some(BadThreshold) else None);
    Noted(low, "stale_days", if ParseInt(form.stale).Bad? then Some(BadThreshold) else None)
  }

  predicate Unreadable(form: Form) {
    ParseInt(form.lowStock).TooLong? || ParseInt(form.stale).TooLong?
  }

  function NewPrices(posted: Posted, current: Prices): Prices {
    seq(FIELDS, f requires 0 <= f < FIELDS =>
      match NewPrice(posted[f], current[f]) case Some(price) => price case None => current[f])
  }

  const NO_PRICES: Prices := [None, None, None, None, None, None, None, None, None]

  /** The card as the form describes it; what the form does not hold comes from `base`. */
  function Described(base: Product, form: Form, lower: string -> string): Product {
    var name, category := Strip(form.name), Strip(form.category);
    base.(code := Some(Strip(form.code)), name := name, nameLc := Some(lower(name)),
          category := if category == "" then None else Some(category),
          prices := NewPrices(form.prices, base.prices),
          lowStock := Stored(ParseInt(form.lowStock)), stale := Stored(ParseInt(form.stale)))
  }

  const BLANK := Product(None, "", None, None, NO_PRICES, None, None, 0, false)

  /** What SQLite can bind: a price beyond it raises when it is written. */
  predicate Bindable(was: Prices, now: Prices) {
    forall f | 0 <= f < FIELDS :: now[f] != was[f] && now[f].Some? ==> now[f].value < 0x8000_0000_0000_0000
  }

  /* ---------- the audit rows of an update ---------- */

  /** One price_change per changed price field, in field order. */
  function PriceOps(id: string, was: Prices, now: Prices, n: nat): seq<Audit>
    requires n <= FIELDS
  {
    if n == 0 then []
    else
      PriceOps(id, was, now, n - 1)
      + (if was[n - 1] != now[n - 1] then [PriceChange(id, n - 1, was[n - 1], now[n - 1])] else [])
  }

  /** sorted(): the changed non-price fields. */
  function ChangedFields(was: Product, now: Product): seq<string> {
    (if was.category != now.category then ["category"] else [])
    + (if was.code != now.code then ["code"] else [])
    + (if was.lowStock != now.lowStock then ["low_stock_threshold"] else [])
    + (if was.name != now.name then ["name"] else [])
    + (if was.stale != now.stale then ["stale_days"] else [])
  }

  function UpdateOps(id: string, was: Product, now: Product): seq<Audit> {
    var fields := ChangedFields(was, now);
    PriceOps(id, was.prices, now.prices, FIELDS) + (if fields == [] then [] else [Edited(id, fields)])
  }

  /* ---------- the calls ---------- */

  function Active(s: Store, id: string): bool {
    id in s.products && !s.products[id].deleted
  }

  function Answer(s: Store, call: Call, lower: string -> string): Outcome {
    match call
    case Create(id, form, raced) =>
      var errors := Problems(s.products, None, form);
      if Unreadable(form) then Raised
      else if errors != map[] then Refused(errors)
      else if !Bindable(NO_PRICES, NewPrices(form.prices, NO_PRICES)) then Raised
      else if raced || id in s.products then Refused(map["code" := DuplicateCode])
      else Saved(id)
    case Update(id, form, raced) =>
      if id !in s.products then Refused(map["product" := NotFound])
      else if s.products[id].deleted then Refused(map["product" := IsDeleted])
      else
        var was, errors := s.products[id], Problems(s.products, Some(id), form);
        var now := Described(was, form, lower);
        if Unreadable(form) then Raised
        else if errors != map[] then Refused(errors)
        else if UpdateOps(id, was, now) == [] then Saved(id)
        else if !Bindable(was.prices, now.prices) then Raised
        else if raced then Refused(map["code" := DuplicateCode])
        else Saved(id)
    case SoftDelete(id) => if Active(s, id) then Deleted else Nothing
    case QuickDelete(id) =>
      if !Active(s, id) then Nothing
      else if s.products[id].quantity > 0 then Blocked(s.products[id].quantity)
      else Deleted
    case Restore(id) =>
      if id !in s.products || !s.products[id].deleted then Nothing
      else if s.products[id].code.Some? && Taken(s.products, s.products[id].code.value, Some(id)) then Raised
      else Saved(id)
  }

  function After(s: Store, call: Call, lower: string -> string): Store {
    match (call, Answer(s, call, lower))
    case (Create(id, form, _), Saved(_)) =>
      var card := Described(BLANK, form, lower);
      Store(s.products[id := card], s.audit + [Created(id, Strip(form.code), Strip(form.name))])
    case (Update(id, form, _), Saved(_)) =>
      var was := s.products[id];
      var now := Described(was, form, lower);
      if UpdateOps(id, was, now) == [] then s
      else Store(s.products[id := now], s.audit + UpdateOps(id, was, now))
    case (SoftDelete(id), Deleted) => s.(products := s.products[id := s.products[id].(deleted := true)])
    case (QuickDelete(id), Deleted) => s.(products := s.products[id := s.products[id].(deleted := true)])
    case (Restore(id), Saved(_)) => s.(products := s.products[id := s.products[id].(deleted := false)])
    case _ => s
  }

  function Run(s: Store, calls: seq<Call>, lower: string -> string): Store {
    if calls == [] then s
    else After(Run(s, calls[..|calls| - 1], lower), calls[|calls| - 1], lower)
  }

  class CatalogStore {
    var products: map<string, Product>
    var audit: seq<Audit>

    ghost function Contents(): Store
      reads this
    {
      Store(products, audit)
    }

    constructor ()
      ensures Contents() == Store(map[], [])
    {
      products, audit := map[], [];
    }

    /** The errors and values of a form, collected field by field. */
    method ReadForm(id: Option<string>, form: Form) returns (errors: map<string, Problem>)
      ensures errors == Problems(products, id, form)
    {
      hide Taken, ParseCents, ParseInt, Strip;
      PricesUnread(form.prices);
      errors := map[];
      var code := Strip(form.code);
      if code == "" {
        errors := errors["code" := NoCode];
      }
      if Strip(form.name) == "" {
        errors := errors["name" := NoName];
      }
      if code != "" && Taken(products, code, id) {
        errors := errors["code" := DuplicateCode];
      }
      ghost var named := errors;
      assert named == Noted(Noted(map[], "code", CodeProblem(products, code, id)), "name",
                            if Strip(form.name) == "" then Some(NoName) else None);
      hide PriceProblems, PriceProblem;
      var f := 0;
      while f < FIELDS
        invariant 0 <= f <= FIELDS
        invariant errors == PriceProblems(named, form.prices, f)
      {
        PriceRead(named, form.prices, f);
        if form.prices[f].Some? && ParseCents(form.prices[f].value).None? {
          errors := errors[PRICE_KEYS[f] := BadPrice];
        }
        f := f + 1;
      }
      if ParseInt(form.lowStock).Bad? {
        errors := errors["low_stock_threshold" := BadThreshold];
      }
      if ParseInt(form.stale).Bad? {
        errors := errors["stale_days" := BadThreshold];
      }
    }

    method CreateProduct(id: string, form: Form, raced: bool, lower: string -> string) returns (outcome: Outcome)
      modifies this
      ensures outcome == Answer(old(Contents()), Create(id, form, raced), lower)
      ensures Contents() == After(old(Contents()), Create(id, form, raced), lower)
      ensures outcome.Saved? || outcome.Deleted? || Contents() == old(Contents())
    {
      hide Problems, Unreadable, Bindable, NewPrices, Strip, ParseInt;
      if Unreadable(form) {
        return Raised;
      }
      var errors := ReadForm(None, form);
      if errors != map[] {
        return Refused(errors);
      }
      var prices := NewPrices(form.prices, NO_PRICES);
      if !Bindable(NO_PRICES, prices) {
        return Raised;
      }
      if raced || id in products {
        return Refused(map["code" := DuplicateCode]);
      }
      var code, name, category := Strip(form.code), Strip(form.name), Strip(form.category);
      var card := Product(Some(code), name, Some(lower(name)), if category == "" then None else Some(category), prices,
                          Stored(ParseInt(form.lowStock)), Stored(ParseInt(form.stale)), 0, false);
      assert card == Described(BLANK, form, lower);
      products, audit := products[id := card], audit + [Created(id, code, name)];
      return Saved(id);
    }

    /** The price_change rows, then the product_edited row, in one transaction with the card. */
    method StageOps(id: string, was: Product, now: Product) returns (staged: seq<Audit>)
      ensures staged == UpdateOps(id, was, now)
    {
      staged := [];
      var f := 0;
      while f < FIELDS
        invariant 0 <= f <= FIELDS
        invariant staged == PriceOps(id, was.prices, now.prices, f)
      {
        if was.prices[f] != now.prices[f] {
          staged := staged + [PriceChange(id, f, was.prices[f], now.prices[f])];
        }
        f := f + 1;
      }
      var fields := ChangedFields(was, now);
      if fields != [] {
        staged := staged + [Edited(id, fields)];
      }
    }

    method UpdateProduct(id: string, form: Form, raced: bool, lower: string -> string) returns (outcome: Outcome)
      modifies this
      ensures outcome == Answer(old(Contents()), Update(id, form, raced), lower)
      ensures Contents() == After(old(Contents()), Update(id, form, raced), lower)
      ensures outcome.Saved? || outcome.Deleted? || Contents() == old(Contents())
    {
      hide Problems, Unreadable, Bindable, NewPrices, UpdateOps, Described;
      if id !in products {
        return Refused(map["product" := NotFound]);
      }
      var was := products[id];
      if was.deleted {
        return Refused(map["product" := IsDeleted]);
      }
      if Unreadable(form) {
        return Raised;
      }
      var errors := ReadForm(Some(id), form);
      if errors != map[] {
        return Refused(errors);
      }
      var now := Described(was, form, lower);
      var staged := StageOps(id, was, now);
      if staged == [] {
        return Saved(id);
      }
      if !Bindable(was.prices, now.prices) {
        return Raised;
      }
      if raced {
        return Refused(map["code" := DuplicateCode]);
      }
      products, audit := products[id := now], audit + staged;
      return Saved(id);
    }

    method SoftDeleteProduct(id: string, lower: string -> string) returns (outcome: Outcome)
      modifies this
      ensures outcome == Answer(old(Contents()), SoftDelete(id), lower)
      ensures Contents() == After(old(Contents()), SoftDelete(id), lower)
      ensures outcome.Saved? || outcome.Deleted? || Contents() == old(Contents())
    {
      if id !in products || products[id].deleted {
        return Nothing;
      }
      products := products[id := products[id].(deleted := true)];
      return Deleted;
    }

    method QuickDeleteProduct(id: string, lower: string -> string) returns (outcome: Outcome)
      modifies this
      ensures outcome == Answer(old(Contents()), QuickDelete(id), lower)
      ensures Contents() == After(old(Contents()), QuickDelete(id), lower)
      ensures outcome.Saved? || outcome.Deleted? || Contents() == old(Contents())
    {
      if id !in products || products[id].deleted {
        return Nothing;
      }
      if products[id].quantity > 0 {
        return Blocked(products[id].quantity);
      }
      products := products[id := products[id].(deleted := true)];
      return Deleted;
    }

    /** There is no check of the code: the unique index refuses the commit, and nobody catches that. */
    method RestoreProduct(id: string, lower: string -> string) returns (outcome: Outcome)
      modifies this
      ensures outcome == Answer(old(Contents()), Restore(id), lower)
      ensures Contents() == After(old(Contents()), Restore(id), lower)
      ensures outcome.Saved? || outcome.Deleted? || Contents() == old(Contents())
    {
      if id !in products || !products[id].deleted {
        return Nothing;
      }
      var before := products;
      products := products[id := products[id].(deleted := false)];
      if products[id].code.Some? && Taken(products, products[id].code.value, Some(id)) {
        products := before;
        return Raised;
      }
      return Saved(id);
    }
  }

  /* ---------- the price chain ---------- */

  /** The price_change rows of one field of one product lead from one price to another, each starting
      where the one before it ended and each changing something. */
  ghost predicate Links(audit: seq<Audit>, id: string, f: nat, start: Option<int>, end: Option<int>) {
    if audit == [] then start == end
    else
      var front, last := audit[..|audit| - 1], audit[|audit| - 1];
      if last.PriceChange? && last.product == id && last.field == f
      then last.current == end && last.previous != end && Links(front, id, f, start, last.previous)
      else Links(front, id, f, start, end)
  }

  lemma {:induction false} LinksAppend(a: seq<Audit>, b: seq<Audit>, id: string, f: nat,
                                       start: Option<int>, middle: Option<int>, end: Option<int>)
    requires Links(a, id, f, start, middle) && Links(b, id, f, middle, end)
    ensures Links(a + b, id, f, start, end)
  {
    if b == [] {
      assert a + b == a;
    } else {
      var n := |b| - 1;
      assert (a + b)[..|a| + n] == a + b[..n];
      if b[n].PriceChange? && b[n].product == id && b[n].field == f {
        LinksAppend(a, b[..n], id, f, start, middle, b[n].previous);
      } else {
        LinksAppend(a, b[..n], id, f, start, middle, end);
      }
    }
  }

  lemma {:induction false} LinksOfOthers(audit: seq<Audit>, id: string, f: nat, price: Option<int>)
    requires forall k | 0 <= k < |audit| :: audit[k].product != id
    ensures Links(audit, id, f, price, price)
  {
    if audit != [] { LinksOfOthers(audit[..|audit| - 1], id, f, price); }
  }

  lemma {:induction false} PriceOpsLink(id: string, was: Prices, now: Prices, n: nat, f: nat)
    requires n <= FIELDS && f < FIELDS
    ensures Links(PriceOps(id, was, now, n), id, f, was[f], if f < n then now[f] else was[f])
  {
    if n > 0 {
      PriceOpsLink(id, was, now, n - 1, f);
      var front := PriceOps(id, was, now, n - 1);
      if was[n - 1] != now[n - 1] {
        assert PriceOps(id, was, now, n)[..|front|] == front;
      } else {
        assert PriceOps(id, was, now, n) == front;
      }
    }
  }

  lemma {:induction false} PriceOpsAreOwn(id: string, was: Prices, now: Prices, n: nat, k: nat)
    requires n <= FIELDS && k < |PriceOps(id, was, now, n)|
    ensures PriceOps(id, was, now, n)[k].product == id
  {
    if k < |PriceOps(id, was, now, n - 1)| {
      PriceOpsAreOwn(id, was, now, n - 1, k);
    }
  }

  lemma UpdateOpsLink(id: string, was: Product, now: Product, f: nat)
    requires f < FIELDS
    ensures Links(UpdateOps(id, was, now), id, f, was.prices[f], now.prices[f])
  {
    hide PriceOps, ChangedFields;
    PriceOpsLink(id, was.prices, now.prices, FIELDS, f);
    var fields := ChangedFields(was, now);
    var tail := if fields == [] then [] else [Edited(id, fields)];
    assert Links(tail, id, f, now.prices[f], now.prices[f]) by {
      if fields != [] { assert tail[..0] == []; }
    }
    LinksAppend(PriceOps(id, was.prices, now.prices, FIELDS), tail, id, f, was.prices[f], now.prices[f], now.prices[f]);
  }

  lemma UpdateOpsAreOwn(id: string, was: Product, now: Product, k: nat)
    requires k < |UpdateOps(id, was, now)|
    ensures UpdateOps(id, was, now)[k].product == id
  {
    hide PriceOps, ChangedFields;
    if k < |PriceOps(id, was.prices, now.prices, FIELDS)| {
      PriceOpsAreOwn(id, was.prices, now.prices, FIELDS, k);
    }
  }

  /** The rows one call adds to the audit. */
  function Added(s: Store, call: Call, lower: string -> string): seq<Audit> {
    if !Answer(s, call, lower).Saved? then []
    else
      match call
      case Create(id, form, _) => [Created(id, Strip(form.code), Strip(form.name))]
      case Update(id, form, _) => UpdateOps(id, s.products[id], Described(s.products[id], form, lower))
      case _ => []
  }

  lemma CallAdds(s: Store, call: Call, lower: string -> string)
    ensures After(s, call, lower).audit == s.audit + Added(s, call, lower)
    ensures s.products.Keys <= After(s, call, lower).products.Keys
    ensures forall k | 0 <= k < |Added(s, call, lower)| :: Added(s, call, lower)[k].product in After(s, call, lower).products
  {
    hide Problems, Unreadable, Bindable, Described, UpdateOps;
    forall k | 0 <= k < |Added(s, call, lower)|
      ensures Added(s, call, lower)[k].product in After(s, call, lower).products
    {
      if call.Update? {
        UpdateOpsAreOwn(call.id, s.products[call.id], Described(s.products[call.id], call.form, lower), k);
      }
    }
  }

  /** One call moves a price by exactly the chain of rows it adds. */
  lemma CallLinks(s: Store, call: Call, lower: string -> string, id: string, f: nat)
    requires id in s.products && f < FIELDS
    ensures id in After(s, call, lower).products
    ensures Links(Added(s, call, lower), id, f, s.products[id].prices[f], After(s, call, lower).products[id].prices[f])
  {
    CallAdds(s, call, lower);
    hide Problems, Unreadable, Bindable, Described, UpdateOps;
    if call.Update? && Answer(s, call, lower).Saved? {
      var was, now := s.products[call.id], Described(s.products[call.id], call.form, lower);
      if call.id == id {
        UpdateOpsLink(id, was, now, f);
        if UpdateOps(id, was, now) == [] { assert After(s, call, lower) == s; }
      } else {
        forall k | 0 <= k < |UpdateOps(call.id, was, now)| ensures UpdateOps(call.id, was, now)[k].product != id {
          UpdateOpsAreOwn(call.id, was, now, k);
        }
        LinksOfOthers(UpdateOps(call.id, was, now), id, f, s.products[id].prices[f]);
      }
    } else if call.Create? && Answer(s, call, lower).Saved? {
      LinksOfOthers(Added(s, call, lower), id, f, s.products[id].prices[f]);
    }
  }

  const EMPTY := Store(map[], [])

  ghost predicate AuditKnown(s: Store) {
    forall k | 0 <= k < |s.audit| :: s.audit[k].product in s.products
  }

  lemma {:induction false} RunAuditKnown(calls: seq<Call>, lower: string -> string)
    ensures AuditKnown(Run(EMPTY, calls, lower))
  {
    if calls != [] {
      var n := |calls| - 1;
      RunAuditKnown(calls[..n], lower);
      CallAdds(Run(EMPTY, calls[..n], lower), calls[n], lower);
      hide After, Added;
    }
  }

  /** The call that created a product in a run. */
  ghost predicate CreatedBy(calls: seq<Call>, lower: string -> string, k: nat, id: string) {
    k < |calls| && calls[k].Create? && calls[k].id == id && Answer(Run(EMPTY, calls[..k], lower), calls[k], lower).Saved?
  }

  /** Over every run, all price_change rows of a product's field form one chain from the price it was
      created with to the price it now stores. */
  lemma {:induction false} PriceHistory(calls: seq<Call>, lower: string -> string, id: string, f: nat) returns (k: nat)
    requires f < FIELDS && id in Run(EMPTY, calls, lower).products
    ensures CreatedBy(calls, lower, k, id)
    ensures var s := Run(EMPTY, calls, lower);
      Links(s.audit, id, f, NewPrices(calls[k].form.prices, NO_PRICES)[f], s.products[id].prices[f])
  {
    var n := |calls| - 1;
    var before, call := Run(EMPTY, calls[..n], lower), calls[n];
    assert Run(EMPTY, calls, lower) == After(before, call, lower);
    hide After, Answer, Added, NewPrices, Links, Run;
    CallAdds(before, call, lower);
    if id in before.products {
      k := PriceHistory(calls[..n], lower, id, f);
      assert calls[..n][..k] == calls[..k];
      CallLinks(before, call, lower, id, f);
      LinksAppend(before.audit, Added(before, call, lower), id, f, NewPrices(calls[k].form.prices, NO_PRICES)[f],
                  before.products[id].prices[f], After(before, call, lower).products[id].prices[f]);
    } else {
      k := n;
      RunAuditKnown(calls[..n], lower);
      FirstPrice(before, call, lower, id, f);
    }
  }

  lemma FirstPrice(s: Store, call: Call, lower: string -> string, id: string, f: nat)
    requires f < FIELDS && AuditKnown(s) && id !in s.products && id in After(s, call, lower).products
    ensures call.Create? && call.id == id && Answer(s, call, lower).Saved?
    ensures var price := NewPrices(call.form.prices, NO_PRICES)[f];
      After(s, call, lower).products[id].prices[f] == price
      && Links(After(s, call, lower).audit, id, f, price, price)
  {
    hide Problems, Unreadable, Bindable, NewPrices, UpdateOps, Strip;
    var price := NewPrices(call.form.prices, NO_PRICES)[f];
    LinksOfOthers(s.audit, id, f, price);
    var created := [Created(id, Strip(call.form.code), Strip(call.form.name))];
    assert Links(created, id, f, price, price) by { assert created[..0] == []; }
    LinksAppend(s.audit, created, id, f, price, price, price);
  }

  /* ---------- errors and prices ---------- */

  lemma {:induction false} PriceProblemsKeep(errors: map<string, Problem>, posted: Posted, n: nat)
    requires n <= FIELDS
    ensures errors.Keys <= PriceProblems(errors, posted, n).Keys
    ensures forall f | 0 <= f < n :: PriceProblem(posted[f]).Some? ==> PRICE_KEYS[f] in PriceProblems(errors, posted, n)
  {
    hide PriceProblem;
    if n > 0 { PriceProblemsKeep(errors, posted, n - 1); }
  }

  /** A form without problems has a free code, a name and nothing but readable prices. */
  lemma NoProblems(products: map<string, Product>, id: Option<string>, form: Form)
    requires Problems(products, id, form) == map[]
    ensures Strip(form.code) != "" && Strip(form.name) != "" && !Taken(products, Strip(form.code), id)
    ensures forall f | 0 <= f < FIELDS :: PriceProblem(form.prices[f]).None?
  {
    hide PriceProblem, Strip, ParseInt, Taken;
    var coded := Noted(map[], "code", CodeProblem(products, Strip(form.code), id));
    var named := Noted(coded, "name", if Strip(form.name) == "" then Some(NoName) else None);
    var priced := PriceProblems(named, form.prices, FIELDS);
    PriceProblemsKeep(named, form.prices, FIELDS);
    assert priced.Keys <= Problems(products, id, form).Keys;
    assert priced.Keys == {};
    forall f | 0 <= f < FIELDS ensures PriceProblem(form.prices[f]).None? {
      assert PRICE_KEYS[f] !in priced;
    }
    assert "code" !in priced && "name" !in priced;
  }

  lemma {:induction false} PriceProblemKeys(errors: map<string, Problem>, posted: Posted, n: nat, key: string)
    requires n <= FIELDS
    ensures key in PriceProblems(errors, posted, n)
            <==> key in errors || exists f | 0 <= f < n :: key == PRICE_KEYS[f] && PriceProblem(posted[f]).Some?
  {
    hide PriceProblem;
    if n > 0 { PriceProblemKeys(errors, posted, n - 1, key); }
  }

  /** And only such a form is without problems: the converse, thresholds included. */
  lemma AcceptedExactly(products: map<string, Product>, id: Option<string>, form: Form)
    ensures Problems(products, id, form) == map[] <==>
      && Strip(form.code) != "" && Strip(form.name) != "" && !Taken(products, Strip(form.code), id)
      && (forall f | 0 <= f < FIELDS :: form.prices[f].None? || ParseCents(form.prices[f].value).Some?)
      && !ParseInt(form.lowStock).Bad? && !ParseInt(form.stale).Bad?
  {
    if Problems(products, id, form) == map[] {
      NoProblems(products, id, form);
      ThresholdsRead(products, id, form);
      hide Problems, Taken, Strip, ParseInt, ParseCents;
      assert forall f | 0 <= f < FIELDS :: PriceProblem(form.prices[f]).None?;
    } else {
      ProblemFound(products, id, form);
    }
  }

  lemma ProblemFound(products: map<string, Product>, id: Option<string>, form: Form)
    requires Problems(products, id, form) != map[]
    ensures Strip(form.code) == "" || Strip(form.name) == "" || Taken(products, Strip(form.code), id)
            || (exists f | 0 <= f < FIELDS :: PriceProblem(form.prices[f]).Some?)
            || ParseInt(form.lowStock).Bad? || ParseInt(form.stale).Bad?
  {
    var named := Noted(Noted(map[], "code", CodeProblem(products, Strip(form.code), id)), "name",
                       if Strip(form.name) == "" then Some(NoName) else None);
    var key :| key in Problems(products, id, form);
    PriceProblemKeys(named, form.prices, FIELDS, key);
    hide Strip, ParseInt, Taken, PriceProblem, PriceProblems;
  }

  /** A saved update stores each submitted price as it reads and leaves an unsubmitted one alone; a call
      that is not saved leaves every price, and everything else, alone. */
  lemma UpdateStoresSubmitted(s: Store, id: string, form: Form, raced: bool, lower: string -> string, f: nat)
    requires id in s.products && f < FIELDS
    ensures var call := Update(id, form, raced);
      var price := After(s, call, lower).products[id].prices[f];
      if !Answer(s, call, lower).Saved? then After(s, call, lower) == s
      else if form.prices[f].None? then price == s.products[id].prices[f]
      else ParseCents(form.prices[f].value) == Some(price)
  {
    hide ParseCents, Problems, Unreadable, Bindable, UpdateOps, Strip;
    var call := Update(id, form, raced);
    if Answer(s, call, lower).Saved? {
      NoProblems(s.products, Some(id), form);
      var was, now := s.products[id], Described(s.products[id], form, lower);
      if UpdateOps(id, was, now) == [] { SamePrices(id, was, now); }
    }
  }

  lemma SamePrices(id: string, was: Product, now: Product)
    requires UpdateOps(id, was, now) == []
    ensures was.prices == now.prices
  {
    hide PriceOps;
    assert PriceOps(id, was.prices, now.prices, FIELDS) == [];
    forall f | 0 <= f < FIELDS ensures was.prices[f] == now.prices[f] {
      PriceOpsLink(id, was.prices, now.prices, FIELDS, f);
    }
  }

  /* ---------- what a saved card holds ---------- */

  /** The price a field of the form stands for: an empty text is no price, another one its cents, not negative,
      and a field that was not posted leaves what was there. */
  predicate PriceOf(raw: Option<string>, was: Option<int>, now: Option<int>) {
    match raw
    case None => now == was
    case Some(text) =>
      var v := Strip(text);
      if v == "" then now.None? else now.Some? && now.value >= 0 && Money.ToCents(v) == Ok(now.value)
  }

  /** The threshold a field of the form stands for. */
  predicate ThresholdOf(raw: string, now: Option<int>) {
    var v := Strip(raw);
    if v == "" then now.None? else AllDigits(v) && Number(v) <= 0x7FFF_FFFF && now == Some(Number(v))
  }

  /** Column by column, what the form says. */
  ghost predicate ReadsForm(was: Product, card: Product, form: Form) {
    var name, category := Strip(form.name), Strip(form.category);
    && card.code == Some(Strip(form.code)) && Strip(form.code) != "" && card.name == name != ""
    && card.category == (if category == "" then None else Some(category))
    && ThresholdOf(form.lowStock, card.lowStock) && ThresholdOf(form.stale, card.stale)
    && (forall f | 0 <= f < FIELDS :: PriceOf(form.prices[f], was.prices[f], card.prices[f]))
    && card.quantity == was.quantity && card.deleted == was.deleted
  }

  lemma DescribedReads(products: map<string, Product>, id: Option<string>, base: Product, form: Form, lower: string -> string)
    requires Problems(products, id, form) == map[] && !Unreadable(form)
    ensures ReadsForm(base, Described(base, form, lower), form)
    ensures Described(base, form, lower).nameLc == Some(lower(Strip(form.name)))
  {
    NoProblems(products, id, form);
    ThresholdsRead(products, id, form);
    ThresholdReads(form.lowStock);
    ThresholdReads(form.stale);
    var card := Described(base, form, lower);
    hide Problems, Taken, Strip, ParseInt, ThresholdOf, PriceOf, PriceProblem, NewPrice;
    forall f | 0 <= f < FIELDS ensures PriceOf(form.prices[f], base.prices[f], card.prices[f]) {
      PriceReads(form.prices[f], base.prices[f]);
    }
  }

  lemma PriceReads(raw: Option<string>, was: Option<int>)
    requires PriceProblem(raw).None?
    ensures NewPrice(raw, was).Some? && PriceOf(raw, was, NewPrice(raw, was).value)
  {
    hide Strip, Money.ToCents;
  }

  lemma ThresholdReads(raw: string)
    requires !ParseInt(raw).Bad? && !ParseInt(raw).TooLong?
    ensures ThresholdOf(raw, Stored(ParseInt(raw)))
  {
    hide Strip, Number, AllDigits;
  }

  lemma ThresholdsRead(products: map<string, Product>, id: Option<string>, form: Form)
    requires Problems(products, id, form) == map[]
    ensures !ParseInt(form.lowStock).Bad? && !ParseInt(form.stale).Bad?
  {
    hide PriceProblems, CodeProblem, ParseInt, Strip;
    assert "stale_days" !in Problems(products, id, form) && "low_stock_threshold" !in Problems(products, id, form);
  }

  /** A created card is what the form says, with no stock and not deleted, and one row records it. */
  lemma CreatedCard(s: Store, id: string, form: Form, raced: bool, lower: string -> string)
    requires Answer(s, Create(id, form, raced), lower).Saved?
    ensures var now := After(s, Create(id, form, raced), lower);
      && id !in s.products && now.products == s.products[id := now.products[id]]
      && ReadsForm(BLANK, now.products[id], form) && now.products[id].nameLc == Some(lower(Strip(form.name)))
      && now.products[id].quantity == 0 && !now.products[id].deleted
      && now.audit == s.audit + [Created(id, Strip(form.code), Strip(form.name))]
  {
    DescribedReads(s.products, None, BLANK, form, lower);
    hide Problems, Described, ReadsForm, Strip, Unreadable, Bindable, NewPrices;
    assert BLANK.quantity == 0 && !BLANK.deleted;
    assert Described(BLANK, form, lower).quantity == 0 && !Described(BLANK, form, lower).deleted by { SameStock(BLANK, form, lower); }
  }

  lemma SameStock(base: Product, form: Form, lower: string -> string)
    ensures Described(base, form, lower).quantity == base.quantity && Described(base, form, lower).deleted == base.deleted
  {
    hide NewPrices, Strip, ParseInt;
  }

  /** A saved card is what the form says, no other card changes, and a row names exactly the columns besides
      the prices that did change. */
  lemma UpdatedCard(s: Store, id: string, form: Form, raced: bool, lower: string -> string)
    requires Answer(s, Update(id, form, raced), lower).Saved?
    ensures var now := After(s, Update(id, form, raced), lower);
      && id in s.products && !s.products[id].deleted && now.products == s.products[id := now.products[id]]
      && ReadsForm(s.products[id], now.products[id], form)
      && (now.products != s.products ==> now.products[id].nameLc == Some(lower(Strip(form.name))))
      && EditsNamed(s.products[id], now.products[id], id, now.audit[|s.audit|..])
  {
    hide Answer, After, Problems, Unreadable, Described, ReadsForm, Strip, EditsNamed, UpdateOps;
    UpdateLeaves(s, id, form, raced, lower);
    var was, now := s.products[id], Described(s.products[id], form, lower);
    var ops := UpdateOps(id, was, now);
    DescribedReads(s.products, Some(id), was, form, lower);
    OpsNameEdits(id, was, now);
    AddedRows(s.audit, ops);
    if ops == [] {
      UnchangedCard(id, was, now, form);
      assert s.products == s.products[id := was];
    }
  }

  lemma AddedRows(audit: seq<Audit>, ops: seq<Audit>)
    ensures (audit + ops)[|audit|..] == ops && audit[|audit|..] == []
  {
  }

  lemma UpdateLeaves(s: Store, id: string, form: Form, raced: bool, lower: string -> string)
    requires Answer(s, Update(id, form, raced), lower).Saved?
    ensures id in s.products && !s.products[id].deleted
    ensures Problems(s.products, Some(id), form) == map[] && !Unreadable(form)
    ensures var now := Described(s.products[id], form, lower);
      var ops := UpdateOps(id, s.products[id], now);
      After(s, Update(id, form, raced), lower) == if ops == [] then s else Store(s.products[id := now], s.audit + ops)
  {
    hide Problems, Unreadable, Bindable, Described, UpdateOps;
  }

  lemma UnchangedCard(id: string, was: Product, now: Product, form: Form)
    requires UpdateOps(id, was, now) == [] && ReadsForm(was, now, form)
    ensures ReadsForm(was, was, form) && EditsNamed(was, was, id, [])
  {
    SamePrices(id, was, now);
    NothingEdited(id, was, now);
    SameColumns(was, now, form);
    OpsNameEdits(id, was, was);
    NoOps(id, was);
    hide UpdateOps, ReadsForm, EditsNamed;
  }

  /** The columns an edit row may name. */
  predicate ColumnChanged(was: Product, now: Product, column: string) {
    || (column == "category" && was.category != now.category) || (column == "code" && was.code != now.code)
    || (column == "low_stock_threshold" && was.lowStock != now.lowStock)
    || (column == "name" && was.name != now.name) || (column == "stale_days" && was.stale != now.stale)
  }

  /** The rows hold an edit row exactly if some column changed, and it names the changed ones. */
  ghost predicate EditsNamed(was: Product, now: Product, id: string, rows: seq<Audit>) {
    && (forall k, column | 0 <= k < |rows| && rows[k].Edited? ::
          rows[k].product == id && (column in rows[k].fields <==> ColumnChanged(was, now, column)))
    && (forall column: string | ColumnChanged(was, now, column) :: exists k | 0 <= k < |rows| :: rows[k].Edited?)
  }

  lemma FieldsNamed(was: Product, now: Product)
    ensures forall column: string :: column in ChangedFields(was, now) <==> ColumnChanged(was, now, column)
  {
  }

  lemma {:induction false} PriceOpsEditNothing(id: string, was: Prices, now: Prices, n: nat)
    requires n <= FIELDS
    ensures forall k | 0 <= k < |PriceOps(id, was, now, n)| :: !PriceOps(id, was, now, n)[k].Edited?
  {
    if n > 0 { PriceOpsEditNothing(id, was, now, n - 1); }
  }

  lemma OpsNameEdits(id: string, was: Product, now: Product)
    ensures EditsNamed(was, now, id, UpdateOps(id, was, now))
  {
    FieldsNamed(was, now);
    PriceOpsEditNothing(id, was.prices, now.prices, FIELDS);
    hide PriceOps, ChangedFields, ColumnChanged;
    var prices, fields := PriceOps(id, was.prices, now.prices, FIELDS), ChangedFields(was, now);
    var rows := UpdateOps(id, was, now);
    if fields != [] {
      assert rows[|prices|] == Edited(id, fields);
      assert forall k | 0 <= k < |prices| :: rows[k] == prices[k];
    } else {
      assert rows == prices;
    }
  }

  lemma NoOps(id: string, was: Product)
    ensures UpdateOps(id, was, was) == []
  {
    assert ChangedFields(was, was) == [];
    NoPriceOps(id, was.prices, FIELDS);
  }

  lemma {:induction false} NoPriceOps(id: string, prices: Prices, n: nat)
    requires n <= FIELDS
    ensures PriceOps(id, prices, prices, n) == []
  {
    if n > 0 { NoPriceOps(id, prices, n - 1); }
  }

  lemma NothingEdited(id: string, was: Product, now: Product)
    requires UpdateOps(id, was, now) == []
    ensures was.category == now.category && was.code == now.code && was.lowStock == now.lowStock
            && was.name == now.name && was.stale == now.stale
  {
    hide PriceOps;
  }

  lemma SameColumns(was: Product, now: Product, form: Form)
    requires was.prices == now.prices && was.category == now.category && was.code == now.code
    requires was.lowStock == now.lowStock && was.name == now.name && was.stale == now.stale
    ensures ReadsForm(was, now, form) ==> ReadsForm(was, was, form)
  {
    hide PriceOf, ThresholdOf, Strip;
  }

  /* ---------- deleting ---------- */

  /** An active card with stock survives the quick delete, which says how much there is; without stock it is
      marked deleted, as by the other delete, and nothing else changes. */
  lemma QuickDeleteSparesStock(s: Store, id: string, lower: string -> string)
    requires id in s.products && !s.products[id].deleted
    ensures var now, gone := After(s, QuickDelete(id), lower), s.(products := s.products[id := s.products[id].(deleted := true)]);
      && (s.products[id].quantity > 0 ==> now == s && Answer(s, QuickDelete(id), lower) == Blocked(s.products[id].quantity))
      && (s.products[id].quantity <= 0 ==> now == gone && Answer(s, QuickDelete(id), lower) == Deleted)
      && After(s, SoftDelete(id), lower) == gone && Answer(s, SoftDelete(id), lower) == Deleted
  {
  }

  /** Restoring undoes either delete, if the code is still free. */
  lemma RestoreUndoesDelete(s: Store, id: string, lower: string -> string)
    requires id in s.products && !s.products[id].deleted
    ensures var gone := After(s, SoftDelete(id), lower);
      if s.products[id].code.Some? && Taken(s.products, s.products[id].code.value, Some(id))
      then Answer(gone, Restore(id), lower).Raised? && After(gone, Restore(id), lower) == gone
      else Answer(gone, Restore(id), lower) == Saved(id) && After(gone, Restore(id), lower) == s
  {
    var gone := After(s, SoftDelete(id), lower);
    assert gone.products[id := s.products[id]] == s.products;
    if s.products[id].code.Some? {
      TakenByOthers(s.products, gone.products, s.products[id].code.value, id);
    }
    hide Taken;
  }

  lemma TakenByOthers(a: map<string, Product>, b: map<string, Product>, code: string, id: string)
    requires a.Keys == b.Keys && forall other <- a :: other != id ==> a[other] == b[other]
    ensures Taken(a, code, Some(id)) <==> Taken(b, code, Some(id))
  {
    forall other | other in a && other != id ensures a[other] == b[other] { }
  }

  /* ---------- active codes ---------- */

  /** uq_products_code_active */
  ghost predicate UniqueCodes(products: map<string, Product>) {
    forall a, b | a in products && b in products && a != b && !products[a].deleted && !products[b].deleted ::
      products[a].code.Some? ==> products[a].code != products[b].code
  }

  /** The SELECT before a write refuses exactly what the index would. */
  lemma TakenIsIndexViolation(products: map<string, Product>, id: string, card: Product)
    requires UniqueCodes(products) && !card.deleted && card.code.Some?
    ensures UniqueCodes(products[id := card]) <==> !Taken(products, card.code.value, Some(id))
  {
    var now := products[id := card];
    if Taken(products, card.code.value, Some(id)) {
      var other :| other in products && other != id && !products[other].deleted && products[other].code == card.code;
      assert now[other] == products[other] && now[id] == card;
    }
  }

  /** Restoring raises exactly when the restored card would share its code with an active one. */
  lemma RestoreRaisesExactly(s: Store, id: string, lower: string -> string)
    requires UniqueCodes(s.products) && id in s.products && s.products[id].deleted
    ensures Answer(s, Restore(id), lower).Raised? <==> !UniqueCodes(s.products[id := s.products[id].(deleted := false)])
  {
    if s.products[id].code.Some? {
      TakenIsIndexViolation(s.products, id, s.products[id].(deleted := false));
    }
  }

  lemma CallKeepsCodesUnique(s: Store, call: Call, lower: string -> string)
    requires UniqueCodes(s.products)
    ensures UniqueCodes(After(s, call, lower).products)
  {
    hide Problems, Unreadable, Bindable, NewPrices, UpdateOps, Strip, Taken;
    if Answer(s, call, lower).Saved? {
      match call
      case Create(id, form, _) =>
        NoProblems(s.products, None, form);
        NotTakenByAnyone(s.products, Strip(form.code), id);
        TakenIsIndexViolation(s.products, id, Described(BLANK, form, lower));
      case Update(id, form, _) =>
        NoProblems(s.products, Some(id), form);
        TakenIsIndexViolation(s.products, id, Described(s.products[id], form, lower));
      case Restore(id) =>
        if s.products[id].code.Some? {
          TakenIsIndexViolation(s.products, id, s.products[id].(deleted := false));
        }
      case _ =>
    }
  }

  lemma NotTakenByAnyone(products: map<string, Product>, code: string, id: string)
    requires !Taken(products, code, None)
    ensures !Taken(products, code, Some(id))
  {
  }

  /** Over every run, no two active products share a code. */
  lemma {:induction false} CodesStayUnique(s: Store, calls: seq<Call>, lower: string -> string)
    requires UniqueCodes(s.products)
    ensures UniqueCodes(Run(s, calls, lower).products)
  {
    if calls != [] {
      var n := |calls| - 1;
      CodesStayUnique(s, calls[..n], lower);
      CallKeepsCodesUnique(Run(s, calls[..n], lower), calls[n], lower);
    }
  }
}
