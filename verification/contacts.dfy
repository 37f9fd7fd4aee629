/** app/services/customers.py: a customer's contacts are replaced as a whole and read back in the order
    in which they were submitted. */
module Contacts {
  import opened Base
  import opened Text
  import opened IsoText

  const CONTACT_KINDS: seq<string> := ["phone", "telegram", "email", "social"]

  datatype Contact = Contact(id: string, customer: nat, kind: string, value: string, createdAt: string)

  /** The submitted form: values per kind, in form order. */
  type Form = seq<(string, seq<string>)>

  ghost predicate FormKinds(form: Form) {
    && (forall i | 0 <= i < |form| :: form[i].0 in CONTACT_KINDS)
    && (forall i, j | 0 <= i < j < |form| :: form[i].0 != form[j].0)
  }

  /** The values that are stored: stripped, blanks dropped. */
  function Clean(values: seq<string>): seq<string> {
    if values == [] then []
    else
      var last := Strip(values[|values| - 1]);
      Clean(values[..|values| - 1]) + (if last == "" then [] else [last])
  }

  function Tagged(kind: string, values: seq<string>): seq<(string, string)> {
    seq(|values|, i requires 0 <= i < |values| => (kind, values[i]))
  }

  /** All stored (kind, value) pairs of a form, in order. */
  function Entries(form: Form): seq<(string, string)> {
    if form == [] then []
    else
      var (kind, values) := form[|form| - 1];
      Entries(form[..|form| - 1]) + Tagged(kind, Clean(values))
  }

  /** What the form stores under one kind. */
  function Submitted(form: Form, kind: string): seq<string> {
    if form == [] then []
    else
      var last := form[|form| - 1];
      Submitted(form[..|form| - 1], kind) + (if last.0 == kind then Clean(last.1) else [])
  }

  /** The inserted rows: entry `i` is stamped `i` microseconds after `start`. */
  function NewRows(customer: nat, entries: seq<(string, string)>, start: nat, ids: seq<string>): seq<Contact>
    requires |entries| <= |ids| && start + |entries| <= END_MICROS
  {
    seq(|entries|, i requires 0 <= i < |entries| =>
      Contact(ids[i], customer, entries[i].0, entries[i].1, IsoMicro(start + i)))
  }

  function Others(rows: seq<Contact>, customer: nat): seq<Contact> {
    if rows == [] then []
    else
      var last := rows[|rows| - 1];
      Others(rows[..|rows| - 1], customer) + (if last.customer == customer then [] else [last])
  }

  function Of(rows: seq<Contact>, customer: nat): seq<Contact> {
    if rows == [] then []
    else
      var last := rows[|rows| - 1];
      Of(rows[..|rows| - 1], customer) + (if last.customer == customer then [last] else [])
  }

  function OfKind(rows: seq<Contact>, kind: string): seq<Contact> {
    if rows == [] then []
    else
      var last := rows[|rows| - 1];
      OfKind(rows[..|rows| - 1], kind) + (if last.kind == kind then [last] else [])
  }

  function Values(rows: seq<Contact>): seq<string> {
    seq(|rows|, i requires 0 <= i < |rows| => rows[i].value)
  }

  /** ORDER BY created_at, id. */
  predicate InOrder(a: Contact, b: Contact) {
    Less(a.createdAt, b.createdAt) || (a.createdAt == b.createdAt && AtMost(a.id, b.id))
  }

  /** Any result the query may return for this customer. */
  ghost predicate QueryResult(fetched: seq<Contact>, rows: seq<Contact>, customer: nat) {
    multiset(fetched) == multiset(Of(rows, customer)) && Ordered(fetched)
  }

  /* ---------- the two operations ---------- */

  class ContactTable {
    var rows: seq<Contact>

    constructor ()
      ensures rows == []
    {
      rows := [];
    }

    /** _replace_contacts: delete, then reinsert with an advancing microsecond offset. */
    method ReplaceContacts(customer: nat, form: Form, start: nat, ids: seq<string>)
      requires |Entries(form)| <= |ids| && start + |Entries(form)| <= END_MICROS
      modifies this
      ensures rows == Others(old(rows), customer) + NewRows(customer, Entries(form), start, ids)
      ensures Of(rows, customer) == NewRows(customer, Entries(form), start, ids)
      ensures forall c: nat | c != customer :: Of(rows, c) == Of(old(rows), c)
    {
      ReplacedOnly(rows, customer, NewRows(customer, Entries(form), start, ids));
      rows := Others(rows, customer);
      ghost var kept := rows;
      ghost var done: seq<(string, string)> := [];
      var offset := 0;
      var i := 0;
      while i < |form|
        invariant 0 <= i <= |form|
        invariant done == Entries(form[..i]) && offset == |done| <= |Entries(form)|
        invariant rows == kept + NewRows(customer, done, start, ids)
      {
        assert form[..i + 1][..i] == form[..i];
        EntriesPrefix(form, i + 1);
        offset := InsertSection(customer, form[i].0, form[i].1, offset, start, ids, kept, done);
        done := Entries(form[..i + 1]);
        i := i + 1;
      }
      assert form[..|form|] == form;
    }

    /** session.add of one contact, stamped `offset` microseconds after the start. */
    method AddContact(customer: nat, kind: string, value: string, offset: nat, start: nat, ids: seq<string>,
                      ghost kept: seq<Contact>, ghost stored: seq<(string, string)>)
      requires offset == |stored| < |ids| && start + |stored| < END_MICROS
      requires rows == kept + NewRows(customer, stored, start, ids)
      modifies this
      ensures rows == kept + NewRows(customer, stored + [(kind, value)], start, ids)
    {
      NewRowsAppend(customer, stored, (kind, value), start, ids, kept);
      rows := rows + [Contact(ids[offset], customer, kind, value, IsoMicro(start + offset))];
    }

    /** The inner loop over one kind's values. */
    method InsertSection(customer: nat, kind: string, values: seq<string>, offset: nat, start: nat, ids: seq<string>,
                         ghost kept: seq<Contact>, ghost done: seq<(string, string)>)
      returns (next: nat)
      requires offset == |done| && |done| + |Clean(values)| <= |ids| && start + |done| + |Clean(values)| <= END_MICROS
      requires rows == kept + NewRows(customer, done, start, ids)
      modifies this
      ensures next == |done| + |Clean(values)|
      ensures rows == kept + NewRows(customer, done + Tagged(kind, Clean(values)), start, ids)
    {
      next := offset;
      ghost var all := done;
      assert done == done + Tagged(kind, Clean(values[..0])) && |Clean(values[..0])| == 0;
      TakeAll(values);
      hide Clean, Strip, NewRows, IsoMicro, Tagged;
      var k := 0;
      while k < |values|
        invariant 0 <= k <= |values|
        invariant all == done + Tagged(kind, Clean(values[..k])) && next == |all| <= |done| + |Clean(values)|
        invariant rows == kept + NewRows(customer, all, start, ids)
      {
        TaggedStep(done, kind, values, k);
        var value := Strip(values[k]);
        if value != "" {
          AddContact(customer, kind, value, next, start, ids, kept, all);
          all := all + [(kind, value)];
          next := next + 1;
        }
        k := k + 1;
      }
    }
  }

  lemma TaggedStep(done: seq<(string, string)>, kind: string, values: seq<string>, k: nat)
    requires k < |values|
    ensures var v, before := Strip(values[k]), done + Tagged(kind, Clean(values[..k]));
      && done + Tagged(kind, Clean(values[..k + 1])) == (if v == "" then before else before + [(kind, v)])
      && |before| == |done| + |Clean(values[..k])|
      && |Clean(values[..k])| + (if v == "" then 0 else 1) <= |Clean(values)|
  {
    assert values[..k + 1][..k] == values[..k];
    CleanPrefix(values, k + 1);
  }

  lemma NewRowsAppend(customer: nat, entries: seq<(string, string)>, e: (string, string), start: nat, ids: seq<string>,
                      kept: seq<Contact>)
    requires |entries| < |ids| && start + |entries| < END_MICROS
    ensures kept + NewRows(customer, entries + [e], start, ids)
            == kept + NewRows(customer, entries, start, ids)
               + [Contact(ids[|entries|], customer, e.0, e.1, IsoMicro(start + |entries|))]
  {
    hide IsoMicro;
  }

  lemma {:induction false} EntriesPrefix(form: Form, i: nat)
    requires i <= |form|
    ensures Entries(form[..i]) <= Entries(form)
  {
    if i < |form| {
      var n := |form| - 1;
      assert Entries(form[..n]) <= Entries(form);
      hide Entries;
      EntriesPrefix(form[..n], i);
      assert form[..n][..i] == form[..i];
    } else {
      assert form[..i] == form;
    }
  }

  lemma {:induction false} CleanPrefix(values: seq<string>, i: nat)
    requires i <= |values|
    ensures Clean(values[..i]) <= Clean(values)
  {
    if i < |values| {
      var n := |values| - 1;
      assert Clean(values[..n]) <= Clean(values);
      hide Clean;
      CleanPrefix(values[..n], i);
      assert values[..n][..i] == values[..i];
    } else {
      assert values[..i] == values;
    }
  }

  /** contacts_by_kind: every kind has a bucket, and a bucket keeps the fetched order. */
  method ContactsByKind(fetched: seq<Contact>) returns (buckets: map<string, seq<Contact>>)
    requires forall i | 0 <= i < |fetched| :: fetched[i].kind in CONTACT_KINDS
    ensures buckets.Keys == set k | k in CONTACT_KINDS
    ensures forall k <- buckets :: buckets[k] == OfKind(fetched, k)
  {
    buckets := map k | k in CONTACT_KINDS :: [];
    TakeAll(fetched);
    assert forall k <- buckets :: buckets[k] == OfKind([], k);
    hide OfKind;
    var i := 0;
    while i < |fetched|
      invariant 0 <= i <= |fetched|
      invariant buckets.Keys == set k | k in CONTACT_KINDS
      invariant forall k <- buckets :: buckets[k] == OfKind(fetched[..i], k)
    {
      var row := fetched[i];
      TakeNext(fetched, i);
      forall k ensures OfKind(fetched[..i + 1], k) == OfKind(fetched[..i], k) + (if row.kind == k then [row] else []) {
        OfKindAppend(fetched[..i], row, k);
      }
      buckets := buckets[row.kind := buckets[row.kind] + [row]];
      i := i + 1;
    }
  }

  lemma OfKindAppend(rows: seq<Contact>, row: Contact, kind: string)
    ensures OfKind(rows + [row], kind) == OfKind(rows, kind) + (if row.kind == kind then [row] else [])
  {
    assert (rows + [row])[..|rows|] == rows;
  }

  /* ---------- submitted order is read back ---------- */

  lemma OfNext(rows: seq<Contact>, row: Contact, customer: nat)
    ensures Of(rows + [row], customer) == Of(rows, customer) + (if row.customer == customer then [row] else [])
  {
    assert (rows + [row])[..|rows|] == rows;
  }

  lemma {:induction false} OfAppend(a: seq<Contact>, b: seq<Contact>, customer: nat)
    requires forall i | 0 <= i < |b| :: b[i].customer == customer
    ensures Of(a + b, customer) == Of(a, customer) + b
  {
    hide Of;
    if b == [] {
      assert a + b == a;
    } else {
      var front, last := b[..|b| - 1], b[|b| - 1];
      OfAppend(a, front, customer);
      AppendLast(a, b);
      OfNext(a + front, last, customer);
    }
  }

  lemma {:induction false} OfOthers(rows: seq<Contact>, customer: nat)
    ensures Of(Others(rows, customer), customer) == []
  {
    if rows != [] {
      var front, last := rows[..|rows| - 1], rows[|rows| - 1];
      OfOthers(front, customer);
      if last.customer != customer {
        assert (Others(front, customer) + [last])[..|Others(front, customer)|] == Others(front, customer);
      } else {
        assert Others(rows, customer) == Others(front, customer);
      }
    }
  }

  /** Nobody else's contacts are deleted. */
  lemma {:induction false} OthersKept(rows: seq<Contact>, customer: nat, c: nat)
    requires c != customer
    ensures Of(Others(rows, customer), c) == Of(rows, c)
  {
    if rows != [] {
      var front, last := rows[..|rows| - 1], rows[|rows| - 1];
      OthersKept(front, customer, c);
      OfNext(Others(front, customer), last, c);
      assert last.customer == customer ==> Others(rows, customer) == Others(front, customer);
    }
  }

  lemma {:induction false} OfNobodyElse(a: seq<Contact>, b: seq<Contact>, c: nat)
    requires forall i | 0 <= i < |b| :: b[i].customer != c
    ensures Of(a + b, c) == Of(a, c)
  {
    hide Of;
    if b == [] {
      assert a + b == a;
    } else {
      OfNobodyElse(a, b[..|b| - 1], c);
      AppendLast(a, b);
      OfNext(a + b[..|b| - 1], b[|b| - 1], c);
    }
  }

  /** Replacing one customer's contacts gives that customer the new ones and leaves everybody else's. */
  lemma ReplacedOnly(rows: seq<Contact>, customer: nat, added: seq<Contact>)
    requires forall i | 0 <= i < |added| :: added[i].customer == customer
    ensures var now := Others(rows, customer) + added;
      Of(now, customer) == added && forall c: nat | c != customer :: Of(now, c) == Of(rows, c)
  {
    hide Of, Others;
    OfOthers(rows, customer);
    OfAppend(Others(rows, customer), added, customer);
    assert [] + added == added;
    forall c: nat | c != customer
      ensures Of(Others(rows, customer) + added, c) == Of(rows, c)
    {
      OthersKept(rows, customer, c);
      OfNobodyElse(Others(rows, customer), added, c);
    }
  }

  ghost predicate Increasing(t: seq<Contact>) {
    forall i, j | 0 <= i < j < |t| :: Less(t[i].createdAt, t[j].createdAt)
  }

  ghost predicate Ordered(s: seq<Contact>) {
    forall i, j | 0 <= i < j < |s| :: InOrder(s[i], s[j])
  }

  /** A sorted permutation of strictly increasing timestamps is the list itself. */
  lemma {:induction false} SortedIsUnique(s: seq<Contact>, t: seq<Contact>)
    requires multiset(s) == multiset(t) && Increasing(t) && Ordered(s)
    ensures s == t
    decreases |t|
  {
    SameSize(s, t);
    if t != [] {
      LastAgrees(s, t);
      Fronts(s, t);
      hide Increasing, Ordered;
      var front, front' := s[..|s| - 1], t[..|t| - 1];
      SortedIsUnique(front, front');
      assert s == front + [s[|s| - 1]] && t == front' + [t[|t| - 1]];
    }
  }

  lemma Fronts(s: seq<Contact>, t: seq<Contact>)
    requires multiset(s) == multiset(t) && |s| == |t| > 0 && s[|s| - 1] == t[|t| - 1]
    requires Increasing(t) && Ordered(s)
    ensures multiset(s[..|s| - 1]) == multiset(t[..|t| - 1])
    ensures Increasing(t[..|t| - 1]) && Ordered(s[..|s| - 1])
  {
    MultisetFront(s);
    MultisetFront(t);
    hide InOrder, Less;
  }

  lemma MultisetFront(s: seq<Contact>)
    requires s != []
    ensures multiset(s[..|s| - 1]) == multiset(s) - multiset{s[|s| - 1]}
  {
    assert s == s[..|s| - 1] + [s[|s| - 1]];
  }

  lemma LastAgrees(s: seq<Contact>, t: seq<Contact>)
    requires multiset(s) == multiset(t) && |s| == |t| > 0 && Increasing(t) && Ordered(s)
    ensures s[|s| - 1] == t[|t| - 1]
  {
    var n := |t| - 1;
    assert t[n] in multiset(s) && s[n] in multiset(t);
    var i :| 0 <= i < |s| && s[i] == t[n];
    var j :| 0 <= j < |t| && t[j] == s[n];
    if s[n] != t[n] {
      assert Less(t[j].createdAt, t[n].createdAt) && InOrder(s[i], s[n]);
      LessAsymmetric(t[j].createdAt, t[n].createdAt);
    }
  }

  lemma SameSize(s: seq<Contact>, t: seq<Contact>)
    requires multiset(s) == multiset(t)
    ensures |s| == |t|
  {
    assert |multiset(s)| == |s| && |multiset(t)| == |t|;
  }

  function PairsOf(entries: seq<(string, string)>, kind: string): seq<string> {
    if entries == [] then []
    else
      var last := entries[|entries| - 1];
      PairsOf(entries[..|entries| - 1], kind) + (if last.0 == kind then [last.1] else [])
  }

  lemma {:induction false} PairsOfTagged(entries: seq<(string, string)>, tag: string, values: seq<string>, kind: string)
    ensures PairsOf(entries + Tagged(tag, values), kind)
            == PairsOf(entries, kind) + (if tag == kind then values else [])
  {
    if values == [] {
      assert entries + Tagged(tag, values) == entries;
    } else {
      var n := |values| - 1;
      PairsOfTagged(entries, tag, values[..n], kind);
      TaggedNext(entries, tag, values, n);
      PairsNext(entries + Tagged(tag, values[..n]), (tag, values[n]), kind);
      hide PairsOf, Tagged;
      assert values == values[..n] + [values[n]];
    }
  }

  lemma TaggedNext(entries: seq<(string, string)>, tag: string, values: seq<string>, n: nat)
    requires |values| == n + 1
    ensures entries + Tagged(tag, values) == entries + Tagged(tag, values[..n]) + [(tag, values[n])]
  {
  }

  lemma PairsNext(entries: seq<(string, string)>, last: (string, string), kind: string)
    ensures PairsOf(entries + [last], kind) == PairsOf(entries, kind) + (if last.0 == kind then [last.1] else [])
  {
    assert (entries + [last])[..|entries|] == entries;
  }

  lemma {:induction false} PairsAreSubmitted(form: Form, kind: string)
    ensures PairsOf(Entries(form), kind) == Submitted(form, kind)
  {
    if form != [] {
      var n := |form| - 1;
      PairsAreSubmitted(form[..n], kind);
      PairsOfTagged(Entries(form[..n]), form[n].0, Clean(form[n].1), kind);
    }
  }

  lemma {:induction false} NewRowsOfKind(customer: nat, entries: seq<(string, string)>, start: nat, ids: seq<string>, kind: string)
    requires |entries| <= |ids| && start + |entries| <= END_MICROS
    ensures Values(OfKind(NewRows(customer, entries, start, ids), kind)) == PairsOf(entries, kind)
  {
    if entries != [] {
      var n := |entries| - 1;
      NewRowsOfKind(customer, entries[..n], start, ids, kind);
      assert NewRows(customer, entries, start, ids)[..n] == NewRows(customer, entries[..n], start, ids);
    }
  }

  /** With distinct kinds, a kind's values are those of its own form section. */
  lemma {:induction false} SubmittedIsSection(form: Form, i: nat)
    requires FormKinds(form) && i < |form|
    ensures Submitted(form, form[i].0) == Clean(form[i].1)
  {
    var n := |form| - 1;
    if i < n {
      SubmittedIsSection(form[..n], i);
    } else {
      NotSubmitted(form[..n], form[n].0);
    }
  }

  lemma {:induction false} NotSubmitted(form: Form, kind: string)
    requires forall i | 0 <= i < |form| :: form[i].0 != kind
    ensures Submitted(form, kind) == []
  {
    if form != [] { NotSubmitted(form[..|form| - 1], kind); }
  }

  lemma NewRowsIncrease(customer: nat, entries: seq<(string, string)>, start: nat, ids: seq<string>)
    requires |entries| <= |ids| && start + |entries| <= END_MICROS
    ensures Increasing(NewRows(customer, entries, start, ids))
  {
    hide IsoMicro, Less;
    var rows := NewRows(customer, entries, start, ids);
    forall i, j | 0 <= i < j < |rows|
      ensures Less(rows[i].createdAt, rows[j].createdAt)
    {
      IsoMicroOrder(start + i, start + j);
    }
  }

  /** Whatever order ties and storage leave to the database, a replaced customer's contacts read back
      kind by kind in the submitted order, although isoformat drops a zero fraction. */
  lemma ContactsReadBack(before: seq<Contact>, customer: nat, form: Form, start: nat, ids: seq<string>,
                         fetched: seq<Contact>, kind: string)
    requires |Entries(form)| <= |ids| && start + |Entries(form)| <= END_MICROS
    requires QueryResult(fetched, Others(before, customer) + NewRows(customer, Entries(form), start, ids), customer)
    ensures fetched == NewRows(customer, Entries(form), start, ids)
    ensures Values(OfKind(fetched, kind)) == Submitted(form, kind)
  {
    var rows := NewRows(customer, Entries(form), start, ids);
    OfOthers(before, customer);
    OfAppend(Others(before, customer), rows, customer);
    assert [] + rows == rows;
    NewRowsIncrease(customer, Entries(form), start, ids);
    hide IsoMicro, Increasing, Ordered, Entries, OfKind, Submitted;
    SortedIsUnique(fetched, rows);
    NewRowsOfKind(customer, Entries(form), start, ids, kind);
    PairsAreSubmitted(form, kind);
  }

  /** `Of` keeps exactly the customer's rows, each as often as it is stored. */
  lemma {:induction false} OfMeaning(rows: seq<Contact>, customer: nat, x: Contact)
    ensures multiset(Of(rows, customer))[x] == if x.customer == customer then multiset(rows)[x] else 0
  {
    if rows != [] {
      var front, last := rows[..|rows| - 1], rows[|rows| - 1];
      OfMeaning(front, customer, x);
      assert rows == front + [last];
    }
  }

  /** Values without blanks around them that name something. */
  predicate TidyValues(values: seq<string>) {
    forall i | 0 <= i < |values| :: values[i] != "" && Trimmed(values[i])
  }

  lemma {:induction false} TidyValuesStay(values: seq<string>)
    requires TidyValues(values)
    ensures Clean(values) == values
  {
    hide Clean, Trimmed;
    if values == [] {
      NothingClean(values);
    } else {
      var front, last := values[..|values| - 1], values[|values| - 1];
      assert TidyValues(front) && last != "" && Trimmed(last);
      AppendLast([], values);
      hide TidyValues;
      TidyValuesStay(front);
      TidyLast(front, last);
    }
  }

  lemma NothingClean(values: seq<string>)
    requires values == []
    ensures Clean(values) == values
  {
  }

  lemma TidyLast(front: seq<string>, v: string)
    requires v != "" && Trimmed(v)
    ensures Clean(front + [v]) == Clean(front) + [v]
  {
    TrimmedStays(v);
    hide Strip, Trimmed;
    assert (front + [v])[..|front|] == front;
  }

  lemma TrimmedStays(v: string)
    requires Trimmed(v)
    ensures Strip(v) == v
  {
  }

  /** A form with one section per kind and tidy values is read back section by section as it was posted,
      and everybody else's contacts are as they were. Distinct ids give distinct contacts. */
  lemma FormReadsBack(before: seq<Contact>, customer: nat, form: Form, start: nat, ids: seq<string>,
                      fetched: seq<Contact>, i: nat)
    requires |Entries(form)| <= |ids| && start + |Entries(form)| <= END_MICROS
    requires FormKinds(form) && i < |form| && TidyValues(form[i].1)
    requires QueryResult(fetched, Others(before, customer) + NewRows(customer, Entries(form), start, ids), customer)
    ensures Values(OfKind(fetched, form[i].0)) == form[i].1
    ensures forall c: nat | c != customer ::
      Of(Others(before, customer) + NewRows(customer, Entries(form), start, ids), c) == Of(before, c)
    ensures var added := NewRows(customer, Entries(form), start, ids);
      (forall a, b | 0 <= a < b < |ids| :: ids[a] != ids[b]) ==> forall a, b | 0 <= a < b < |added| :: added[a].id != added[b].id
  {
    ContactsReadBack(before, customer, form, start, ids, fetched, form[i].0);
    SubmittedIsSection(form, i);
    TidyValuesStay(form[i].1);
    ReplacedOnly(before, customer, NewRows(customer, Entries(form), start, ids));
    hide Entries, Of, Others, OfKind, Submitted, Clean, FormKinds, QueryResult, TidyValues;
  }
}
