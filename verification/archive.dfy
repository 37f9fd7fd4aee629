/** scan_shade_candidates and pick_full_name: the archive's counters are merged file by file and one
    spelling is chosen per code, independently of the order in which the files were read. */
module Archive {
  import opened Base
  import opened Text
  import opened Shades

  /** A workbook: its sheets, or None when it cannot be read. */
  type File = Option<seq<Sheet>>

  function FileCredits(f: File): multiset<Credit> {
    if f.None? then multiset{} else SheetCredits(f.value)
  }

  function FileShades(f: File): nat {
    if f.None? then 0 else SheetShades(f.value)
  }

  function ArchiveCredits(files: seq<File>): multiset<Credit> {
    if files == [] then multiset{}
    else ArchiveCredits(files[..|files| - 1]) + FileCredits(files[|files| - 1])
  }

  function ArchiveShades(files: seq<File>): nat {
    if files == [] then 0
    else ArchiveShades(files[..|files| - 1]) + FileShades(files[|files| - 1])
  }

  function Unreadable(files: seq<File>): nat {
    if files == [] then 0
    else Unreadable(files[..|files| - 1]) + (if files[|files| - 1].None? then 1 else 0)
  }

  lemma {:induction false} UnreadableCounts(files: seq<File>)
    ensures Unreadable(files) == multiset(files)[None]
  {
    if files != [] {
      UnreadableCounts(files[..|files| - 1]);
      assert files == files[..|files| - 1] + [files[|files| - 1]];
    }
  }

  function Counter(c: Candidates, code: string): multiset<(string, string)> {
    if code in c then c[code] else multiset{}
  }

  /** candidates.setdefault(code, Counter()).update(counter) for every code found. */
  function Join(a: Candidates, b: Candidates): Candidates {
    map code | code in a.Keys + b.Keys :: Counter(a, code) + Counter(b, code)
  }

  lemma JoinTallies(a: Candidates, b: Candidates, x: multiset<Credit>, y: multiset<Credit>)
    requires Tallies(a, x) && Tallies(b, y)
    ensures Tallies(Join(a, b), x + y)
  {
    forall c: Credit
      ensures Count(Join(a, b), c) == (x + y)[c]
    {
      assert Count(a, c) == x[c] && Count(b, c) == y[c];
    }
  }

  predicate TidyFile(f: File) {
    f.Some? ==> TidySheets(f.value)
  }

  lemma FileStep(files: seq<File>, k: nat)
    requires k < |files|
    ensures ArchiveCredits(files[..k + 1]) == ArchiveCredits(files[..k]) + FileCredits(files[k])
    ensures |ArchiveCredits(files[..k + 1])| == |ArchiveCredits(files[..k])| + |FileCredits(files[k])|
    ensures files[k].None? ==> ArchiveCredits(files[..k + 1]) == ArchiveCredits(files[..k])
    ensures files[k].Some? ==> FileCredits(files[k]) == SheetCredits(files[k].value)
    ensures ArchiveShades(files[..k + 1]) == ArchiveShades(files[..k]) + FileShades(files[k])
    ensures Unreadable(files[..k + 1]) == Unreadable(files[..k]) + (if files[k].None? then 1 else 0)
  {
    assert files[..k + 1][..k] == files[..k];
  }

  /** What the scan holds once the first `k` files are read. */
  ghost predicate Scanned(files: seq<File>, k: nat, candidates: Candidates, dropped: nat, unreadable: nat)
    requires k <= |files|
  {
    && Tallies(candidates, ArchiveCredits(files[..k]))
    && |ArchiveCredits(files[..k])| + dropped == ArchiveShades(files[..k])
    && unreadable == Unreadable(files[..k])
  }

  lemma ScanStart(files: seq<File>)
    ensures Scanned(files, 0, map[], 0, 0)
  {
    TakeAll(files);
  }

  lemma UnreadableScanned(files: seq<File>, k: nat, candidates: Candidates, dropped: nat, unreadable: nat)
    requires k < |files| && Scanned(files, k, candidates, dropped, unreadable) && files[k].None?
    ensures Scanned(files, k + 1, candidates, dropped, unreadable + 1)
  {
    FileStep(files, k);
    hide Tallies, ArchiveCredits;
  }

  lemma FileScanned(files: seq<File>, k: nat, candidates: Candidates, dropped: nat, unreadable: nat,
                    found: Candidates, missed: nat)
    requires k < |files| && Scanned(files, k, candidates, dropped, unreadable) && files[k].Some?
    requires Tallies(found, FileCredits(files[k])) && |FileCredits(files[k])| + missed == FileShades(files[k])
    ensures Scanned(files, k + 1, Join(candidates, found), dropped + missed, unreadable)
  {
    FileStep(files, k);
    hide Tallies, ArchiveCredits, FileCredits, Join;
    JoinTallies(candidates, found, ArchiveCredits(files[..k]), FileCredits(files[k]));
  }

  /** scan_shade_candidates */
  method ScanArchive(files: seq<File>) returns (candidates: Candidates, dropped: nat, unreadable: nat)
    requires forall k | 0 <= k < |files| :: TidyFile(files[k])
    ensures Tallies(candidates, ArchiveCredits(files))
    ensures |ArchiveCredits(files)| + dropped == ArchiveShades(files)
    ensures unreadable == multiset(files)[None]
  {
    UnreadableCounts(files);
    candidates, dropped, unreadable := map[], 0, 0;
    ScanStart(files);
    TakeAll(files);
    hide Tallies, ArchiveCredits, Join, TidySheets, Scanned;
    var k := 0;
    while k < |files|
      invariant 0 <= k <= |files|
      invariant Scanned(files, k, candidates, dropped, unreadable)
    {
      if files[k].None? {
        UnreadableScanned(files, k, candidates, dropped, unreadable);
        unreadable := unreadable + 1;
      } else {
        var found, missed := CollectShadeCandidates(files[k].value);
        FileScanned(files, k, candidates, dropped, unreadable, found, missed);
        candidates, dropped := Join(candidates, found), dropped + missed;
      }
      k := k + 1;
    }
    ScanEnd(files, candidates, dropped, unreadable);
  }

  lemma ScanEnd(files: seq<File>, candidates: Candidates, dropped: nat, unreadable: nat)
    requires Scanned(files, |files|, candidates, dropped, unreadable)
    ensures Tallies(candidates, ArchiveCredits(files))
    ensures |ArchiveCredits(files)| + dropped == ArchiveShades(files)
    ensures unreadable == Unreadable(files)
  {
    TakeAll(files);
    hide Tallies, ArchiveCredits;
  }

  /* ---------- the order of the files ---------- */

  lemma {:induction false} CreditsConcat(a: seq<File>, b: seq<File>)
    ensures ArchiveCredits(a + b) == ArchiveCredits(a) + ArchiveCredits(b)
  {
    if b == [] {
      assert a + b == a;
    } else {
      var front, last := b[..|b| - 1], b[|b| - 1];
      CreditsConcat(a, front);
      FileAppended(a + front, last);
      FileAppended(front, last);
      hide ArchiveCredits, FileCredits;
      AppendLast(a, b);
      Reassociate(ArchiveCredits(a), ArchiveCredits(front), FileCredits(last));
    }
  }

  lemma Reassociate(x: multiset<Credit>, y: multiset<Credit>, z: multiset<Credit>)
    ensures (x + y) + z == x + (y + z) == (x + z) + y
  {
  }

  lemma FileAppended(files: seq<File>, f: File)
    ensures ArchiveCredits(files + [f]) == ArchiveCredits(files) + FileCredits(f)
  {
    hide FileCredits;
    assert (files + [f])[..|files|] == files;
  }

  lemma CreditsAround(a: seq<File>, f: File, b: seq<File>)
    ensures ArchiveCredits((a + [f]) + b) == ArchiveCredits(a + b) + FileCredits(f)
  {
    hide ArchiveCredits, FileCredits;
    FileAppended(a, f);
    CreditsConcat(a + [f], b);
    CreditsConcat(a, b);
    Reassociate(ArchiveCredits(a), FileCredits(f), ArchiveCredits(b));
  }

  lemma CreditsWithout(files: seq<File>, i: nat)
    requires i < |files|
    ensures ArchiveCredits(files) == ArchiveCredits(files[..i] + files[i + 1..]) + FileCredits(files[i])
  {
    hide ArchiveCredits, FileCredits;
    CreditsAround(files[..i], files[i], files[i + 1..]);
    assert files == (files[..i] + [files[i]]) + files[i + 1..];
  }

  /** What the archive says depends only on which files there are. */
  lemma {:induction false} CreditsIgnoreOrder(a: seq<File>, b: seq<File>)
    requires multiset(a) == multiset(b)
    ensures ArchiveCredits(a) == ArchiveCredits(b)
    decreases |a|
  {
    if a == [] {
      assert |b| == |multiset(b)| == 0;
    } else {
      var n := |a| - 1;
      assert a[n] in multiset(a);
      assert a[n] in b;
      var i :| 0 <= i < |b| && b[i] == a[n];
      MultisetWithout(a, n);
      MultisetWithout(b, i);
      assert a[..n] + a[n + 1..] == a[..n];
      hide ArchiveCredits;
      CreditsIgnoreOrder(a[..n], b[..i] + b[i + 1..]);
      CreditsWithout(a, n);
      CreditsWithout(b, i);
    }
  }

  lemma MultisetWithout(a: seq<File>, i: nat)
    requires i < |a|
    ensures multiset(a[..i] + a[i + 1..]) == multiset(a) - multiset{a[i]}
  {
    assert a == a[..i] + [a[i]] + a[i + 1..];
  }

  /* ---------- the chosen spelling ---------- */

  /** Tuple order of (type, shade). */
  predicate PairLess(a: (string, string), b: (string, string)) {
    Less(a.0, b.0) || (a.0 == b.0 && Less(a.1, b.1))
  }

  /** `b` beats `a`: a longer type, then more frequent, then the later pair. */
  predicate Beaten(c: multiset<(string, string)>, a: (string, string), b: (string, string)) {
    || |a.0| < |b.0|
    || (|a.0| == |b.0| && (c[a] < c[b] || (c[a] == c[b] && PairLess(a, b))))
  }

  ghost predicate IsBest(c: multiset<(string, string)>, k: (string, string)) {
    k in c && forall a <- c :: a == k || Beaten(c, a, k)
  }

  lemma BeatenOrder(c: multiset<(string, string)>, x: (string, string), y: (string, string), z: (string, string))
    ensures !(Beaten(c, x, y) && Beaten(c, y, x))
    ensures x != y ==> Beaten(c, x, y) || Beaten(c, y, x)
    ensures Beaten(c, x, y) && Beaten(c, y, z) ==> Beaten(c, x, z)
  {
    LessIrreflexive(x.0); LessIrreflexive(x.1);
    LessTotal(x.0, y.0); LessTotal(x.1, y.1);
    if Less(x.0, y.0) { LessAsymmetric(x.0, y.0); }
    if Less(x.1, y.1) { LessAsymmetric(x.1, y.1); }
    if Less(x.0, y.0) && Less(y.0, z.0) { LessTransitive(x.0, y.0, z.0); }
    if Less(x.1, y.1) && Less(y.1, z.1) { LessTransitive(x.1, y.1, z.1); }
  }

  lemma BestIsUnique(c: multiset<(string, string)>, j: (string, string), k: (string, string))
    requires IsBest(c, j) && IsBest(c, k)
    ensures j == k
  {
    BeatenOrder(c, j, k, k);
  }

  /** No recorded type is longer than that of the chosen pair; among the pairs with a type as long none is more
      frequent; and among those as frequent it is the last one. */
  lemma BestMeans(c: multiset<(string, string)>, k: (string, string), a: (string, string))
    requires IsBest(c, k) && a in c
    ensures |a.0| <= |k.0|
    ensures |a.0| == |k.0| ==> c[a] <= c[k]
    ensures |a.0| == |k.0| && c[a] == c[k] ==> AtMost(a.0, k.0) && (a.0 == k.0 ==> AtMost(a.1, k.1))
  {
    LessIrreflexive(a.0);
    hide Less;
    assert a == k || Beaten(c, a, k);
  }

  function FullName(k: (string, string)): string {
    k.0 + " - " + k.1
  }

  /** pick_full_name over the counter's items in whatever order they are iterated. */
  method PickFullName(counter: multiset<(string, string)>, items: seq<(string, string)>) returns (name: string)
    requires items != [] && forall x :: x in items <==> x in counter
    ensures exists k | k in counter :: IsBest(counter, k) && name == k.0 + " - " + k.1
  {
    var k := items[0];
    var i := 1;
    while i < |items|
      invariant 1 <= i <= |items| && k in items[..i]
      invariant forall a <- items[..i] :: a == k || Beaten(counter, a, k)
    {
      var x := items[i];
      BeatenOrder(counter, k, x, x);
      if Beaten(counter, k, x) {
        forall a | a in items[..i]
          ensures a == x || Beaten(counter, a, x)
        {
          BeatenOrder(counter, a, k, x);
        }
        k := x;
      }
      assert items[..i + 1] == items[..i] + [x];
      i := i + 1;
    }
    assert items[..|items|] == items;
    assert k in items;
    name := FullName(k);
  }

  /** The chosen name of a code does not depend on the order in which the archive was read: any two
      reading orders, whatever counters they build, have the same best spelling. */
  lemma ChosenNameIgnoresOrder(a: seq<File>, b: seq<File>, x: Candidates, y: Candidates, code: string,
                               j: (string, string), k: (string, string))
    requires multiset(a) == multiset(b)
    requires Tallies(x, ArchiveCredits(a)) && Tallies(y, ArchiveCredits(b))
    requires IsBest(Counter(x, code), j) && IsBest(Counter(y, code), k)
    ensures Counter(x, code) == Counter(y, code) && j == k
  {
    CreditsIgnoreOrder(a, b);
    forall p
      ensures Counter(x, code)[p] == Counter(y, code)[p]
    {
      var c := Credit(code, p.0, p.1);
      assert Count(x, c) == ArchiveCredits(a)[c] == Count(y, c);
    }
    BestIsUnique(Counter(x, code), j, k);
  }
}
