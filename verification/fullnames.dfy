/** restore_full_name and display_name: among the recorded variants whose shade is the current name the
    best one is chosen, and it is put into sentence case. */
module FullNames {
  import opened Base
  import opened Text
  import opened Shades
  import opened Archive

  /** Letter case, letter by letter; letters whose other case has another length are not covered. */
  datatype Cases = Cases(lower: char -> char, upper: char -> char)

  /** What str.lower guarantees: it leaves white space alone, and lowering twice is lowering once.
      Lowering after str.upper is another matter: the micro sign comes back as a Greek letter. */
  ghost predicate GoodCases(cases: Cases) {
    && (forall c :: IsSpace(cases.lower(c)) <==> IsSpace(c))
    && (forall c | IsSpace(c) :: cases.lower(c) == c)
    && (forall c :: cases.lower(cases.lower(c)) == cases.lower(c))
  }

  /** Raising the letter does not change what lowering makes of it. */
  predicate ComesBack(c: char, cases: Cases) {
    cases.lower(cases.upper(c)) == cases.lower(c)
  }

  function Lowered(s: string, cases: Cases): (t: string)
    ensures |t| == |s|
  {
    seq(|s|, i requires 0 <= i < |s| => cases.lower(s[i]))
  }

  /** re.sub(r"\s+", " ", …) */
  function Collapse(s: string): string {
    if s == "" then ""
    else if !IsSpace(s[0]) then [s[0]] + Collapse(s[1..])
    else if |s| > 1 && IsSpace(s[1]) then Collapse(s[1..])
    else " " + Collapse(s[1..])
  }

  /** display_name: first letter up, rest down. */
  function DisplayName(raw: string, cases: Cases): string {
    var text := Collapse(Strip(raw));
    if text == "" then "" else [cases.upper(text[0])] + Lowered(text[1..], cases)
  }

  /** The variant carries the current name as its shade. */
  predicate Hits(k: (string, string), current: string, cases: Cases) {
    Lowered(Strip(k.1), cases) == Lowered(Strip(current), cases)
  }

  /** The counter without the variants of other shades. */
  ghost predicate OnlyHits(hits: multiset<(string, string)>, counter: multiset<(string, string)>, current: string, cases: Cases) {
    forall k :: hits[k] == if Hits(k, current, cases) then counter[k] else 0
  }

  /** Counter({key: n for key, n in counter.items() if …}) and its keys. */
  method MatchingVariants(counter: multiset<(string, string)>, items: seq<(string, string)>, current: string, cases: Cases)
    returns (hits: multiset<(string, string)>, keys: seq<(string, string)>)
    requires forall x :: x in items <==> x in counter
    ensures OnlyHits(hits, counter, current, cases)
    ensures forall x :: x in keys <==> x in hits
  {
    hits, keys := multiset{}, [];
    hide Hits;
    var i := 0;
    while i < |items|
      invariant 0 <= i <= |items|
      invariant forall k :: hits[k] == if k in items[..i] && Hits(k, current, cases) then counter[k] else 0
      invariant forall x :: x in keys <==> x in items[..i] && Hits(x, current, cases)
    {
      TakeNext(items, i);
      if Hits(items[i], current, cases) {
        hits, keys := hits[items[i] := counter[items[i]]], keys + [items[i]];
      }
      i := i + 1;
    }
    TakeAll(items);
  }

  /** restore_full_name: any matching variant admits the code, the best of the matching ones names it. */
  method RestoreFullName(counter: multiset<(string, string)>, items: seq<(string, string)>,
                         ghost hits: multiset<(string, string)>, current: string, cases: Cases)
    returns (restored: Option<string>)
    requires forall x :: x in items <==> x in counter
    requires OnlyHits(hits, counter, current, cases)
    ensures restored.None? <==> forall k <- counter :: Lowered(Strip(k.1), cases) != Lowered(Strip(current), cases)
    ensures restored.Some? ==>
      exists k | k in hits :: IsBest(hits, k) && restored.value == DisplayName(k.0 + " - " + k.1, cases)
  {
    var counted, keys := MatchingVariants(counter, items, current, cases);
    assert forall k :: Hits(k, current, cases) <==> Lowered(Strip(k.1), cases) == Lowered(Strip(current), cases);
    hide Hits, IsBest, DisplayName, Lowered, Strip;
    assert counted == hits;
    if keys == [] {
      assert forall k <- counter :: hits[k] == 0;
      return None;
    }
    assert keys[0] in hits;
    var name := PickFullName(counted, keys);
    return Some(DisplayName(name, cases));
  }

  /* ---------- the restored name carries the current one ---------- */

  lemma CollapseStep(s: string, rest: string)
    requires s != "" && rest == s[1..]
    ensures Collapse(s) == (if !IsSpace(s[0]) then [s[0]] else if rest != "" && IsSpace(rest[0]) then "" else " ") + Collapse(rest)
  {
  }

  lemma Regroup(a: string, b: string, c: string)
    ensures a + b + c == a + (b + c)
  {
  }

  lemma {:induction false} CollapseConcat(a: string, b: string)
    requires b != "" && !IsSpace(b[0])
    ensures Collapse(a + b) == Collapse(a) + Collapse(b)
  {
    assert Collapse("") == "";
    hide Collapse, IsSpace;
    if a == "" {
      assert a + b == b && "" + Collapse(b) == Collapse(b);
    } else {
      assert (a + b)[1..] == a[1..] + b;
      var more := a[1..];
      CollapseConcat(more, b);
      CollapseStep(a + b, more + b);
      CollapseStep(a, more);
      var kept := if !IsSpace(a[0]) then [a[0]] else if more != "" && IsSpace(more[0]) then "" else " ";
      assert (more + b)[0] == if more != "" then more[0] else b[0];
      Regroup(kept, Collapse(more), Collapse(b));
    }
  }

  lemma {:induction false} CollapseAfterLetter(a: string, b: string)
    requires a != "" && !IsSpace(a[|a| - 1])
    ensures Collapse(a + b) == Collapse(a) + Collapse(b)
  {
    assert (a + b)[1..] == a[1..] + b;
    if |a| == 1 {
      assert a[1..] == "" && a + b == [a[0]] + b;
    } else {
      CollapseAfterLetter(a[1..], b);
    }
  }

  lemma {:induction false} CollapseLowered(s: string, cases: Cases)
    requires GoodCases(cases)
    ensures Collapse(Lowered(s, cases)) == Lowered(Collapse(s), cases)
  {
    if s != "" {
      assert Lowered(s, cases)[1..] == Lowered(s[1..], cases);
      CollapseLowered(s[1..], cases);
      assert cases.lower(' ') == ' ';
      LoweredConcat([s[0]], Collapse(s[1..]), cases);
      LoweredConcat(" ", Collapse(s[1..]), cases);
    }
  }

  lemma LoweredConcat(a: string, b: string, cases: Cases)
    ensures Lowered(a + b, cases) == Lowered(a, cases) + Lowered(b, cases)
  {
  }

  lemma {:induction false} CollapseShortens(s: string)
    ensures |Collapse(s)| <= |s| && (s != "" ==> Collapse(s) != "")
  {
    if s != "" { CollapseShortens(s[1..]); }
  }

  lemma StripTrims(s: string)
    ensures Trimmed(Strip(s))
    ensures Trimmed(s) ==> Strip(s) == s
  {
    DropStops(s);
  }

  lemma {:induction false} DropStops(s: string)
    ensures var t := DropWhile(s, IsSpace); t != "" ==> !IsSpace(t[0])
  {
    if s != "" { DropStops(s[1..]); }
  }

  /** The text of a variant's name before it is put into sentence case. */
  lemma CollapsedFullName(t: string, shade: string)
    requires t != "" && Trimmed(t) && shade != "" && Trimmed(shade)
    ensures Collapse(Strip(FullName((t, shade)))) == Collapse(t) + " - " + Collapse(shade)
  {
    var dash := " - ";
    NameParts(t, shade, dash);
    StripTrims(FullName((t, shade)));
    CollapseAfterLetter(t, dash + shade);
    CollapseConcat(dash, shade);
    DashCollapsed(dash);
    Regroup(Collapse(t), dash, Collapse(shade));
    hide Collapse, Strip, Trimmed, FullName;
  }

  lemma NameParts(t: string, shade: string, dash: string)
    requires t != "" && Trimmed(t) && shade != "" && Trimmed(shade) && dash == " - "
    ensures FullName((t, shade)) == t + (dash + shade) && Trimmed(FullName((t, shade)))
  {
    Regroup(t, dash, shade);
    var name := t + (dash + shade);
    assert name[0] == t[0] && name[|name| - 1] == shade[|shade| - 1];
  }

  lemma DashCollapsed(dash: string)
    requires dash == " - "
    ensures Collapse(dash) == dash
  {
    CollapseStep(dash, "- ");
    CollapseStep("- ", " ");
    CollapseStep(" ", "");
  }

  /** Whatever variant is chosen, the restored name has the length of its type, a dash, and the current
      name with its runs of white space collapsed. */
  lemma RestoredLength(k: (string, string), current: string, cases: Cases)
    requires GoodCases(cases) && Hits(k, current, cases) && Strip(current) != ""
    requires k.0 != "" && Trimmed(k.0) && Trimmed(k.1)
    ensures |DisplayName(FullName(k), cases)| == |Collapse(k.0)| + 3 + |Collapse(Strip(current))|
  {
    ShadeIsCurrent(k.1, current, cases);
    CollapsedFullName(k.0, k.1);
  }

  /** Letter case aside it is that text, exactly when the type's first letter comes back from its capital. */
  lemma RestoredCarriesCurrent(k: (string, string), current: string, cases: Cases)
    requires GoodCases(cases) && Hits(k, current, cases) && Strip(current) != ""
    requires k.0 != "" && Trimmed(k.0) && Trimmed(k.1)
    ensures Lowered(DisplayName(FullName(k), cases), cases) == Lowered(Collapse(k.0) + " - " + Collapse(Strip(current)), cases)
            <==> ComesBack(k.0[0], cases)
  {
    var shade, cur := k.1, Strip(current);
    ShadeIsCurrent(shade, current, cases);
    CollapsedFullName(k.0, shade);
    CollapseKeepsFirst(k.0);
    SentenceCase(Collapse(k.0) + " - " + Collapse(shade), cases);
    LoweredConcat(Collapse(k.0) + " - ", Collapse(shade), cases);
    LoweredConcat(Collapse(k.0) + " - ", Collapse(cur), cases);
    hide Collapse, Strip, Lowered, FullName, Trimmed, GoodCases, ComesBack;
  }

  lemma ShadeIsCurrent(shade: string, current: string, cases: Cases)
    requires GoodCases(cases) && Trimmed(shade) && Strip(current) != ""
    requires Lowered(Strip(shade), cases) == Lowered(Strip(current), cases)
    ensures shade != "" && Lowered(Collapse(shade), cases) == Lowered(Collapse(Strip(current)), cases)
    ensures |Collapse(shade)| == |Collapse(Strip(current))|
  {
    StripTrims(shade);
    assert |shade| == |Lowered(Strip(current), cases)|;
    CollapseLowered(shade, cases);
    CollapseLowered(Strip(current), cases);
    assert |Collapse(shade)| == |Lowered(Collapse(shade), cases)|;
  }

  /** The micro sign is such a letter: its capital is a Greek one, and that lowers to another sign. */
  lemma MicroSignChanges(cases: Cases)
    requires GoodCases(cases) && cases.lower('\U{B5}') == '\U{B5}'
    requires cases.upper('\U{B5}') == '\U{39C}' && cases.lower('\U{39C}') == '\U{3BC}'
    ensures var restored := DisplayName(FullName(("\U{B5}", "b")), cases);
      Lowered(restored, cases) != Lowered("\U{B5} - b", cases)
  {
    var k := ("\U{B5}", "b");
    StripTrims("b");
    RestoredCarriesCurrent(k, "b", cases);
    assert Collapse("b") == "b" && Collapse(k.0) == k.0;
    assert k.0 + " - " + "b" == "\U{B5} - b";
    hide DisplayName, FullName, Collapse, Strip, GoodCases;
  }

  lemma CollapseKeepsFirst(s: string)
    requires s != "" && !IsSpace(s[0])
    ensures Collapse(s) != "" && Collapse(s)[0] == s[0]
  {
  }

  lemma SentenceCase(text: string, cases: Cases)
    requires GoodCases(cases) && text != ""
    ensures Lowered([cases.upper(text[0])] + Lowered(text[1..], cases), cases) == Lowered(text, cases)
            <==> ComesBack(text[0], cases)
  {
    var raised := [cases.upper(text[0])] + Lowered(text[1..], cases);
    assert Lowered(raised, cases)[0] == cases.lower(cases.upper(text[0]));
    assert Lowered(text, cases)[0] == cases.lower(text[0]);
    assert forall i | 0 < i < |text| :: Lowered(raised, cases)[i] == Lowered(text, cases)[i];
  }

  /** The restored name letter by letter: the type, a dash and the shade with single blanks; the first letter
      is raised and every other one lowered. */
  lemma RestoredSpelling(k: (string, string), cases: Cases)
    requires k.0 != "" && Trimmed(k.0) && k.1 != "" && Trimmed(k.1)
    ensures var text, restored := Collapse(k.0) + " - " + Collapse(k.1), DisplayName(FullName(k), cases);
      && |restored| == |text| && restored[0] == cases.upper(k.0[0])
      && forall i | 0 < i < |text| :: restored[i] == cases.lower(text[i])
  {
    CollapsedFullName(k.0, k.1);
    CollapseKeepsFirst(k.0);
    hide Collapse, Strip, FullName, Trimmed;
  }

  /** Words stay, and every run of white space between two of them becomes one blank. */
  lemma RunsCollapse(word: string, run: string, rest: string)
    requires (forall i | 0 <= i < |word| :: !IsSpace(word[i])) && run != "" && Blank(run)
    requires rest != "" && !IsSpace(rest[0])
    ensures Collapse(word + run + rest) == word + " " + Collapse(rest)
  {
    CollapseConcat(word + run, rest);
    WordCollapsed(word, run);
    BlanksCollapsed(run);
    hide Collapse;
  }

  lemma {:induction false} WordCollapsed(word: string, rest: string)
    requires forall i | 0 <= i < |word| :: !IsSpace(word[i])
    ensures Collapse(word + rest) == word + Collapse(rest)
  {
    if word == "" {
      assert word + rest == rest;
    } else {
      assert (word + rest)[1..] == word[1..] + rest;
      WordCollapsed(word[1..], rest);
    }
  }

  /** It is longer than the current name exactly when the type outweighs what collapsing takes away; a
      current name without runs of white space never gets shorter. */
  lemma RestoredIsLonger(k: (string, string), current: string, cases: Cases)
    requires GoodCases(cases) && Hits(k, current, cases) && Strip(current) != ""
    requires k.0 != "" && Trimmed(k.0) && Trimmed(k.1)
    ensures |DisplayName(FullName(k), cases)| > |Strip(current)|
            <==> |Collapse(k.0)| + 3 > |Strip(current)| - |Collapse(Strip(current))|
    ensures Collapse(Strip(current)) == Strip(current) ==> |DisplayName(FullName(k), cases)| >= |Strip(current)| + 4
  {
    RestoredLength(k, current, cases);
    CollapseShortens(k.0);
  }

  /** Next to any type there is a current name that its restored form is shorter than: two letters a
      long run of blanks apart. */
  lemma LongRunShortens(t: string, blanks: string, cases: Cases)
    requires GoodCases(cases) && t != "" && Trimmed(t)
    requires |blanks| > |t| + 4 && forall i | 0 <= i < |blanks| :: blanks[i] == ' '
    ensures var current := "a" + blanks + "b";
      Hits((t, current), current, cases) && |DisplayName(FullName((t, current)), cases)| < |Strip(current)|
  {
    var current := "a" + blanks + "b";
    StripTrims(current);
    RestoredLength((t, current), current, cases);
    CollapseShortens(t);
    RunCollapsed(blanks);
    hide Collapse, Strip, DisplayName, FullName, ComesBack, Trimmed, GoodCases;
  }

  lemma RunCollapsed(blanks: string)
    requires blanks != "" && forall i | 0 <= i < |blanks| :: blanks[i] == ' '
    ensures |Collapse("a" + blanks + "b")| == 3
  {
    CollapseAfterLetter("a", blanks + "b");
    CollapseConcat(blanks, "b");
    BlanksCollapsed(blanks);
    Regroup("a", blanks, "b");
    hide Collapse;
  }

  lemma {:induction false} BlanksCollapsed(blanks: string)
    requires blanks != "" && Blank(blanks)
    ensures Collapse(blanks) == " " && Collapse("a") == "a" && Collapse("b") == "b"
  {
    if |blanks| > 1 { BlanksCollapsed(blanks[1..]); }
  }
}
