/** scripts/import_prices.py --restore-shades: the product type of a series is written once, and every
    following row of the price list is a bare shade. */
module Shades {
  import opened Base
  import opened Text

  /** A data row below the header: the trimmed code cell, if any, and the trimmed name. */
  datatype Line = Line(code: Option<string>, name: string)

  /** SHADE_DASHES */
  predicate IsDash(c: char) {
    c == '-' || c == '\U{2013}' || c == '\U{2014}'
  }

  /** _is_code */
  predicate IsCode(code: Option<string>) {
    code.Some? && AllDigits(code.value) && 3 <= |code.value| <= 7
  }

  /** is_shade_row */
  predicate IsShade(name: string) {
    var s := DropWhile(name, IsSpace);
    s != "" && IsDash(s[0])
  }

  /** shade_text */
  function ShadeText(name: string): string {
    TrimRight(DropWhile(DropWhile(DropWhile(name, IsSpace), c => IsDash(c) || c == ' ' || c == '\t'), IsSpace))
  }

  /** The first index from `i` on whose character fails `p`. */
  function Skip(s: string, i: nat, p: char -> bool): (r: nat)
    requires i <= |s|
    ensures i <= r <= |s|
    ensures forall k | i <= k < r :: p(s[k])
    ensures r < |s| ==> !p(s[r])
    decreases |s| - i
  {
    if i < |s| && p(s[i]) then Skip(s, i + 1, p) else i
  }

  /** Where a separator, blanks around dashes, that starts at `i` ends; `i` itself if none does. */
  function SeparatorEnd(s: string, i: nat): (e: nat)
    requires i <= |s|
    ensures i <= e <= |s|
  {
    var d := Skip(s, i, IsSpace);
    var w := Skip(s, d, IsDash);
    if i < d < w && w < |s| && IsSpace(s[w]) then Skip(s, w, IsSpace) else i
  }

  /** The start of the last separator that finditer reports from `i` on. */
  function LastSeparator(s: string, i: nat, last: Option<nat>): (r: Option<nat>)
    requires i <= |s| && (last.Some? ==> last.value < i)
    ensures r.Some? ==> r.value < |s|
    ensures r.Some? && r != last ==> r.value >= i && IsSpace(s[r.value])
    ensures last.Some? ==> r.Some?
    decreases |s| - i
  {
    if i == |s| then last
    else
      var e := SeparatorEnd(s, i);
      if e > i then LastSeparator(s, e, Some(i)) else LastSeparator(s, i + 1, last)
  }

  /** split_series_type of a trimmed name. */
  function SeriesType(name: string): string {
    var cut := LastSeparator(name, 0, None);
    if cut.None? then name else TrimRight(name[..cut.value])
  }

  /** A title never yields an empty type, so a credited shade always has one. */
  lemma SeriesTypeNamesSomething(name: string)
    requires name != "" && Trimmed(name)
    ensures SeriesType(name) != "" && SeriesType(name) <= name
  {
    var cut := LastSeparator(name, 0, None);
    if cut.Some? {
      assert cut.value > 0;
      assert !IsSpace(name[..cut.value][0]);
    }
  }

  /* ---------- what the scan should find ---------- */

  /** Names come stripped from the row reader. */
  predicate TidyLines(lines: seq<Line>) {
    forall i | 0 <= i < |lines| :: Trimmed(lines[i].name)
  }

  predicate TidySheets(sheets: seq<Sheet>) {
    forall k | 0 <= k < |sheets| :: sheets[k].Some? ==> TidyLines(sheets[k].value)
  }

  predicate IsTitle(line: Line) {
    line.name != "" && !IsShade(line.name)
  }

  predicate IsCodedShade(line: Line) {
    line.name != "" && IsShade(line.name) && IsCode(line.code)
  }

  /** The nearest title above row `j` of a sheet. */
  function TitleAbove(lines: seq<Line>, j: nat): (r: Option<nat>)
    requires j <= |lines|
    ensures r.Some? ==> r.value < j && IsTitle(lines[r.value]) && forall i | r.value < i < j :: !IsTitle(lines[i])
    ensures r.None? ==> forall i | 0 <= i < j :: !IsTitle(lines[i])
  {
    if j == 0 then None
    else if IsTitle(lines[j - 1]) then Some(j - 1)
    else TitleAbove(lines, j - 1)
  }

  /** The type a shade at row `j` inherits: that of the nearest title above, if that one has a code. */
  function InheritedType(lines: seq<Line>, j: nat): Option<string>
    requires j <= |lines|
  {
    var i := TitleAbove(lines, j);
    if i.Some? && IsCode(lines[i.value].code) then Some(SeriesType(lines[i.value].name)) else None
  }

  /** Equivalently: some coded title lies above with no code-less title in between, and the type is
      that of the nearest coded one. */
  lemma InheritsFromCodedTitle(lines: seq<Line>, j: nat, t: string)
    requires j <= |lines|
    ensures InheritedType(lines, j) == Some(t) <==>
      exists i | 0 <= i < j :: NearestCodedTitle(lines, i, j) && t == SeriesType(lines[i].name)
  {
    if i :| 0 <= i < j && NearestCodedTitle(lines, i, j) && t == SeriesType(lines[i].name) {
      assert TitleAbove(lines, j) == Some(i);
    }
  }

  /** Row `i` is a coded title and rows between it and `j` hold neither a coded nor a code-less one. */
  ghost predicate NearestCodedTitle(lines: seq<Line>, i: nat, j: nat)
    requires i < j <= |lines|
  {
    && IsTitle(lines[i]) && IsCode(lines[i].code)
    && (forall k | i < k < j && IsTitle(lines[k]) :: IsCode(lines[k].code))
    && (forall k | i < k < j && IsCode(lines[k].code) :: !IsTitle(lines[k]))
  }

  datatype Credit = Credit(code: string, series: string, shade: string)

  /** What row `j` contributes: nothing unless it is a coded shade with an inherited type. */
  function CreditOf(lines: seq<Line>, j: nat): multiset<Credit>
    requires j < |lines|
  {
    if IsCodedShade(lines[j]) && InheritedType(lines, j).Some?
    then multiset{Credit(lines[j].code.value, InheritedType(lines, j).value, ShadeText(lines[j].name))}
    else multiset{}
  }

  function Credits(lines: seq<Line>, n: nat): multiset<Credit>
    requires n <= |lines|
  {
    if n == 0 then multiset{} else Credits(lines, n - 1) + CreditOf(lines, n - 1)
  }

  /** A sheet without the header row has no data rows to scan. */
  type Sheet = Option<seq<Line>>

  function SheetCredits(sheets: seq<Sheet>): multiset<Credit> {
    if sheets == [] then multiset{}
    else
      var last := sheets[|sheets| - 1];
      SheetCredits(sheets[..|sheets| - 1]) + (if last.None? then multiset{} else Credits(last.value, |last.value|))
  }

  function CodedShades(lines: seq<Line>, n: nat): nat
    requires n <= |lines|
  {
    if n == 0 then 0 else CodedShades(lines, n - 1) + (if IsCodedShade(lines[n - 1]) then 1 else 0)
  }

  function SheetShades(sheets: seq<Sheet>): nat {
    if sheets == [] then 0
    else
      var last := sheets[|sheets| - 1];
      SheetShades(sheets[..|sheets| - 1]) + (if last.None? then 0 else CodedShades(last.value, |last.value|))
  }

  /* ---------- the counters ---------- */

  /** {code: Counter[(type, shade)]} */
  type Candidates = map<string, multiset<(string, string)>>

  function Count(c: Candidates, x: Credit): nat {
    if x.code in c then c[x.code][(x.series, x.shade)] else 0
  }

  /** The counters say exactly what the multiset of credits says. */
  ghost predicate Tallies(c: Candidates, credits: multiset<Credit>) {
    forall x: Credit :: Count(c, x) == credits[x]
  }

  function Tally(c: Candidates, x: Credit): Candidates {
    c[x.code := (if x.code in c then c[x.code] else multiset{}) + multiset{(x.series, x.shade)}]
  }

  lemma TallyCounts(c: Candidates, x: Credit, credits: multiset<Credit>)
    requires Tallies(c, credits)
    ensures Tallies(Tally(c, x), credits + multiset{x})
  {
    var d := Tally(c, x);
    forall y: Credit
      ensures Count(d, y) == (credits + multiset{x})[y]
    {
      assert Count(c, y) == credits[y];
      if y.code == x.code {
        assert (y.series, y.shade) == (x.series, x.shade) <==> y == x;
      }
    }
  }

  /** collect_shade_candidates: the scan finds exactly the inherited credits, and every coded shade row
      is either credited or counted as dropped. */
  method CollectShadeCandidates(sheets: seq<Sheet>) returns (candidates: Candidates, dropped: nat)
    requires TidySheets(sheets)
    ensures Tallies(candidates, SheetCredits(sheets))
    ensures |SheetCredits(sheets)| + dropped == SheetShades(sheets)
  {
    candidates, dropped := map[], 0;
    var k := 0;
    while k < |sheets|
      invariant 0 <= k <= |sheets|
      invariant Tallies(candidates, SheetCredits(sheets[..k]))
      invariant |SheetCredits(sheets[..k])| + dropped == SheetShades(sheets[..k])
    {
      assert sheets[..k + 1][..k] == sheets[..k];
      if sheets[k].Some? {
        var missed;
        candidates, missed := ScanSheet(sheets[k].value, candidates, SheetCredits(sheets[..k]));
        dropped := dropped + missed;
      }
      k := k + 1;
    }
    assert sheets[..|sheets|] == sheets;
  }

  /** What one more row means for the inherited type, the credits and the count. */
  lemma LineStep(lines: seq<Line>, i: nat, found: multiset<Credit>)
    requires i < |lines| && TidyLines(lines)
    ensures var line, before, after := lines[i], InheritedType(lines, i), InheritedType(lines, i + 1);
      var had, has := found + Credits(lines, i), found + Credits(lines, i + 1);
      && after == (if !IsTitle(line) then before else if IsCode(line.code) then Some(SeriesType(line.name)) else None)
      && (before.Some? ==> before.value != "")
      && CodedShades(lines, i + 1) == CodedShades(lines, i) + (if IsCodedShade(line) then 1 else 0)
      && (if IsCodedShade(line) && before.Some? then
            && has == had + multiset{Credit(line.code.value, before.value, ShadeText(line.name))}
            && |Credits(lines, i + 1)| == |Credits(lines, i)| + 1
          else has == had && Credits(lines, i + 1) == Credits(lines, i))
  {
    var t := TitleAbove(lines, i);
    if t.Some? {
      SeriesTypeNamesSomething(lines[t.value].name);
    }
  }

  /** The inner loop over one sheet. */
  method ScanSheet(lines: seq<Line>, before: Candidates, ghost found: multiset<Credit>)
    returns (candidates: Candidates, dropped: nat)
    requires TidyLines(lines)
    requires Tallies(before, found)
    ensures Tallies(candidates, found + Credits(lines, |lines|))
    ensures |Credits(lines, |lines|)| + dropped == CodedShades(lines, |lines|)
  {
    candidates, dropped := before, 0;
    assert found + Credits(lines, 0) == found;
    var currentType: Option<string> := None;
    assert InheritedType(lines, 0).None? && |Credits(lines, 0)| == 0 == CodedShades(lines, 0);
    hide Tallies, Credits, CreditOf, InheritedType, CodedShades, SeriesType, ShadeText, IsShade, IsCode, Tally;
    var i := 0;
    while i < |lines|
      invariant 0 <= i <= |lines|
      invariant currentType == InheritedType(lines, i)
      invariant Tallies(candidates, found + Credits(lines, i))
      invariant |Credits(lines, i)| + dropped == CodedShades(lines, i)
    {
      var line := lines[i];
      LineStep(lines, i, found);
      i := i + 1;
      if line.name == "" {
        continue;
      }
      if IsCode(line.code) {
        if IsShade(line.name) {
          if currentType.Some? && currentType.value != "" {
            CodeHasValue(line.code);
            var x := Credit(line.code.value, currentType.value, ShadeText(line.name));
            TallyCounts(candidates, x, found + Credits(lines, i - 1));
            candidates := Tally(candidates, x);
          } else {
            dropped := dropped + 1;
          }
        } else {
          currentType := Some(SeriesType(line.name));
        }
      } else if !IsShade(line.name) {
        currentType := None;
      }
    }
  }

  lemma CodeHasValue(code: Option<string>)
    requires IsCode(code)
    ensures code.Some?
  {
  }

  /* ---------- what the written names mean ---------- */

  lemma SkipTo(s: string, i: nat, d: nat, p: char -> bool)
    requires i <= d <= |s| && (forall k | i <= k < d :: p(s[k])) && (d < |s| ==> !p(s[d]))
    ensures Skip(s, i, p) == d
  {
  }

  lemma SeparatorHere(s: string, i: nat, d: nat, w: nat, e: nat)
    requires i < d < w < e <= |s| && (e < |s| ==> !IsSpace(s[e]))
    requires forall k | i <= k < d || w <= k < e :: IsSpace(s[k])
    requires forall k | d <= k < w :: IsDash(s[k])
    ensures SeparatorEnd(s, i) == e
  {
    hide IsSpace, IsDash;
    assert !IsSpace(s[d]) by { DashIsNoSpace(s[d]); }
    assert !IsDash(s[w]) by { DashIsNoSpace(s[w]); }
    SkipTo(s, i, d, IsSpace);
    SkipTo(s, d, w, IsDash);
    SkipTo(s, w, e, IsSpace);
  }

  lemma DashIsNoSpace(c: char)
    ensures !(IsDash(c) && IsSpace(c))
  {
  }

  /** A separator consists of blanks and dashes, at least one dash among them. */
  lemma SeparatorChars(s: string, i: nat)
    requires i <= |s|
    ensures forall k | i <= k < SeparatorEnd(s, i) :: IsSpace(s[k]) || IsDash(s[k])
    ensures SeparatorEnd(s, i) > i ==> exists k | i <= k < |s| :: IsDash(s[k])
  {
    var d := Skip(s, i, IsSpace);
    var w := Skip(s, d, IsDash);
    hide IsSpace, IsDash;
    if i < d < w { assert IsDash(s[d]); }
  }

  lemma {:induction false} NoDashNoSeparator(s: string, i: nat, last: Option<nat>)
    requires i <= |s| && (last.Some? ==> last.value < i) && forall k | i <= k < |s| :: !IsDash(s[k])
    ensures LastSeparator(s, i, last) == last
    decreases |s| - i
  {
    if i < |s| {
      SeparatorChars(s, i);
      NoDashNoSeparator(s, i + 1, last);
    }
  }

  /** The search gets to `j` if the character before it belongs to no separator. */
  lemma {:induction false} ScanThrough(s: string, i: nat, j: nat, last: Option<nat>) returns (found: Option<nat>)
    requires i <= j <= |s| && (last.Some? ==> last.value < i)
    requires i < j ==> !IsSpace(s[j - 1]) && !IsDash(s[j - 1])
    ensures found.Some? ==> found.value < j
    ensures LastSeparator(s, i, last) == LastSeparator(s, j, found)
    decreases j - i
  {
    hide IsSpace, IsDash, SeparatorEnd, LastSeparator;
    if i == j {
      found := last;
    } else {
      SeparatorEndsBefore(s, i, j);
      SearchStep(s, i, last);
      var e := SeparatorEnd(s, i);
      if e > i {
        found := ScanThrough(s, e, j, Some(i));
      } else {
        found := ScanThrough(s, i + 1, j, last);
      }
    }
  }

  lemma SeparatorEndsBefore(s: string, i: nat, j: nat)
    requires i < j <= |s| && !IsSpace(s[j - 1]) && !IsDash(s[j - 1])
    ensures SeparatorEnd(s, i) < j
  {
    SeparatorChars(s, i);
    hide IsSpace, IsDash, SeparatorEnd;
  }

  lemma SearchStep(s: string, i: nat, last: Option<nat>)
    requires i < |s| && (last.Some? ==> last.value < i)
    ensures var e := SeparatorEnd(s, i);
      LastSeparator(s, i, last) == if e > i then LastSeparator(s, e, Some(i)) else LastSeparator(s, i + 1, last)
  {
    hide SeparatorEnd, IsSpace;
  }

  /** A series title: words, and perhaps blanks, dashes and blanks, and words without a dash. */
  datatype Title = Title(words: string, blanks: string, dashes: string, gap: string, rest: string)

  function TitleText(t: Title): string {
    t.words + (t.blanks + (t.dashes + (t.gap + t.rest)))
  }

  predicate GoodTitle(t: Title) {
    && t.words != "" && !IsSpace(t.words[0]) && !IsDash(t.words[0])
    && !IsSpace(t.words[|t.words| - 1]) && !IsDash(t.words[|t.words| - 1])
    && Blank(t.blanks) && t.blanks != "" && Blank(t.gap) && t.gap != ""
    && t.dashes != "" && (forall k | 0 <= k < |t.dashes| :: IsDash(t.dashes[k]))
    && t.rest != "" && !IsSpace(t.rest[0]) && forall k | 0 <= k < |t.rest| :: !IsDash(t.rest[k])
  }

  /** The type of a series is what stands before the last separator, whatever separators stand before. */
  lemma SeriesTypeIsWords(t: Title)
    requires GoodTitle(t)
    ensures SeriesType(TitleText(t)) == t.words
  {
    var s := TitleText(t);
    var i := |t.words|;
    var d := i + |t.blanks|;
    var w := d + |t.dashes|;
    var e := w + |t.gap|;
    hide IsSpace, IsDash, TitleText, GoodTitle, SeparatorEnd, LastSeparator, TrimRight;
    TitleParts(t);
    var found := ScanThrough(s, 0, i, None);
    SeparatorHere(s, i, d, w, e);
    SearchStep(s, i, found);
    NoDashNoSeparator(s, e, Some(i));
    hide SeparatorEnd, LastSeparator, TrimRight;
    TrimRightPast(t.words, "");
    assert t.words + "" == t.words;
  }

  lemma TitleParts(t: Title)
    requires GoodTitle(t)
    ensures var s, i := TitleText(t), |t.words|;
      var d := i + |t.blanks|;
      var w := d + |t.dashes|;
      var e := w + |t.gap|;
      && 0 < i < d < w < e < |s| && s[..i] == t.words && !IsSpace(s[e])
      && !IsSpace(s[i - 1]) && !IsDash(s[i - 1])
      && !IsSpace(t.words[|t.words| - 1])
      && (forall k | i <= k < d || w <= k < e :: IsSpace(s[k]))
      && (forall k | d <= k < w :: IsDash(s[k])) && (forall k | e <= k < |s| :: !IsDash(s[k]))
  {
    hide IsSpace, IsDash;
    var s, i := TitleText(t), |t.words|;
    var d := i + |t.blanks|;
    var w := d + |t.dashes|;
    var e := w + |t.gap|;
    assert forall k | i <= k < d :: s[k] == t.blanks[k - i];
    assert forall k | d <= k < w :: s[k] == t.dashes[k - d];
    assert forall k | w <= k < e :: s[k] == t.gap[k - w];
    assert forall k | e <= k < |s| :: s[k] == t.rest[k - e];
  }

  /** A title without dashes is its own type. */
  lemma PlainTitleIsType(name: string)
    requires forall k | 0 <= k < |name| :: !IsDash(name[k])
    ensures SeriesType(name) == name
  {
    NoDashNoSeparator(name, 0, None);
  }

  /** A shade row begins with a dash; its text is what follows the dashes and blanks, without blanks at the end. */
  lemma ShadeTextIsRest(front: string, marks: string, core: string, rear: string)
    requires Blank(front) && Blank(rear) && core != "" && Trimmed(core) && !IsDash(core[0])
    requires marks != "" && IsDash(marks[0]) && forall k | 0 <= k < |marks| :: IsDash(marks[k]) || marks[k] == ' ' || marks[k] == '\t'
    ensures IsShade(front + (marks + (core + rear))) && ShadeText(front + (marks + (core + rear))) == core
  {
    var rest := core + rear;
    DashIsNoSpace(marks[0]);
    assert (marks + rest)[0] == marks[0] && rest[0] == core[0];
    assert core[0] != ' ' && core[0] != '\t';
    hide IsSpace, IsDash;
    DropWhilePast(front, marks + rest, IsSpace);
    var mark := c => IsDash(c) || c == ' ' || c == '\t';
    DropWhilePast(marks, rest, mark);
    DropWhilePast("", rest, IsSpace);
    assert "" + rest == rest;
    TrimRightPast(core, rear);
  }

  lemma TitleIsNoShade(t: Title)
    requires GoodTitle(t)
    ensures TitleText(t) != "" && !IsShade(TitleText(t))
  {
    assert TitleText(t)[0] == t.words[0];
    hide IsSpace, IsDash;
  }

  /** What the scan credits for a series: a coded shade row below a coded title, with no other title in between,
      is worth one count for the words of the title and the text of the shade. A code is three to seven digits. */
  lemma SeriesShadeCredited(lines: seq<Line>, i: nat, j: nat, t: Title, marks: string, core: string)
    requires i < j < |lines|
    requires forall k | k == i || k == j :: lines[k].code.Some? && AllDigits(lines[k].code.value) && 3 <= |lines[k].code.value| <= 7
    requires GoodTitle(t) && lines[i].name == TitleText(t)
    requires core != "" && Trimmed(core) && !IsDash(core[0])
    requires marks != "" && IsDash(marks[0]) && forall k | 0 <= k < |marks| :: IsDash(marks[k]) || marks[k] == ' ' || marks[k] == '\t'
    requires lines[j].name == marks + core && forall k | i < k < j :: !IsTitle(lines[k])
    ensures CreditOf(lines, j) == multiset{Credit(lines[j].code.value, t.words, core)}
  {
    SeriesTypeIsWords(t);
    TitleIsNoShade(t);
    ShadeTextIsRest("", marks, core, "");
    assert "" + (marks + (core + "")) == marks + core;
    hide SeriesType, ShadeText, IsShade, IsCode, TitleText, GoodTitle, IsDash;
    InheritsFromCodedTitle(lines, j, t.words);
    assert NearestCodedTitle(lines, i, j);
  }

  /** A row is credited only if it and the nearest title above it have such codes and a title stands above. */
  lemma OnlyCodedCredited(lines: seq<Line>, j: nat)
    requires j < |lines| && CreditOf(lines, j) != multiset{}
    ensures exists i | 0 <= i < j ::
      && IsTitle(lines[i]) && (forall k | i < k < j :: !IsTitle(lines[k]))
      && forall k | k == i || k == j :: lines[k].code.Some? && AllDigits(lines[k].code.value) && 3 <= |lines[k].code.value| <= 7
  {
    var t := InheritedType(lines, j).value;
    InheritsFromCodedTitle(lines, j, t);
    hide InheritedType, SeriesType, ShadeText, IsTitle, IsShade;
    var i :| 0 <= i < j && NearestCodedTitle(lines, i, j);
    assert forall k | i < k < j :: !IsTitle(lines[k]);
  }
}
