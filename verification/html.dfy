/** How an HTML parser reads the text of a script element: the script data states of section 13.2.5 of
    the HTML Living Standard, from 13.2.5.4 on. */
module Html {
  import opened Base

  datatype Mode = Plain | Escaped | Double

  /** `Inside(Plain)` is the script data state, `Inside(Escaped)` and `Inside(Double)` the escaped and
      double escaped ones; `Dash`, `DashDash`, `Lt` and `EndTag` follow a dash, two dashes, a less-than
      sign and `</` in them. `name` is the temporary buffer, in lower case. */
  datatype Tok =
    | Inside(mode: Mode)
    | Dash(mode: Mode)
    | DashDash(mode: Mode)
    | Lt(mode: Mode)
    | EndTag(mode: Mode, name: string)
    | EscapeStart
    | EscapeStartDash
    | DoubleStart(name: string)
    | Closed

  predicate IsLetter(c: char) {
    'a' <= c <= 'z' || 'A' <= c <= 'Z'
  }

  function Lower(c: char): char {
    if 'A' <= c <= 'Z' then c - 'A' + 'a' else c
  }

  /** What ends a tag name. */
  predicate EndsName(c: char) {
    c == '\t' || c == '\n' || c == '\U{C}' || c == ' ' || c == '/' || c == '>'
  }

  function Typed(mode: Mode, c: char): Tok {
    if c == '<' then Lt(mode)
    else if c == '-' && !mode.Plain? then Dash(mode)
    else Inside(mode)
  }

  function Next(tok: Tok, c: char): Tok {
    match tok
    case Closed => Closed
    case Inside(mode) => Typed(mode, c)
    case Dash(mode) => if c == '-' then DashDash(mode) else Typed(mode, c)
    case DashDash(mode) =>
      if c == '-' then DashDash(mode) else if c == '>' then Inside(Plain) else Typed(mode, c)
    case Lt(mode) =>
      if c == '/' then EndTag(mode, "")
      else if c == '!' && mode.Plain? then EscapeStart
      else if IsLetter(c) && mode.Escaped? then DoubleStart([Lower(c)])
      else Typed(mode, c)
    case EndTag(mode, name) =>
      if EndsName(c) && name == "script" then (if mode.Double? then Inside(Escaped) else Closed)
      else if IsLetter(c) then EndTag(mode, name + [Lower(c)])
      else Typed(mode, c)
    case EscapeStart => if c == '-' then EscapeStartDash else Typed(Plain, c)
    case EscapeStartDash => if c == '-' then DashDash(Escaped) else Typed(Plain, c)
    case DoubleStart(name) =>
      if EndsName(c) then (if name == "script" then Inside(Double) else Inside(Escaped))
      else if IsLetter(c) then DoubleStart(name + [Lower(c)])
      else Typed(Escaped, c)
  }

  function Read(tok: Tok, s: string): Tok
    decreases |s|
  {
    if s == "" then tok else Read(Next(tok, s[0]), s[1..])
  }

  /** How many characters are read when the element is closed, if it is. */
  function ClosedAfter(tok: Tok, s: string): (n: Option<nat>)
    ensures n.Some? ==> n.value <= |s|
    decreases |s|
  {
    if tok.Closed? then Some(0)
    else if s == "" then None
    else
      match ClosedAfter(Next(tok, s[0]), s[1..])
      case Some(n) => Some(n + 1)
      case None => None
  }

  predicate DoubleEscaped(tok: Tok) {
    (tok.Inside? || tok.Dash? || tok.DashDash? || tok.Lt? || tok.EndTag?) && tok.mode.Double?
  }

  const END_TAG := "</script>"

  /** The text of a script element into which `embedded` is written: cut at an end tag of its own, and
      None when the end tag after it does not close the element, so that all that follows is inside. */
  function ElementText(embedded: string): Option<string> {
    var s := embedded + END_TAG;
    match ClosedAfter(Inside(Plain), s)
    case None => None
    case Some(n) => Some(if n < |END_TAG| then "" else s[..n - |END_TAG|])
  }

  function Lowered(s: string): (t: string)
    ensures |t| == |s|
  {
    seq(|s|, i requires 0 <= i < |s| => Lower(s[i]))
  }

  /** The beginning of an end tag of a script element stands here, in any case. */
  predicate EndTagAt(s: string, k: nat) {
    k + 8 <= |s| && s[k] == '<' && s[k + 1] == '/' && Lowered(s[k + 2..k + 8]) == "script"
  }

  ghost predicate HasEndTag(s: string) {
    exists k: nat :: EndTagAt(s, k)
  }

  predicate OpenerAt(s: string, k: nat) {
    k + 4 <= |s| && s[k] == '<' && s[k + 1] == '!' && s[k + 2] == '-' && s[k + 3] == '-'
  }

  ghost predicate HasOpener(s: string) {
    exists k: nat :: OpenerAt(s, k)
  }

  lemma {:induction false} ReadConcat(tok: Tok, a: string, b: string)
    ensures Read(tok, a + b) == Read(Read(tok, a), b)
    decreases |a|
  {
    if a == "" {
      assert a + b == b;
    } else {
      assert (a + b)[1..] == a[1..] + b;
      ReadConcat(Next(tok, a[0]), a[1..], b);
    }
  }

  lemma ReadChar(tok: Tok, a: string, c: char)
    ensures Read(tok, a + [c]) == Next(Read(tok, a), c)
  {
    ReadConcat(tok, a, [c]);
    assert [c][1..] == "";
  }

  /* ---------- what a state remembers of the text read ---------- */

  /** Where the state says so, the text ends in the beginning of a tag or of an escape. */
  ghost predicate Tracks(s: string, tok: Tok) {
    match tok
    case Lt(_) => s != "" && s[|s| - 1] == '<'
    case EndTag(_, name) => EndsInTag(s, name)
    case EscapeStart => |s| >= 2 && s[|s| - 2] == '<' && s[|s| - 1] == '!'
    case EscapeStartDash => |s| >= 3 && s[|s| - 3] == '<' && s[|s| - 2] == '!' && s[|s| - 1] == '-'
    case _ => true
  }

  ghost predicate EndsInTag(s: string, name: string) {
    var k := |s| - |name|;
    k >= 2 && s[k - 2] == '<' && s[k - 1] == '/' && Lowered(s[k..]) == name
  }

  lemma TagGrows(s: string, name: string, c: char)
    requires EndsInTag(s, name)
    ensures EndsInTag(s + [c], name + [Lower(c)])
  {
    var k := |s| - |name|;
    assert (s + [c])[k..] == s[k..] + [c];
    assert Lowered(s[k..] + [c]) == Lowered(s[k..]) + [Lower(c)];
  }

  lemma TracksNext(s: string, tok: Tok, c: char)
    requires Tracks(s, tok)
    ensures Tracks(s + [c], Next(tok, c))
  {
    if tok.EndTag? && Next(tok, c).EndTag? {
      TagGrows(s, tok.name, c);
    } else if Next(tok, c).EndTag? {
      assert (s + [c])[|s| + 1..] == "";
      assert EndsInTag(s + [c], "");
    }
    hide EndsInTag;
  }

  lemma ClosesAtEndTag(s: string, tok: Tok, c: char)
    requires Tracks(s, tok) && Next(tok, c).Closed? && !tok.Closed?
    ensures HasEndTag(s)
  {
    TagOfName(s, tok.name);
  }

  lemma TagOfName(s: string, name: string)
    requires EndsInTag(s, name) && name == "script"
    ensures HasEndTag(s)
  {
    var k: nat := |s| - 8;
    assert s[k + 2..k + 8] == s[|s| - |name|..];
    assert EndTagAt(s, k);
  }

  /** The states that only an escape leads to. */
  predicate BehindOpener(tok: Tok) {
    || tok.DoubleStart?
    || ((tok.Inside? || tok.Dash? || tok.DashDash? || tok.Lt? || tok.EndTag?) && !tok.mode.Plain?)
  }

  lemma EscapesAtOpener(s: string, tok: Tok, c: char)
    requires Tracks(s, tok) && BehindOpener(Next(tok, c)) && !BehindOpener(tok)
    ensures HasOpener(s + [c])
  {
    assert tok.EscapeStartDash? && c == '-';
    assert OpenerAt(s + [c], |s| - 3);
  }

  lemma Extended(s: string, c: char)
    ensures HasEndTag(s) ==> HasEndTag(s + [c])
    ensures HasOpener(s) ==> HasOpener(s + [c])
  {
    var t := s + [c];
    if HasEndTag(s) {
      var k: nat :| EndTagAt(s, k);
      assert t[k + 2..k + 8] == s[k + 2..k + 8];
      assert EndTagAt(t, k);
    }
    if HasOpener(s) {
      var k: nat :| OpenerAt(s, k);
      assert OpenerAt(t, k);
    }
  }

  /** Text without an end tag never closes the element, and text without an opener never escapes. */
  lemma {:induction false} ReadTracks(s: string)
    ensures Tracks(s, Read(Inside(Plain), s))
    ensures Read(Inside(Plain), s).Closed? ==> HasEndTag(s)
    ensures BehindOpener(Read(Inside(Plain), s)) ==> HasOpener(s)
  {
    if s != "" {
      var front, c := s[..|s| - 1], s[|s| - 1];
      ReadTracks(front);
      ReadChar(Inside(Plain), front, c);
      assert s == front + [c];
      var tok := Read(Inside(Plain), front);
      hide Read, Tracks, HasEndTag, HasOpener, BehindOpener;
      TracksNext(front, tok, c);
      Extended(front, c);
      if Next(tok, c).Closed? && !tok.Closed? { ClosesAtEndTag(front, tok, c); }
      if BehindOpener(Next(tok, c)) && !BehindOpener(tok) { EscapesAtOpener(front, tok, c); }
    }
  }

  /* ---------- what a double escaped state needs ---------- */

  predicate CloserAt(s: string, j: nat) {
    j + 3 <= |s| && s[j] == '-' && s[j + 1] == '-' && s[j + 2] == '>'
  }

  /** A comment opens at `k`, and no `-->` follows; the dashes of the opener may belong to one. */
  ghost predicate OpenFrom(s: string, k: nat) {
    OpenerAt(s, k) && forall j: nat | j >= k + 2 :: !CloserAt(s, j)
  }

  ghost predicate Unclosed(s: string) {
    exists k: nat :: OpenFrom(s, k)
  }

  /** The state counts the dashes that the text ends in. */
  predicate CountsDashes(s: string, k: nat, tok: Tok) {
    && (|s| >= k + 3 && s[|s| - 1] == '-' ==> tok.Dash? || tok.DashDash?)
    && (|s| >= k + 4 && s[|s| - 1] == '-' && s[|s| - 2] == '-' ==> tok.DashDash?)
  }

  ghost predicate Behind(s: string, tok: Tok) {
    BehindOpener(tok) ==> exists k: nat :: OpenFrom(s, k) && CountsDashes(s, k, tok)
  }

  lemma OpensHere(s: string, tok: Tok, c: char)
    requires Tracks(s, tok) && BehindOpener(Next(tok, c)) && !BehindOpener(tok)
    ensures Behind(s + [c], Next(tok, c))
  {
    assert tok.EscapeStartDash? && c == '-';
    var t, k: nat := s + [c], |s| - 3;
    assert OpenerAt(t, k);
    assert OpenFrom(t, k) && CountsDashes(t, k, Next(tok, c));
  }

  lemma StaysOpen(s: string, tok: Tok, c: char, k: nat)
    requires OpenFrom(s, k) && CountsDashes(s, k, tok) && BehindOpener(tok) && BehindOpener(Next(tok, c))
    ensures OpenFrom(s + [c], k) && CountsDashes(s + [c], k, Next(tok, c))
  {
    var t := s + [c];
    DashesNext(tok, c);
    hide Next;
    forall j: nat | j >= k + 2 ensures !CloserAt(t, j) {
      assert !CloserAt(s, j);
      if j + 3 == |t| && t[j] == '-' && t[j + 1] == '-' {
        assert s[|s| - 1] == '-' && s[|s| - 2] == '-';
      }
    }
  }

  lemma DashesNext(tok: Tok, c: char)
    requires BehindOpener(tok) && BehindOpener(Next(tok, c))
    ensures c == '-' ==> Next(tok, c).Dash? || Next(tok, c).DashDash?
    ensures c == '-' && (tok.Dash? || tok.DashDash?) ==> Next(tok, c).DashDash?
    ensures tok.DashDash? ==> c != '>'
  {
  }

  /** The parser is in an escaped state only behind an opener that no `-->` has closed. */
  lemma {:induction false} EscapedIsUnclosed(s: string)
    ensures Behind(s, Read(Inside(Plain), s))
  {
    if s != "" {
      var front, c := s[..|s| - 1], s[|s| - 1];
      EscapedIsUnclosed(front);
      ReadTracks(front);
      ReadChar(Inside(Plain), front, c);
      assert s == front + [c];
      var tok := Read(Inside(Plain), front);
      hide Read, Next, Tracks, HasEndTag, HasOpener, OpenFrom, CountsDashes, BehindOpener;
      if BehindOpener(Next(tok, c)) {
        if BehindOpener(tok) {
          var k: nat :| OpenFrom(front, k) && CountsDashes(front, k, tok);
          StaysOpen(front, tok, c, k);
        } else {
          OpensHere(front, tok, c);
        }
      }
    }
  }

  /** A start tag of a script element begins at `m`, in any case. */
  predicate StartTagAt(s: string, m: nat) {
    m + 7 <= |s| && s[m] == '<' && Lowered(s[m + 1..m + 7]) == "script"
  }

  ghost predicate HasStartTag(s: string) {
    exists m: nat :: StartTagAt(s, m)
  }

  predicate InDouble(tok: Tok) {
    (tok.Inside? || tok.Dash? || tok.DashDash? || tok.Lt? || tok.EndTag?) && tok.mode.Double?
  }

  /** A name being read is what stands after the last `<`; the double states have read one. */
  ghost predicate Remembers(s: string, tok: Tok) {
    && (tok.DoubleStart? ==> EndsInStart(s, tok.name))
    && (tok.Lt? ==> s != "" && s[|s| - 1] == '<')
    && (InDouble(tok) ==> HasStartTag(s))
  }

  ghost predicate EndsInStart(s: string, name: string) {
    var k := |s| - |name|;
    k >= 1 && s[k - 1] == '<' && Lowered(s[k..]) == name
  }

  lemma StartGrows(s: string, name: string, c: char)
    requires EndsInStart(s, name)
    ensures EndsInStart(s + [c], name + [Lower(c)])
  {
    var k := |s| - |name|;
    assert (s + [c])[k..] == s[k..] + [c];
    assert Lowered(s[k..] + [c]) == Lowered(s[k..]) + [Lower(c)];
  }

  lemma StartBegins(s: string, c: char)
    requires s != "" && s[|s| - 1] == '<'
    ensures EndsInStart(s + [c], [Lower(c)])
  {
    assert (s + [c])[|s|..] == [c];
    assert Lowered([c]) == [Lower(c)];
  }

  lemma StartOfName(s: string, name: string)
    requires EndsInStart(s, name) && name == "script"
    ensures HasStartTag(s)
  {
    var m: nat := |s| - 7;
    assert s[m + 1..m + 7] == s[|s| - |name|..];
    assert StartTagAt(s, m);
  }

  lemma StartExtended(s: string, c: char)
    requires HasStartTag(s)
    ensures HasStartTag(s + [c])
  {
    var m: nat :| StartTagAt(s, m);
    assert (s + [c])[m + 1..m + 7] == s[m + 1..m + 7];
    assert StartTagAt(s + [c], m);
  }

  lemma RemembersNext(s: string, tok: Tok, c: char)
    requires Remembers(s, tok)
    ensures Remembers(s + [c], Next(tok, c))
  {
    var next := Next(tok, c);
    if tok.DoubleStart? {
      if next.DoubleStart? { StartGrows(s, tok.name, c); }
      if InDouble(next) { StartOfName(s, tok.name); }
    } else if next.DoubleStart? {
      StartBegins(s, c);
    }
    if HasStartTag(s) { StartExtended(s, c); }
    hide HasStartTag, EndsInStart;
  }

  /** The parser is in a double escaped state only behind a start tag of a script as well. */
  lemma {:induction false} DoubleHasStartTag(s: string)
    ensures Remembers(s, Read(Inside(Plain), s))
  {
    if s != "" {
      var front, c := s[..|s| - 1], s[|s| - 1];
      DoubleHasStartTag(front);
      ReadChar(Inside(Plain), front, c);
      assert s == front + [c];
      hide Read, Next, Remembers;
      RemembersNext(front, Read(Inside(Plain), front), c);
    }
  }

  /* ---------- the end tag that the page writes ---------- */

  /** It closes the element from every state but the double escaped ones, with its last character; from
      those it leads back to the escaped state. */
  lemma EndTagRead(tok: Tok)
    requires !tok.Closed?
    ensures Read(tok, END_TAG) == if DoubleEscaped(tok) then Inside(Escaped) else Closed
    ensures !Read(tok, END_TAG[..8]).Closed?
  {
    LtRead(tok);
    var mode := Next(tok, '<').mode;
    EndTagParts();
    HeadRead(tok, mode, "script");
    ReadChar(tok, "</script", '>');
    TagEnd(mode, "script");
    hide Read, Next, DoubleEscaped;
  }

  lemma LtRead(tok: Tok)
    requires !tok.Closed?
    ensures Next(tok, '<').Lt? && (Next(tok, '<').mode.Double? <==> DoubleEscaped(tok))
  {
  }

  lemma TagEnd(mode: Mode, name: string)
    requires name == "script"
    ensures Next(EndTag(mode, name), '>') == if mode.Double? then Inside(Escaped) else Closed
  {
  }

  lemma EndTagParts()
    ensures END_TAG[..8] == "</script" && END_TAG == "</script" + ">"
  {
  }

  lemma HeadRead(tok: Tok, mode: Mode, name: string)
    requires Next(tok, '<') == Lt(mode) && name == "script"
    ensures Read(tok, "</script") == EndTag(mode, name)
  {
    NameRead(mode, name);
    LtThenSolidus(mode);
    hide Next;
    var head := ['<'] + (['/'] + name);
    assert head == "</script";
    assert head[1..] == ['/'] + name && (['/'] + name)[1..] == name;
  }

  lemma LtThenSolidus(mode: Mode)
    ensures Next(Lt(mode), '/') == EndTag(mode, "")
  {
  }

  lemma NameRead(mode: Mode, name: string)
    requires name == "script"
    ensures Read(EndTag(mode, ""), name) == EndTag(mode, name)
  {
    LettersRead(mode, "", name);
    assert "" + name == name;
  }

  lemma {:induction false} LettersRead(mode: Mode, name: string, letters: string)
    requires forall i | 0 <= i < |letters| :: 'a' <= letters[i] <= 'z'
    ensures Read(EndTag(mode, name), letters) == EndTag(mode, name + letters)
    decreases |letters|
  {
    if letters == "" {
      assert name + letters == name;
    } else {
      LettersRead(mode, name + [letters[0]], letters[1..]);
      assert name + [letters[0]] + letters[1..] == name + letters;
    }
  }

  lemma {:induction false} ClosedStays(s: string)
    ensures Read(Closed, s) == Closed
  {
    if s != "" { ClosedStays(s[1..]); }
  }

  lemma {:induction false} ClosedAfterIs(tok: Tok, s: string)
    ensures ClosedAfter(tok, s).Some? <==> Read(tok, s).Closed?
    ensures ClosedAfter(tok, s).Some? ==> Read(tok, s[..ClosedAfter(tok, s).value]).Closed?
    decreases |s|
  {
    if tok.Closed? {
      ClosedStays(s);
    } else if s != "" {
      ClosedAfterIs(Next(tok, s[0]), s[1..]);
      if ClosedAfter(tok, s).Some? {
        var n := ClosedAfter(tok, s).value;
        assert s[..n][1..] == s[1..][..n - 1];
      }
    }
  }

  /** Embedded text without an end tag is the text of its element exactly when it does not end in a
      double escaped state; otherwise the element swallows what follows. */
  lemma ElementTextIs(embedded: string)
    requires !HasEndTag(embedded)
    ensures ElementText(embedded)
            == if DoubleEscaped(Read(Inside(Plain), embedded)) then None else Some(embedded)
  {
    var s, tok := embedded + END_TAG, Read(Inside(Plain), embedded);
    ReadTracks(embedded);
    EndTagRead(tok);
    ReadConcat(Inside(Plain), embedded, END_TAG);
    ClosedAfterIs(Inside(Plain), s);
    if !DoubleEscaped(tok) { ClosedAtEnd(embedded); }
    hide Read, ClosedAfter, DoubleEscaped, Tracks, HasEndTag, HasOpener, BehindOpener;
    assert s[..|embedded|] == embedded;
  }

  lemma ClosedAtEnd(embedded: string)
    requires !Read(Read(Inside(Plain), embedded), END_TAG[..8]).Closed?
    requires ClosedAfter(Inside(Plain), embedded + END_TAG).Some?
    ensures ClosedAfter(Inside(Plain), embedded + END_TAG) == Some(|embedded + END_TAG|)
  {
    hide Read;
    var s := embedded + END_TAG;
    var n := ClosedAfter(Inside(Plain), s).value;
    ClosedAfterIs(Inside(Plain), s);
    hide ClosedAfter;
    if n < |s| { NotYetClosed(embedded, n); }
  }

  lemma NotYetClosed(embedded: string, n: nat)
    requires n < |embedded| + |END_TAG|
    requires !Read(Read(Inside(Plain), embedded), END_TAG[..8]).Closed?
    ensures !Read(Inside(Plain), (embedded + END_TAG)[..n]).Closed?
  {
    var head := embedded + END_TAG[..8];
    ReadConcat(Inside(Plain), embedded, END_TAG[..8]);
    var a, b := head[..n], head[n..];
    assert head == a + b && (embedded + END_TAG)[..n] == a;
    ReadConcat(Inside(Plain), a, b);
    ClosedStays(b);
  }

  /** The name of the element in any mixture of small and capital letters. */
  predicate SpellsScript(tag: string) {
    |tag| == 6 && forall i | 0 <= i < 6 :: tag[i] == "script"[i] || tag[i] == "SCRIPT"[i]
  }

  lemma ScriptLowered(tag: string)
    requires SpellsScript(tag)
    ensures Lowered(tag) == "script"
  {
    assert forall i | 0 <= i < 6 :: Lower("SCRIPT"[i]) == "script"[i] == Lower("script"[i]);
    hide Lower;
  }

  /** Why the export escapes: an end tag of its own, in any case, before one of the characters that end a tag
      name, cuts the payload there and lets the rest out into the page. */
  lemma EndTagCuts(front: string, tag: string, c: char, rest: string)
    requires (forall i | 0 <= i < |front| :: front[i] != '<') && SpellsScript(tag) && c in "\t\n\U{C} />"
    ensures ElementText(front + (("</" + tag) + ([c] + rest))) == Some(front)
  {
    ScriptLowered(tag);
    assert EndsName(c);
    var head := "</" + tag;
    var s := front + (head + ([c] + rest)) + END_TAG;
    TagCloses(tag, c);
    PlainStays(front);
    ReadConcat(Inside(Plain), front, head + [c]);
    ReadConcat(Inside(Plain), front, head);
    var n := |front| + 9;
    assert s[..n] == front + (head + [c]) && s[..n - 1] == front + head;
    hide Read, Next, Lowered, EndsName, SpellsScript;
    ClosedFirstAt(s, n);
    assert s[..n - 9] == front;
  }

  lemma {:induction false} PlainStays(s: string)
    requires forall i | 0 <= i < |s| :: s[i] != '<'
    ensures Read(Inside(Plain), s) == Inside(Plain)
  {
    if s != "" { PlainStays(s[1..]); }
  }

  lemma TagCloses(tag: string, c: char)
    requires Lowered(tag) == "script" && EndsName(c)
    ensures Read(Inside(Plain), ("</" + tag) + [c]) == Closed && !Read(Inside(Plain), "</" + tag).Closed?
  {
    var head := "</" + tag;
    ReadChar(Inside(Plain), head, c);
    assert head[1..] == "/" + tag && ("/" + tag)[1..] == tag;
    assert Read(Inside(Plain), head) == Read(Lt(Plain), "/" + tag) == Read(EndTag(Plain, ""), tag);
    AnyLettersRead(Plain, "", tag);
    assert "" + Lowered(tag) == Lowered(tag);
  }

  lemma {:induction false} AnyLettersRead(mode: Mode, name: string, tag: string)
    requires forall i | 0 <= i < |tag| :: IsLetter(Lowered(tag)[i])
    ensures Read(EndTag(mode, name), tag) == EndTag(mode, name + Lowered(tag))
    decreases |tag|
  {
    if tag == "" {
      assert name + Lowered(tag) == name;
    } else {
      assert IsLetter(Lowered(tag)[0]) && Lowered(tag)[1..] == Lowered(tag[1..]);
      AnyLettersRead(mode, name + [Lower(tag[0])], tag[1..]);
      assert name + [Lower(tag[0])] + Lowered(tag[1..]) == name + Lowered(tag);
    }
  }

  lemma ClosedFirstAt(s: string, n: nat)
    requires 0 < n <= |s| && Read(Inside(Plain), s[..n]).Closed? && !Read(Inside(Plain), s[..n - 1]).Closed?
    ensures ClosedAfter(Inside(Plain), s) == Some(n)
  {
    hide Read, ClosedAfter;
    ClosedAfterIs(Inside(Plain), s);
    ClosedLeast(Inside(Plain), s, n);
    StillOpen(s, ClosedAfter(Inside(Plain), s).value, n - 1);
  }

  /** A prefix of text that does not close the element does not close it either. */
  lemma StillOpen(s: string, k: nat, m: nat)
    requires k <= |s| && m <= |s| && Read(Inside(Plain), s[..k]).Closed? && !Read(Inside(Plain), s[..m]).Closed?
    ensures m < k
  {
    hide Read;
    if k <= m {
      var a, b := s[..k], s[k..m];
      assert s[..m] == a + b;
      ReadConcat(Inside(Plain), a, b);
      ClosedStays(b);
    }
  }

  lemma {:induction false} ClosedLeast(tok: Tok, s: string, n: nat)
    requires n <= |s| && Read(tok, s[..n]).Closed?
    ensures ClosedAfter(tok, s).Some? && ClosedAfter(tok, s).value <= n
    decreases |s|
  {
    if !tok.Closed? {
      assert n > 0 by { assert s[..0] == ""; }
      assert s[..n][1..] == s[1..][..n - 1];
      ClosedLeast(Next(tok, s[0]), s[1..], n - 1);
    }
  }

  /** In the double escaped case the page's own script begins as text of the same element. */
  lemma CodeSwallowed(embedded: string, between: string)
    requires !HasEndTag(embedded)
    requires DoubleEscaped(Read(Inside(Plain), embedded))
    requires forall i | 0 <= i < |between| :: between[i] == ' ' || between[i] == '\n'
    ensures Read(Inside(Plain), embedded + END_TAG + between + "<script>") == Inside(Double)
  {
    ReadTracks(embedded);
    EndTagRead(Read(Inside(Plain), embedded));
    ReadConcat(Inside(Plain), embedded, END_TAG);
    ReadConcat(Inside(Plain), embedded + END_TAG, between);
    BlanksRead(between);
    ReadConcat(Inside(Plain), embedded + END_TAG + between, "<script>");
    OpeningRead(Inside(Escaped), "cript");
  }

  lemma {:induction false} BlanksRead(s: string)
    requires forall i | 0 <= i < |s| :: s[i] == ' ' || s[i] == '\n'
    ensures Read(Inside(Escaped), s) == Inside(Escaped)
  {
    if s != "" { BlanksRead(s[1..]); }
  }

  lemma OpeningRead(tok: Tok, rest: string)
    requires Next(tok, '<') == Lt(Escaped) && rest == "cript"
    ensures Read(tok, "<script>") == Inside(Double)
  {
    StartRead("s", rest);
    var tail := rest + [">"[0]];
    var all := ['<'] + (['s'] + tail);
    assert all == "<script>";
    assert all[1..] == ['s'] + tail && (['s'] + tail)[1..] == tail;
    assert Next(Lt(Escaped), 's') == DoubleStart("s");
    ReadChar(DoubleStart("s"), rest, '>');
    assert "s" + rest == "script";
  }

  lemma {:induction false} StartRead(name: string, letters: string)
    requires forall i | 0 <= i < |letters| :: 'a' <= letters[i] <= 'z'
    ensures Read(DoubleStart(name), letters) == DoubleStart(name + letters)
    decreases |letters|
  {
    if letters == "" {
      assert name + letters == name;
    } else {
      StartRead(name + [letters[0]], letters[1..]);
      assert name + [letters[0]] + letters[1..] == name + letters;
    }
  }
}
