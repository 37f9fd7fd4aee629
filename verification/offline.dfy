/** app/routes/offline.py: the text of an offline bundle on its way from the exporting client through an
    HTML page and a form post back to record lines. */
module Offline {
  import opened Base
  import Html

  /* ---------- the JSON encoder (json.dumps, ensure_ascii=False) ---------- */

  /** `Literal` is null, a truth value or a number. */
  datatype Json =
    | Literal(text: string)
    | Text(chars: string)
    | List(items: seq<Json>)
    | Object(fields: seq<(string, Json)>)

  predicate LiteralChar(c: char) {
    'a' <= c <= 'z' || 'A' <= c <= 'Z' || '0' <= c <= '9' || c == '+' || c == '-' || c == '.'
  }

  predicate Legal(j: Json) {
    match j
    case Literal(text) => text != "" && forall i | 0 <= i < |text| :: LiteralChar(text[i])
    case Text(_) => true
    case List(items) => forall x <- items :: Legal(x)
    case Object(fields) => forall f <- fields :: Legal(f.1)
  }

  function Hex(n: nat): (c: char)
    requires n < 16
    ensures '0' <= c <= '9' || 'a' <= c <= 'f'
  {
    "0123456789abcdef"[n]
  }

  /** Section 7 of RFC 8259: quotation mark, reverse solidus and control characters are escaped; a
      solidus never is. */
  function EncodeChar(c: char): string {
    if c == '\"' then "\\\""
    else if c == '\\' then "\\\\"
    else if c == '\n' then "\\n"
    else if c == '\r' then "\\r"
    else if c == '\t' then "\\t"
    else if c == '\U{8}' then "\\b"
    else if c == '\U{C}' then "\\f"
    else if c < ' ' then "\\u00" + [Hex(c as int / 16), Hex(c as int % 16)]
    else [c]
  }

  function EncodeChars(s: string): string {
    if s == "" then "" else EncodeChar(s[0]) + EncodeChars(s[1..])
  }

  function Quoted(s: string): string {
    "\"" + EncodeChars(s) + "\""
  }

  function Encode(j: Json): string
    decreases j
  {
    match j
    case Literal(text) => text
    case Text(chars) => Quoted(chars)
    case List(items) => "[" + EncodeItems(j, items) + "]"
    case Object(fields) => "{" + EncodeFields(j, fields) + "}"
  }

  function EncodeItems(j: Json, items: seq<Json>): string
    requires forall i | 0 <= i < |items| :: items[i] < j
    decreases j, |items|
  {
    if items == [] then ""
    else if |items| == 1 then Encode(items[0])
    else Encode(items[0]) + ", " + EncodeItems(j, items[1..])
  }

  function EncodeFields(j: Json, fields: seq<(string, Json)>): string
    requires forall i | 0 <= i < |fields| :: fields[i].1 < j
    decreases j, |fields|
  {
    if fields == [] then ""
    else
      var head := Quoted(fields[0].0) + ": " + Encode(fields[0].1);
      if |fields| == 1 then head else head + ", " + EncodeFields(j, fields[1..])
  }

  /* ---------- what encoded text never contains ---------- */

  predicate EscapedSolidusAt(s: string, i: nat) {
    i + 2 < |s| && s[i] == '<' && s[i + 1] == '\\' && s[i + 2] == '/'
  }

  /** No `<`, reverse solidus, solidus in a row. */
  ghost predicate NoEscapedSolidus(s: string) {
    forall i: nat :: !EscapedSolidusAt(s, i)
  }

  predicate NoLineBreak(s: string) {
    forall i | 0 <= i < |s| :: s[i] != '\r' && s[i] != '\n'
  }

  /** A piece that may follow any other without completing a forbidden triple. */
  ghost predicate Solid(s: string) {
    && NoEscapedSolidus(s)
    && (s != "" ==> s[0] != '\\' && s[0] != '/')
  }

  lemma SolidConcat(a: string, b: string)
    requires NoEscapedSolidus(a) && Solid(b)
    ensures NoEscapedSolidus(a + b)
    ensures Solid(a) ==> Solid(a + b)
  {
    forall i: nat
      ensures !EscapedSolidusAt(a + b, i)
    {
      assert !EscapedSolidusAt(a, i);
      if i >= |a| { assert !EscapedSolidusAt(b, i - |a|); }
    }
  }

  lemma EncodedChar(c: char)
    ensures var p := EncodeChar(c);
      && p != "" && NoLineBreak(p)
      && (p == "<" || forall i | 0 <= i < |p| :: p[i] != '<')
      && (p[0] == '\\' ==> |p| > 1 && p[1] != '/')
  {
    hide Hex;
  }

  lemma {:induction false} EncodedChars(s: string)
    ensures var e := EncodeChars(s);
      && NoEscapedSolidus(e) && NoLineBreak(e)
      && (e != "" && e[0] == '\\' ==> |e| > 1 && e[1] != '/')
  {
    if s != "" {
      EncodedChars(s[1..]);
      EncodedChar(s[0]);
      AfterChar(EncodeChar(s[0]), EncodeChars(s[1..]));
    }
  }

  lemma AfterChar(p: string, e: string)
    requires p == "<" || (p != "" && forall i | 0 <= i < |p| :: p[i] != '<')
    requires NoEscapedSolidus(e) && (e != "" && e[0] == '\\' ==> |e| > 1 && e[1] != '/')
    ensures NoEscapedSolidus(p + e)
  {
    forall i: nat
      ensures !EscapedSolidusAt(p + e, i)
    {
      if i >= |p| { assert !EscapedSolidusAt(e, i - |p|); }
    }
  }

  lemma EncodedQuoted(s: string)
    ensures Solid(Quoted(s)) && NoLineBreak(Quoted(s))
  {
    EncodedChars(s);
    var e := EncodeChars(s);
    SolidConcat(e, "\"");
    forall i: nat
      ensures !EscapedSolidusAt("\"" + (e + "\""), i)
    {
      if i > 0 { assert !EscapedSolidusAt(e + "\"", i - 1); }
    }
    assert Quoted(s) == "\"" + (e + "\"");
  }

  lemma {:induction false} Encoded(j: Json)
    requires Legal(j)
    ensures Solid(Encode(j)) && NoLineBreak(Encode(j))
    decreases j
  {
    match j
    case Literal(_) =>
    case Text(chars) => EncodedQuoted(chars);
    case List(items) =>
      EncodedItems(j, items);
      SolidConcat("[", EncodeItems(j, items));
      SolidConcat("[" + EncodeItems(j, items), "]");
    case Object(fields) =>
      EncodedFields(j, fields);
      SolidConcat("{", EncodeFields(j, fields));
      SolidConcat("{" + EncodeFields(j, fields), "}");
  }

  lemma {:induction false} EncodedItems(j: Json, items: seq<Json>)
    requires forall i | 0 <= i < |items| :: items[i] < j && Legal(items[i])
    ensures Solid(EncodeItems(j, items)) && NoLineBreak(EncodeItems(j, items))
    decreases j, |items|
  {
    if items != [] {
      Encoded(items[0]);
      EncodedItems(j, items[1..]);
      SolidConcat(Encode(items[0]), ", ");
      SolidConcat(Encode(items[0]) + ", ", EncodeItems(j, items[1..]));
    }
  }

  lemma {:induction false} EncodedFields(j: Json, fields: seq<(string, Json)>)
    requires forall i | 0 <= i < |fields| :: fields[i].1 < j && Legal(fields[i].1)
    ensures Solid(EncodeFields(j, fields)) && NoLineBreak(EncodeFields(j, fields))
    decreases j, |fields|
  {
    if fields != [] {
      var head := Quoted(fields[0].0) + ": " + Encode(fields[0].1);
      EncodedQuoted(fields[0].0);
      Encoded(fields[0].1);
      EncodedFields(j, fields[1..]);
      SolidConcat(Quoted(fields[0].0), ": ");
      SolidConcat(Quoted(fields[0].0) + ": ", Encode(fields[0].1));
      SolidConcat(head, ", ");
      SolidConcat(head + ", ", EncodeFields(j, fields[1..]));
    }
  }

  /* ---------- the `</script` escape and its inverse ---------- */

  const SCRIPT := "script"

  function Upper(c: char): char {
    if 'a' <= c <= 'z' then c - 'a' + 'A' else c
  }

  /** JavaScript's /i without /u: only the two ASCII cases of a letter. */
  predicate JsFolds(c: char, letter: char) {
    c == letter || c == Upper(letter)
  }

  /** Python's re.IGNORECASE on text also folds U+017F to s, and U+0130 and U+0131 to i. */
  predicate PyFolds(c: char, letter: char) {
    || JsFolds(c, letter)
    || (letter == 's' && c == '\U{17F}')
    || (letter == 'i' && (c == '\U{130}' || c == '\U{131}'))
  }

  predicate PyTag(s: string) {
    |s| >= 6 && forall k | 0 <= k < 6 :: PyFolds(s[k], SCRIPT[k])
  }

  predicate JsTag(s: string) {
    |s| >= 6 && forall k | 0 <= k < 6 :: JsFolds(s[k], SCRIPT[k])
  }

  /** The export's pattern matches here. */
  predicate Closes(s: string) {
    |s| >= 8 && s[0] == '<' && s[1] == '/' && PyTag(s[2..])
  }

  /** re.sub(r"</script", ..., flags=re.IGNORECASE) */
  function Escape(s: string): string {
    if s == "" then ""
    else if Closes(s) then "<\\" + s[1..8] + Escape(s[8..])
    else [s[0]] + Escape(s[1..])
  }

  predicate Opens(s: string) {
    |s| >= 9 && s[0] == '<' && s[1] == '\\' && s[2] == '/' && JsTag(s[3..])
  }

  /** raw.replace(/<\\\/(script)/gi, "</$1") in the saved page. */
  function Restore(s: string): string {
    if s == "" then ""
    else if Opens(s) then "<" + s[2..9] + Restore(s[9..])
    else [s[0]] + Restore(s[1..])
  }

  /** A closing tag that the export escapes and the page does not restore: one spelled with a long s,
      a dotless i or a dotted capital I. */
  predicate Exotic(s: string) {
    s != "" && ((Closes(s) && !JsTag(s[2..])) || Exotic(s[1..]))
  }

  predicate HasClosingTag(s: string) {
    s != "" && (Closes(s) || HasClosingTag(s[1..]))
  }

  predicate NoOpening(s: string) {
    forall i | 0 <= i < |s| :: s[i] != '<'
  }

  lemma {:induction false} EscapeSameUntilTag(t: string, k: nat)
    requires k <= |Escape(t)| && NoOpening(Escape(t)[..k])
    ensures k <= |t| && Escape(t)[..k] == t[..k]
  {
    if k > 0 {
      assert Escape(t)[0] == t[0];
      assert Escape(t)[0] != '<' by { assert Escape(t)[..k][0] == Escape(t)[0]; }
      assert Escape(t) == [t[0]] + Escape(t[1..]);
      assert Escape(t)[..k][1..] == Escape(t[1..])[..k - 1];
      EscapeSameUntilTag(t[1..], k - 1);
      assert t[..k] == [t[0]] + t[1..][..k - 1];
    }
  }

  lemma {:induction false} NoTagBefore(p: string, t: string)
    requires NoOpening(p)
    ensures HasClosingTag(p + t) <==> HasClosingTag(t)
    ensures Exotic(p + t) <==> Exotic(t)
    ensures Restore(p + t) == p + Restore(t)
  {
    if p == "" {
      assert p + t == t;
    } else {
      assert (p + t)[1..] == p[1..] + t;
      NoTagBefore(p[1..], t);
      PlainCharBefore(p[0], p[1..] + t);
      hide HasClosingTag, Exotic, Restore;
      assert p + t == [p[0]] + (p[1..] + t);
      assert p + Restore(t) == [p[0]] + (p[1..] + Restore(t));
    }
  }

  lemma PlainCharBefore(c: char, t: string)
    requires c != '<'
    ensures HasClosingTag([c] + t) <==> HasClosingTag(t)
    ensures Exotic([c] + t) <==> Exotic(t)
    ensures Restore([c] + t) == [c] + Restore(t)
  {
    hide PyTag, JsTag;
    assert ([c] + t)[1..] == t;
  }

  lemma TagHasNoOpening(s: string)
    requires PyTag(s)
    ensures NoOpening(s[..6])
  {
  }

  /** After the export no closing script tag is left, in any spelling the pattern knows. */
  lemma {:induction false} EscapeLeavesNoTag(s: string)
    ensures !HasClosingTag(Escape(s))
  {
    if s != "" {
      if Closes(s) {
        EscapeLeavesNoTag(s[8..]);
        EscapedTag(s, Escape(s[8..]));
      } else {
        EscapeLeavesNoTag(s[1..]);
        var e := Escape(s[1..]);
        assert Escape(s) == [s[0]] + e;
        TagWasThere(s);
        hide Escape, Closes;
        assert ([s[0]] + e)[1..] == e;
      }
    }
  }

  lemma EscapedTag(s: string, rest: string)
    requires Closes(s) && !HasClosingTag(rest)
    ensures !HasClosingTag("<\\" + s[1..8] + rest)
  {
    TagHasNoOpening(s[2..]);
    assert s[1..8] == "/" + s[2..][..6];
    var p := "\\" + s[1..8];
    NoTagBefore(p, rest);
    var t := "<\\" + s[1..8] + rest;
    assert t == "<" + (p + rest) && t[1..] == p + rest;
    assert t[1] == p[0];
  }

  /** The escape does not make up a tag where it copies a character. */
  lemma TagWasThere(s: string)
    requires s != ""
    ensures Closes([s[0]] + Escape(s[1..])) ==> Closes(s)
  {
    if Closes([s[0]] + Escape(s[1..])) { CopiedTag(s, Escape(s[1..])); }
  }

  lemma CopiedTag(s: string, e: string)
    requires s != "" && e == Escape(s[1..]) && Closes([s[0]] + e)
    ensures Closes(s)
  {
    var t := [s[0]] + e;
    assert t[1..] == e && t[2..] == e[1..];
    TagHasNoOpening(e[1..]);
    assert e[..7] == "/" + e[1..][..6];
    EscapeSameUntilTag(s[1..], 7);
    hide Escape;
    assert s[2..][..6] == s[1..][..7][1..] == e[..7][1..] == e[1..][..6];
    assert forall k | 0 <= k < 6 :: s[2..][k] == s[2..][..6][k] == e[1..][..6][k] == e[1..][k];
  }

  /** The page gives back the exported text exactly when it holds no exotic closing tag; otherwise the
      text comes back longer. */
  lemma {:induction false} RestoreUndoesEscape(s: string)
    requires NoEscapedSolidus(s)
    ensures Restore(Escape(s)) == s <==> !Exotic(s)
    ensures |Restore(Escape(s))| >= |s| && (|Restore(Escape(s))| == |s| <==> !Exotic(s))
  {
    if s != "" {
      if Closes(s) {
        SuffixSolid(s, 8);
        RestoreUndoesEscape(s[8..]);
        RestoreMatch(s);
      } else {
        SuffixSolid(s, 1);
        RestoreUndoesEscape(s[1..]);
        var e := Escape(s[1..]);
        OpenedBefore(s);
        assert !EscapedSolidusAt(s, 0);
        assert Escape(s)[1..] == e;
      }
    }
  }

  /** Where no tag is escaped, an escaped tag in the result was in the text already. */
  lemma OpenedBefore(s: string)
    requires s != "" && !Closes(s)
    ensures Opens(Escape(s)) ==> EscapedSolidusAt(s, 0)
  {
    if Opens(Escape(s)) {
      var e := Escape(s[1..]);
      assert Escape(s) == [s[0]] + e;
      assert e[0] == '\\' && e[1] == '/' && e[0] == s[1];
      assert e == [s[1]] + Escape(s[2..]);
      hide PyTag, JsTag;
      assert e[1] == s[2];
    }
  }

  lemma SuffixSolid(s: string, k: nat)
    requires NoEscapedSolidus(s) && k <= |s|
    ensures NoEscapedSolidus(s[k..])
  {
    forall i: nat
      ensures !EscapedSolidusAt(s[k..], i)
    {
      assert !EscapedSolidusAt(s, i + k);
    }
  }

  lemma RestoreMatch(s: string)
    requires Closes(s)
    ensures var r := Restore(Escape(s[8..]));
      && Restore(Escape(s)) == (if JsTag(s[2..]) then s[..8] + r else "<\\" + s[1..8] + r)
      && (Exotic(s) <==> !JsTag(s[2..]) || Exotic(s[8..]))
  {
    var w, e := s[1..8], Escape(s[8..]);
    TagHasNoOpening(s[2..]);
    assert w == "/" + s[2..][..6];
    assert s[1..] == w + s[8..];
    NoTagBefore(w, s[8..]);
    EscapedMatch(w, e);
    assert forall k | 0 <= k < 6 :: w[1..][k] == s[2..][k];
    assert "<" + w == s[..8];
    assert Escape(s) == "<\\" + w + e;
  }

  /** What the page makes of one escaped tag, `w` being the solidus and the tag word. */
  lemma EscapedMatch(w: string, e: string)
    requires |w| == 7 && w[0] == '/' && NoOpening(w)
    ensures Restore("<\\" + w + e) == if JsTag(w[1..]) then "<" + w + Restore(e) else "<\\" + w + Restore(e)
  {
    var all := "<\\" + w + e;
    EscapedParts(w, e);
    NoTagBefore("\\" + w, e);
    RestoreStep(all);
    Regrouped("<", "\\" + w, Restore(e));
    hide Restore, Opens, JsTag, NoOpening, HasClosingTag, Exotic;
    assert "<\\" + w == "<" + ("\\" + w);
  }

  lemma RestoreStep(s: string)
    requires s != ""
    ensures Restore(s) == if Opens(s) then "<" + s[2..9] + Restore(s[9..]) else [s[0]] + Restore(s[1..])
  {
  }

  lemma Regrouped(a: string, b: string, c: string)
    ensures a + b + c == a + (b + c)
  {
  }

  lemma EscapedParts(w: string, e: string)
    requires |w| == 7 && w[0] == '/'
    ensures var all := "<\\" + w + e;
      && (Opens(all) <==> JsTag(w[1..]))
      && all[1..] == ("\\" + w) + e && all[2..9] == w && all[9..] == e
  {
    var all := "<\\" + w + e;
    assert all[3..] == w[1..] + e;
    TagPrefix(w[1..], e);
    hide JsTag;
  }

  lemma TagPrefix(w: string, e: string)
    requires |w| == 6
    ensures JsTag(w + e) <==> JsTag(w)
  {
    assert forall k | 0 <= k < 6 :: (w + e)[k] == w[k];
  }

  /** The failing family is real: a product named with a long s. */
  lemma LongSIsExotic(name: string)
    requires name == "</\U{17F}cript>"
    ensures var body := Encode(Text(name)); Exotic(body) && Restore(Escape(body)) != body
  {
    var body := Encode(Text(name));
    Encoded(Text(name));
    PlainChars(name);
    var tail := name + "\"";
    assert body == "\"" + tail;
    assert tail[2..] == "\U{17F}cript>\"";
    ExoticHere(tail);
    NoTagBefore("\"", tail);
    RestoreUndoesEscape(body);
  }

  lemma ExoticHere(s: string)
    requires |s| >= 2 && s[0] == '<' && s[1] == '/' && s[2..] == "\U{17F}cript>\""
    ensures Exotic(s)
  {
    LongSTag(s[2..]);
    assert Closes(s);
  }

  lemma LongSTag(w: string)
    requires w == "\U{17F}cript>\""
    ensures PyTag(w) && !JsTag(w)
  {
    assert w[0] == '\U{17F}' && w[1] == 'c' && w[2] == 'r' && w[3] == 'i' && w[4] == 'p' && w[5] == 't';
    assert !JsFolds(w[0], SCRIPT[0]);
  }

  lemma {:induction false} PlainChars(s: string)
    requires forall i | 0 <= i < |s| :: s[i] >= ' ' && s[i] != '\"' && s[i] != '\\'
    ensures EncodeChars(s) == s
  {
    if s != "" { PlainChars(s[1..]); }
  }

  /* ---------- newlines ---------- */

  function Join(lines: seq<string>): string {
    if lines == [] then ""
    else if |lines| == 1 then lines[0]
    else lines[0] + "\n" + Join(lines[1..])
  }

  /** str.split("\n") */
  function Split(s: string): (lines: seq<string>)
    ensures lines != []
  {
    if s == "" then [""]
    else
      var rest := Split(s[1..]);
      if s[0] == '\n' then [""] + rest else [[s[0]] + rest[0]] + rest[1..]
  }

  function ReplaceCrLf(s: string): string {
    if s == "" then ""
    else if |s| > 1 && s[0] == '\r' && s[1] == '\n' then "\n" + ReplaceCrLf(s[2..])
    else [s[0]] + ReplaceCrLf(s[1..])
  }

  function ReplaceCr(s: string): string {
    if s == "" then "" else (if s[0] == '\r' then "\n" else [s[0]]) + ReplaceCr(s[1..])
  }

  /** The canonicalisation of the upload route. */
  function Canonical(s: string): string {
    ReplaceCr(ReplaceCrLf(s))
  }

  /** What a form submission does to a value: every line break becomes CRLF. */
  function FormNormal(s: string): string {
    if s == "" then ""
    else if |s| > 1 && s[0] == '\r' && s[1] == '\n' then "\r\n" + FormNormal(s[2..])
    else if s[0] == '\r' || s[0] == '\n' then "\r\n" + FormNormal(s[1..])
    else [s[0]] + FormNormal(s[1..])
  }

  predicate NoCr(s: string) {
    forall i | 0 <= i < |s| :: s[i] != '\r'
  }

  lemma {:induction false} FormThenCanonical(s: string)
    requires NoCr(s)
    ensures ReplaceCrLf(FormNormal(s)) == s && ReplaceCr(s) == s
  {
    if s != "" {
      FormThenCanonical(s[1..]);
      var f := FormNormal(s);
      if s[0] == '\n' {
        assert f[2..] == FormNormal(s[1..]);
      } else {
        assert f[1..] == FormNormal(s[1..]);
      }
      assert s == [s[0]] + s[1..];
    }
  }

  /** The text with every line break spelled this way. */
  function Respelled(s: string, breaks: string): string {
    if s == "" then "" else (if s[0] == '\n' then breaks else [s[0]]) + Respelled(s[1..], breaks)
  }

  /** The upload reads all three spellings of a line break alike. */
  lemma {:induction false} AnyLineBreaks(s: string, breaks: string)
    requires NoCr(s) && breaks in ["\n", "\r\n", "\r"]
    ensures Canonical(Respelled(s, breaks)) == s
  {
    if s != "" {
      var rest := Respelled(s[1..], breaks);
      AnyLineBreaks(s[1..], breaks);
      RespelledStart(s[1..], breaks);
      var head := if s[0] == '\n' then breaks else [s[0]];
      assert (head + rest)[|head|..] == rest;
      assert ReplaceCrLf(head + rest) == (if head == "\r\n" then "\n" else head) + ReplaceCrLf(rest);
      assert s == [s[0]] + s[1..];
    }
  }

  lemma RespelledStart(s: string, breaks: string)
    requires NoCr(s) && breaks in ["\n", "\r\n", "\r"]
    ensures var r := Respelled(s, breaks); breaks == "\r" && r != "" ==> r[0] != '\n'
  {
  }

  lemma {:induction false} SplitLine(line: string, rest: string)
    requires NoLineBreak(line)
    ensures Split(line) == [line]
    ensures Split(line + "\n" + rest) == [line] + Split(rest)
  {
    if line == "" {
      assert line + "\n" + rest == "\n" + rest;
      assert ("\n" + rest)[1..] == rest;
    } else {
      SplitLine(line[1..], rest);
      assert (line + "\n" + rest)[1..] == line[1..] + "\n" + rest;
      assert line == [line[0]] + line[1..];
    }
  }

  lemma {:induction false} SplitJoin(lines: seq<string>)
    requires lines != [] && forall i | 0 <= i < |lines| :: NoLineBreak(lines[i])
    ensures Split(Join(lines)) == lines && NoCr(Join(lines))
  {
    SplitLine(lines[0], Join(lines[1..]));
    if |lines| > 1 {
      SplitJoin(lines[1..]);
      assert lines == [lines[0]] + lines[1..];
    } else {
      assert lines == [lines[0]];
    }
  }

  lemma {:induction false} JoinSplit(s: string)
    ensures Join(Split(s)) == s
  {
    if s != "" {
      JoinSplit(s[1..]);
      var rest := Split(s[1..]);
      assert s == [s[0]] + s[1..];
      if s[0] == '\n' {
        assert ([""] + rest)[1..] == rest;
      } else {
        var all := [[s[0]] + rest[0]] + rest[1..];
        assert all[1..] == rest[1..];
      }
    }
  }

  /* ---------- the whole way ---------- */

  function EncodeAll(records: seq<Json>): seq<string> {
    seq(|records|, i requires 0 <= i < |records| => Encode(records[i]))
  }

  /** Export, page, form post, upload. None when the page's code never becomes a script of its own, or
      when the counts of the header line, one for each record line after it, add up to zero. */
  function Deliver(lines: seq<string>): Option<seq<string>> {
    match Html.ElementText(Escape(Join(lines)))
    case None => None
    case Some(text) => if |lines| > 1 then Some(Split(Canonical(FormNormal(Restore(text))))) else None
  }

  /** Where the parser stands when it has read the embedded text. */
  predicate EndsDoubleEscaped(embedded: string) {
    Html.DoubleEscaped(Html.Read(Html.Inside(Html.Plain), embedded))
  }

  lemma {:induction false} JoinNoEscapedSolidus(lines: seq<string>)
    requires forall i | 0 <= i < |lines| :: Solid(lines[i])
    ensures Solid(Join(lines))
  {
    if |lines| > 1 {
      JoinNoEscapedSolidus(lines[1..]);
      SolidConcat(lines[0], "\n");
      SolidConcat(lines[0] + "\n", Join(lines[1..]));
    }
  }

  lemma {:induction false} RestoreEscapeNoCr(s: string)
    requires NoCr(s)
    ensures NoCr(Restore(s)) && NoCr(Escape(s))
    decreases |s|
  {
    if s != "" {
      if Opens(s) { RestoreEscapeNoCr(s[9..]); }
      if Closes(s) { RestoreEscapeNoCr(s[8..]); }
      RestoreEscapeNoCr(s[1..]);
    }
  }

  /** The parser folds letters by ASCII only, so its end tags are among those the export escapes. */
  lemma EndTagCloses(s: string, k: nat)
    requires Html.EndTagAt(s, k)
    ensures Closes(s[k..])
  {
    var w := s[k + 2..k + 8];
    assert s[k..][2..] == s[k + 2..];
    ScriptFolds(w);
    assert forall j | 0 <= j < 6 :: s[k..][2..][j] == w[j];
  }

  lemma ScriptFolds(w: string)
    requires Html.Lowered(w) == "script"
    ensures PyTag(w)
  {
    forall j | 0 <= j < 6 ensures PyFolds(w[j], SCRIPT[j]) {
      assert Html.Lowered(w)[j] == Html.Lower(w[j]) == SCRIPT[j];
    }
  }

  lemma {:induction false} TagWithin(s: string, k: nat)
    requires k <= |s| && Closes(s[k..])
    ensures HasClosingTag(s)
  {
    if k == 0 {
      assert s[0..] == s;
    } else {
      assert s[1..][k - 1..] == s[k..];
      TagWithin(s[1..], k - 1);
    }
  }

  lemma EscapedHasNoEndTag(s: string)
    ensures !Html.HasEndTag(Escape(s))
  {
    EscapeLeavesNoTag(s);
    if Html.HasEndTag(Escape(s)) {
      var k: nat :| Html.EndTagAt(Escape(s), k);
      EndTagCloses(Escape(s), k);
      TagWithin(Escape(s), k);
    }
  }

  /** The page's script element holds exactly the embedded text, unless that text ends in a double
      escaped state; then it swallows the code as well. That takes a `<!--` that no `-->` follows, and a
      `<script` in any case. */
  lemma PageHoldsText(body: string)
    ensures Html.ElementText(Escape(body)) == if EndsDoubleEscaped(Escape(body)) then None else Some(Escape(body))
    ensures EndsDoubleEscaped(Escape(body)) ==> Html.Unclosed(Escape(body)) && Html.HasStartTag(Escape(body))
  {
    EscapedHasNoEndTag(body);
    Html.ElementTextIs(Escape(body));
    Html.EscapedIsUnclosed(Escape(body));
    Html.DoubleHasStartTag(Escape(body));
    hide Html.Read, Html.ElementText, Html.OpenFrom, Html.HasStartTag, Html.CountsDashes, Html.HasEndTag, Escape;
  }

  /** The upload route receives the exported header and record lines, exactly when there is a record, no
      line holds an exotic closing tag and the embedded text does not end in a double escaped state. */
  lemma DeliveredIntact(bundle: seq<Json>)
    requires bundle != [] && forall r <- bundle :: Legal(r)
    ensures var lines := EncodeAll(bundle);
      Deliver(lines) == Some(lines)
      <==> |bundle| > 1 && !Exotic(Join(lines)) && !EndsDoubleEscaped(Escape(Join(lines)))
  {
    var lines := EncodeAll(bundle);
    forall i | 0 <= i < |bundle|
      ensures Solid(lines[i]) && NoLineBreak(lines[i])
    {
      Encoded(bundle[i]);
    }
    var body := Join(lines);
    JoinNoEscapedSolidus(lines);
    SplitJoin(lines);
    PageHoldsText(body);
    RestoreUndoesEscape(body);
    RestoreEscapeNoCr(body);
    RestoreEscapeNoCr(Escape(body));
    var back := Restore(Escape(body));
    FormThenCanonical(back);
    JoinSplit(back);
    hide EndsDoubleEscaped, Exotic, Escape, Restore, FormNormal, Canonical, Split, Join, Html.ElementText;
    assert Canonical(FormNormal(back)) == back by { CanonicalIs(back); }
  }

  lemma CanonicalIs(s: string)
    requires ReplaceCrLf(FormNormal(s)) == s && ReplaceCr(s) == s
    ensures Canonical(FormNormal(s)) == s
  {
  }

  /** The second failing family is real: after any header without `<`, one record whose text opens a
      comment and a script. */
  lemma CommentedScriptIsLost(header: Json, text: string)
    requires NoOpening(Encode(header)) && text == "<!--<script>"
    ensures var lines := EncodeAll([header, Text(text)]);
      !Exotic(Join(lines)) && EndsDoubleEscaped(Escape(Join(lines))) && Deliver(lines) == None
  {
    var head, record := Encode(header) + "\n", "\"" + text + "\"";
    CommentedLines(header, text);
    CommentedNoTag(head, record, text);
    CommentedScriptRead(head, text);
    hide EncodeAll, Join, Exotic, Escape, EndsDoubleEscaped, Html.ElementText;
    PageHoldsText(head + record);
  }

  lemma CommentedLines(header: Json, text: string)
    requires text == "<!--<script>"
    ensures Join(EncodeAll([header, Text(text)])) == Encode(header) + "\n" + ("\"" + text + "\"")
  {
    CommentedChars(text);
    PlainChars(text);
    hide Encode;
    JoinTwo(EncodeAll([header, Text(text)]));
    TextEncoded(text);
  }

  lemma TextEncoded(text: string)
    ensures Encode(Text(text)) == "\"" + EncodeChars(text) + "\""
  {
  }

  lemma JoinTwo(lines: seq<string>)
    requires |lines| == 2
    ensures Join(lines) == lines[0] + "\n" + lines[1]
  {
    assert Join(lines[1..]) == lines[1];
  }

  lemma CommentedChars(text: string)
    requires text == "<!--<script>"
    ensures forall i | 0 <= i < |text| :: text[i] >= ' ' && text[i] != '\"' && text[i] != '\\' && text[i] != '/'
  {
  }

  lemma CommentedNoTag(head: string, record: string, text: string)
    requires NoOpening(head) && text == "<!--<script>" && record == "\"" + text + "\""
    ensures !Exotic(head + record) && Escape(head + record) == head + record
  {
    CommentedChars(text);
    NoTag(head + record);
  }

  lemma {:induction false} NoTag(s: string)
    requires forall i | 0 <= i < |s| - 1 :: s[i] == '<' ==> s[i + 1] != '/'
    ensures !Exotic(s) && Escape(s) == s
  {
    if s != "" {
      NoTag(s[1..]);
      assert s == [s[0]] + s[1..];
    }
  }

  lemma CommentedScriptRead(head: string, text: string)
    requires NoOpening(head) && text == "<!--<script>"
    ensures EndsDoubleEscaped(head + ("\"" + text + "\""))
  {
    var opener, rest := "<!--", "<script>";
    var before := head + "\"";
    assert head + ("\"" + text + "\"") == before + (opener + (rest + "\"")) by { assert text == opener + rest; }
    PlainRead(before);
    OpenerRead(opener);
    hide Html.Next, Html.Read;
    Html.ReadConcat(Html.Inside(Html.Plain), before, opener + (rest + "\""));
    Html.ReadConcat(Html.Inside(Html.Plain), opener, rest + "\"");
    ScriptRead(rest);
  }

  lemma {:induction false} PlainRead(s: string)
    requires NoOpening(s)
    ensures Html.Read(Html.Inside(Html.Plain), s) == Html.Inside(Html.Plain)
  {
    if s != "" { PlainRead(s[1..]); }
  }

  lemma OpenerRead(opener: string)
    requires opener == "<!--"
    ensures Html.Read(Html.Inside(Html.Plain), opener) == Html.DashDash(Html.Escaped)
  {
    var start := Html.Inside(Html.Plain);
    var a, b, c := "<", "<!", "<!-";
    assert "" + "<" == a && a + "!" == b && b + "-" == c && c + "-" == opener;
    Html.ReadChar(start, "", '<');
    Html.ReadChar(start, a, '!');
    Html.ReadChar(start, b, '-');
    Html.ReadChar(start, c, '-');
  }

  lemma ScriptRead(rest: string)
    requires rest == "<script>"
    ensures Html.Read(Html.DashDash(Html.Escaped), rest + "\"") == Html.Inside(Html.Double)
  {
    Html.OpeningRead(Html.DashDash(Html.Escaped), "cript");
    Html.ReadChar(Html.DashDash(Html.Escaped), rest, '\"');
    assert rest + ['\"'] == rest + "\"";
    hide Html.Read;
  }
}
