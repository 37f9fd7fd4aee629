/** The JSON text of the exchange read back: a reader of the grammar that the encoder writes (RFC 8259 with one
    blank after each comma and colon), and what it makes of the lines that an upload receives. */
module Reading {
  import opened Base
  import opened Offline

  function HexValue(c: char): Option<nat> {
    if '0' <= c <= '9' then Some((c - '0') as nat)
    else if 'a' <= c <= 'f' then Some((c - 'a') as nat + 10)
    else if 'A' <= c <= 'F' then Some((c - 'A') as nat + 10)
    else None
  }

  /** The two-character escapes of section 7 of RFC 8259. */
  function Unescaped(c: char): Option<char> {
    match c
    case '\"' => Some('\"')
    case '\\' => Some('\\')
    case '/' => Some('/')
    case 'b' => Some('\U{8}')
    case 'f' => Some('\U{C}')
    case 'n' => Some('\n')
    case 'r' => Some('\r')
    case 't' => Some('\t')
    case _ => None
  }

  /** \u00xy, the only long escapes the encoder writes. */
  function Unicode(s: string): Option<char> {
    if |s| < 6 || s[2] != '0' || s[3] != '0' then None
    else
      match (HexValue(s[4]), HexValue(s[5]))
      case (Some(x), Some(y)) => Some((16 * x + y) as char)
      case _ => None
  }

  /** The characters up to the closing quotation mark, and what follows it. */
  function ReadChars(s: string): (r: Option<(string, string)>)
    ensures r.Some? ==> |r.value.1| < |s|
    decreases |s|
  {
    if s == "" then None
    else if s[0] == '\"' then Some(("", s[1..]))
    else if s[0] < ' ' then None
    else if s[0] != '\\' then Before([s[0]], ReadChars(s[1..]))
    else if |s| < 2 then None
    else if s[1] == 'u' then
      match Unicode(s)
      case Some(c) => Before([c], ReadChars(s[6..]))
      case None => None
    else
      match Unescaped(s[1])
      case Some(c) => Before([c], ReadChars(s[2..]))
      case None => None
  }

  function Before(head: string, r: Option<(string, string)>): Option<(string, string)> {
    match r
    case Some((chars, rest)) => Some((head + chars, rest))
    case None => None
  }

  function ReadString(s: string): (r: Option<(string, string)>)
    ensures r.Some? ==> |r.value.1| < |s|
  {
    if s == "" || s[0] != '\"' then None else ReadChars(s[1..])
  }

  /** How many literal characters stand first. */
  function LiteralEnd(s: string): (n: nat)
    ensures n <= |s|
  {
    if s == "" || !LiteralChar(s[0]) then 0 else 1 + LiteralEnd(s[1..])
  }

  function ReadValue(s: string): (r: Option<(Json, string)>)
    ensures r.Some? ==> |r.value.1| < |s|
    decreases |s|, 0
  {
    if s == "" then None
    else if s[0] == '\"' then
      match ReadString(s)
      case Some((chars, rest)) => Some((Text(chars), rest))
      case None => None
    else if s[0] == '[' then
      if |s| > 1 && s[1] == ']' then Some((List([]), s[2..]))
      else
        match ReadItems(s[1..])
        case Some((items, rest)) => Some((List(items), rest))
        case None => None
    else if s[0] == '{' then
      if |s| > 1 && s[1] == '}' then Some((Object([]), s[2..]))
      else
        match ReadFields(s[1..])
        case Some((fields, rest)) => Some((Object(fields), rest))
        case None => None
    else
      var n := LiteralEnd(s);
      if n == 0 then None else Some((Literal(s[..n]), s[n..]))
  }

  /** One or more items and the closing bracket. */
  function ReadItems(s: string): (r: Option<(seq<Json>, string)>)
    ensures r.Some? ==> |r.value.1| < |s|
    decreases |s|, 1
  {
    match ReadValue(s)
    case None => None
    case Some((item, rest)) =>
      if rest == "" then None
      else if rest[0] == ']' then Some(([item], rest[1..]))
      else if |rest| < 2 || rest[0] != ',' || rest[1] != ' ' then None
      else
        match ReadItems(rest[2..])
        case Some((items, more)) => Some(([item] + items, more))
        case None => None
  }

  /** One or more named values and the closing brace. */
  function ReadFields(s: string): (r: Option<(seq<(string, Json)>, string)>)
    ensures r.Some? ==> |r.value.1| < |s|
    decreases |s|, 1
  {
    match ReadString(s)
    case None => None
    case Some((name, tail)) =>
      if |tail| < 2 || tail[0] != ':' || tail[1] != ' ' then None
      else
        match ReadValue(tail[2..])
        case None => None
        case Some((value, rest)) =>
          if rest == "" then None
          else if rest[0] == '}' then Some(([(name, value)], rest[1..]))
          else if |rest| < 2 || rest[0] != ',' || rest[1] != ' ' then None
          else
            match ReadFields(rest[2..])
            case Some((fields, more)) => Some(([(name, value)] + fields, more))
            case None => None
  }

  /* ---------- reading undoes encoding ---------- */

  lemma ReadChar(c: char, s: string)
    ensures ReadChars(EncodeChar(c) + s) == Before([c], ReadChars(s))
  {
    var e := EncodeChar(c);
    if |e| == 1 {
      assert (e + s)[1..] == s;
    } else if |e| == 2 {
      assert (e + s)[2..] == s;
    } else {
      ControlChar(c);
      assert (e + s)[6..] == s;
      assert (e + s)[4] == e[4] && (e + s)[5] == e[5];
    }
  }

  lemma ControlChar(c: char)
    requires |EncodeChar(c)| > 2
    ensures var e := EncodeChar(c);
      && |e| == 6 && e[0] == '\\' && e[1] == 'u' && e[2] == '0' && e[3] == '0'
      && HexValue(e[4]) == Some(c as int / 16) && HexValue(e[5]) == Some(c as int % 16)
  {
    HexRead(c as int / 16);
    HexRead(c as int % 16);
  }

  lemma HexRead(n: nat)
    requires n < 16
    ensures HexValue(Hex(n)) == Some(n)
  {
  }

  lemma {:induction false} CharsRead(chars: string, rest: string)
    ensures ReadChars(EncodeChars(chars) + ("\"" + rest)) == Some((chars, rest))
  {
    hide ReadChars, EncodeChar, EncodeChars;
    var tail := "\"" + rest;
    if chars == "" {
      NoCharsRead(rest);
    } else {
      CharsRead(chars[1..], rest);
      CharsParted(chars, tail);
      ReadChar(chars[0], EncodeChars(chars[1..]) + tail);
      assert chars == [chars[0]] + chars[1..];
    }
  }

  lemma NoCharsRead(rest: string)
    ensures ReadChars(EncodeChars("") + ("\"" + rest)) == Some(("", rest))
  {
    var tail := "\"" + rest;
    assert EncodeChars("") + tail == tail && tail[1..] == rest;
  }

  lemma CharsParted(chars: string, tail: string)
    requires chars != ""
    ensures EncodeChars(chars) + tail == EncodeChar(chars[0]) + (EncodeChars(chars[1..]) + tail)
  {
    hide EncodeChar;
  }

  lemma StringRead(chars: string, rest: string)
    ensures Quoted(chars) + rest != "" && (Quoted(chars) + rest)[0] == '\"'
    ensures ReadString(Quoted(chars) + rest) == Some((chars, rest))
  {
    CharsRead(chars, rest);
    hide ReadChars, EncodeChars;
    assert (Quoted(chars) + rest)[1..] == EncodeChars(chars) + ("\"" + rest);
  }

  lemma {:induction false} LiteralRead(text: string, rest: string)
    requires (forall i | 0 <= i < |text| :: LiteralChar(text[i])) && (rest == "" || !LiteralChar(rest[0]))
    ensures LiteralEnd(text + rest) == |text|
  {
    if text == "" {
      assert text + rest == rest;
    } else {
      assert (text + rest)[1..] == text[1..] + rest;
      LiteralRead(text[1..], rest);
    }
  }

  /** Nothing that could continue a literal. */
  predicate Ends(rest: string) {
    rest == "" || !LiteralChar(rest[0])
  }

  lemma LiteralValue(text: string, rest: string)
    requires text != "" && (forall i | 0 <= i < |text| :: LiteralChar(text[i])) && Ends(rest)
    ensures ReadValue(text + rest) == Some((Literal(text), rest))
  {
    LiteralRead(text, rest);
    var s := text + rest;
    assert s[0] == text[0] && s[..|text|] == text && s[|text|..] == rest;
    hide LiteralEnd, ReadItems, ReadFields, ReadString;
  }

  lemma TextValue(chars: string, rest: string)
    ensures ReadValue(Quoted(chars) + rest) == Some((Text(chars), rest))
  {
    StringRead(chars, rest);
    hide ReadString, Quoted, LiteralEnd;
  }

  lemma ListValue(items: seq<Json>, body: string, rest: string)
    requires if items == [] then body == ""
             else body != "" && body[0] != ']' && ReadItems(body + ("]" + rest)) == Some((items, rest))
    ensures ReadValue("[" + body + "]" + rest) == Some((List(items), rest))
  {
    hide ReadItems, LiteralEnd;
    var s := "[" + body + "]" + rest;
    assert s[0] == '[' && s[1..] == body + ("]" + rest);
    if items == [] {
      assert s[1] == ']' && s[2..] == rest;
    } else {
      assert s[1] == body[0];
    }
  }

  lemma ObjectValue(fields: seq<(string, Json)>, body: string, rest: string)
    requires if fields == [] then body == ""
             else body != "" && body[0] != '}' && ReadFields(body + ("}" + rest)) == Some((fields, rest))
    ensures ReadValue("{" + body + "}" + rest) == Some((Object(fields), rest))
  {
    hide ReadFields, LiteralEnd;
    var s := "{" + body + "}" + rest;
    assert s[0] == '{' && s[1..] == body + ("}" + rest);
    if fields == [] {
      assert s[1] == '}' && s[2..] == rest;
    } else {
      assert s[1] == body[0];
    }
  }

  /** Encoded JSON is read back as it was, whatever follows it. */
  lemma {:induction false} ValueRead(j: Json, rest: string)
    requires Legal(j) && Ends(rest)
    ensures ReadValue(Encode(j) + rest) == Some((j, rest))
    decreases j
  {
    hide ReadValue, ReadItems, ReadFields, Ends, LiteralChar;
    match j
    case Literal(text) => LiteralValue(text, rest);
    case Text(chars) => TextValue(chars, rest);
    case List(items) =>
      if items != [] {
        ItemsRead(j, items, rest);
        FirstItem(j, items);
      }
      ListValue(items, EncodeItems(j, items), rest);
    case Object(fields) =>
      if fields != [] {
        FieldsRead(j, fields, rest);
        FirstField(j, fields);
      }
      ObjectValue(fields, EncodeFields(j, fields), rest);
  }

  lemma FirstChar(j: Json)
    requires Legal(j)
    ensures Encode(j) != "" && Encode(j)[0] != ']'
  {
  }

  lemma FirstItem(j: Json, items: seq<Json>)
    requires items != [] && forall i | 0 <= i < |items| :: items[i] < j && Legal(items[i])
    ensures EncodeItems(j, items) != "" && EncodeItems(j, items)[0] != ']'
  {
    FirstChar(items[0]);
    hide Encode;
  }

  lemma FirstField(j: Json, fields: seq<(string, Json)>)
    requires fields != [] && forall i | 0 <= i < |fields| :: fields[i].1 < j
    ensures EncodeFields(j, fields) != "" && EncodeFields(j, fields)[0] == '\"'
  {
    hide Encode;
  }

  lemma {:induction false} ItemsRead(j: Json, items: seq<Json>, rest: string)
    requires items != [] && forall i | 0 <= i < |items| :: items[i] < j && Legal(items[i])
    ensures ReadItems(EncodeItems(j, items) + ("]" + rest)) == Some((items, rest))
    decreases j, |items|
  {
    hide ReadValue, ReadItems, Encode, EncodeItems;
    if |items| == 1 {
      ValueRead(items[0], "]" + rest);
      OneItem(j, items, rest);
      LastItem(items[0], Encode(items[0]), rest);
      assert items == [items[0]];
    } else {
      var more := EncodeItems(j, items[1..]) + ("]" + rest);
      ItemsRead(j, items[1..], rest);
      ValueRead(items[0], ", " + more);
      NextItem(j, items, rest);
      MoreItems(items[0], Encode(items[0]), items[1..], more, rest);
      assert items == [items[0]] + items[1..];
    }
  }

  lemma LastItem(item: Json, first: string, rest: string)
    requires ReadValue(first + ("]" + rest)) == Some((item, "]" + rest))
    ensures ReadItems(first + ("]" + rest)) == Some(([item], rest))
  {
    hide ReadValue;
    assert ("]" + rest)[1..] == rest;
  }

  lemma MoreItems(item: Json, first: string, items: seq<Json>, more: string, rest: string)
    requires ReadValue(first + (", " + more)) == Some((item, ", " + more)) && ReadItems(more) == Some((items, rest))
    ensures ReadItems(first + (", " + more)) == Some(([item] + items, rest))
  {
    hide ReadValue;
    assert (", " + more)[2..] == more;
  }

  lemma OneItem(j: Json, items: seq<Json>, rest: string)
    requires |items| == 1 && forall i | 0 <= i < |items| :: items[i] < j
    ensures EncodeItems(j, items) == Encode(items[0])
  {
    hide Encode;
  }

  lemma NextItem(j: Json, items: seq<Json>, rest: string)
    requires |items| > 1 && forall i | 0 <= i < |items| :: items[i] < j
    ensures EncodeItems(j, items) + ("]" + rest) == Encode(items[0]) + (", " + (EncodeItems(j, items[1..]) + ("]" + rest)))
  {
    hide Encode;
  }

  lemma {:induction false} FieldsRead(j: Json, fields: seq<(string, Json)>, rest: string)
    requires fields != [] && forall i | 0 <= i < |fields| :: fields[i].1 < j && Legal(fields[i].1)
    ensures ReadFields(EncodeFields(j, fields) + ("}" + rest)) == Some((fields, rest))
    decreases j, |fields|
  {
    hide ReadString, ReadValue, ReadFields, Encode, EncodeFields, Quoted;
    var name, value := fields[0].0, fields[0].1;
    NextField(j, fields, rest);
    if |fields| == 1 {
      StringRead(name, ": " + (Encode(value) + ("}" + rest)));
      ValueRead(value, "}" + rest);
      LastField(name, Quoted(name), value, Encode(value), rest);
      assert fields == [(name, value)];
    } else {
      var more := EncodeFields(j, fields[1..]) + ("}" + rest);
      StringRead(name, ": " + (Encode(value) + (", " + more)));
      ValueRead(value, ", " + more);
      FieldsRead(j, fields[1..], rest);
      MoreFields(name, Quoted(name), value, Encode(value), fields[1..], more, rest);
      assert fields == [(name, value)] + fields[1..];
    }
  }

  lemma LastField(name: string, quoted: string, value: Json, text: string, rest: string)
    requires ReadString(quoted + (": " + (text + ("}" + rest)))) == Some((name, ": " + (text + ("}" + rest))))
    requires ReadValue(text + ("}" + rest)) == Some((value, "}" + rest))
    ensures ReadFields(quoted + (": " + (text + ("}" + rest)))) == Some(([(name, value)], rest))
  {
    hide ReadString, ReadValue;
    assert (": " + (text + ("}" + rest)))[2..] == text + ("}" + rest);
    assert ("}" + rest)[1..] == rest;
  }

  lemma MoreFields(name: string, quoted: string, value: Json, text: string, fields: seq<(string, Json)>, more: string, rest: string)
    requires ReadString(quoted + (": " + (text + (", " + more)))) == Some((name, ": " + (text + (", " + more))))
    requires ReadValue(text + (", " + more)) == Some((value, ", " + more)) && ReadFields(more) == Some((fields, rest))
    ensures ReadFields(quoted + (": " + (text + (", " + more)))) == Some(([(name, value)] + fields, rest))
  {
    hide ReadString, ReadValue;
    assert (": " + (text + (", " + more)))[2..] == text + (", " + more);
    assert (", " + more)[2..] == more;
  }

  lemma NextField(j: Json, fields: seq<(string, Json)>, rest: string)
    requires fields != [] && forall i | 0 <= i < |fields| :: fields[i].1 < j
    ensures var name, value := fields[0].0, fields[0].1;
      EncodeFields(j, fields) + ("}" + rest) == Quoted(name) + (": " + (Encode(value) +
        (if |fields| == 1 then "}" + rest else ", " + (EncodeFields(j, fields[1..]) + ("}" + rest)))))
  {
    hide Encode, Quoted;
  }

  /** What the upload receives are the exported records: whenever the page hands over the bundle, each line is
      read back as the record it was written from. */
  lemma DeliveredRecords(bundle: seq<Json>, i: nat)
    requires forall r <- bundle :: Legal(r)
    requires i < |bundle| && |bundle| > 1
    requires var text := Join(EncodeAll(bundle)); !Exotic(text) && !EndsDoubleEscaped(Escape(text))
    ensures var received := Deliver(EncodeAll(bundle));
      received.Some? && |received.value| == |bundle| && ReadValue(received.value[i]) == Some((bundle[i], ""))
  {
    DeliveredIntact(bundle);
    ValueRead(bundle[i], "");
    hide Deliver, Join, Exotic, Escape, EndsDoubleEscaped, ReadValue, Encode;
    assert EncodeAll(bundle)[i] + "" == Encode(bundle[i]);
  }
}
