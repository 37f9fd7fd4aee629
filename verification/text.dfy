/** Strings as the stored text sees them: code-point order, decimal digits, prefixes. */
module Text {

  /** Python's and SQLite's text order. */
  predicate Less(a: string, b: string) {
    if b == "" then false
    else if a == "" then true
    else a[0] < b[0] || (a[0] == b[0] && Less(a[1..], b[1..]))
  }

  predicate AtMost(a: string, b: string) {
    a == b || Less(a, b)
  }

  lemma {:induction false} LessIrreflexive(a: string)
    ensures !Less(a, a)
  {
    if a != "" { LessIrreflexive(a[1..]); }
  }

  lemma {:induction false} LessTransitive(a: string, b: string, c: string)
    requires Less(a, b) && Less(b, c)
    ensures Less(a, c)
  {
    if a != "" && a[0] == b[0] == c[0] {
      LessTransitive(a[1..], b[1..], c[1..]);
    }
  }

  lemma {:induction false} LessTotal(a: string, b: string)
    ensures Less(a, b) || a == b || Less(b, a)
  {
    if a != "" && b != "" && a[0] == b[0] {
      LessTotal(a[1..], b[1..]);
      assert a == [a[0]] + a[1..] && b == [b[0]] + b[1..];
    }
  }

  lemma LessAsymmetric(a: string, b: string)
    requires Less(a, b)
    ensures !Less(b, a) && a != b
  {
    LessIrreflexive(a);
    if Less(b, a) { LessTransitive(a, b, a); }
  }

  /** Comparing two texts that share a first part of equal width. */
  lemma {:induction false} LessConcat(a: string, b: string, x: string, y: string)
    requires |a| == |b|
    ensures Less(a + x, b + y) <==> Less(a, b) || (a == b && Less(x, y))
  {
    if a == "" {
      assert a + x == x && b + y == y;
    } else {
      assert (a + x)[1..] == a[1..] + x && (b + y)[1..] == b[1..] + y;
      LessConcat(a[1..], b[1..], x, y);
      LessIrreflexive(a);
      assert a == b <==> a[0] == b[0] && a[1..] == b[1..] by {
        assert a == [a[0]] + a[1..] && b == [b[0]] + b[1..];
      }
    }
  }

  predicate IsDigit(c: char) {
    '0' <= c <= '9'
  }

  /** Python's str.isdigit for ASCII text. */
  predicate AllDigits(s: string) {
    s != "" && forall i | 0 <= i < |s| :: IsDigit(s[i])
  }

  function Digit(n: nat): char
    requires n < 10
  {
    '0' + n as char
  }

  function DigitValue(c: char): nat
    requires IsDigit(c)
  {
    (c - '0') as nat
  }

  /** int() of a run of digits. */
  function Number(s: string): nat
    requires forall i | 0 <= i < |s| :: IsDigit(s[i])
  {
    if s == "" then 0 else Number(s[..|s| - 1]) * 10 + DigitValue(s[|s| - 1])
  }

  /** `n` in exactly `width` digits, as in f"{n:0{width}d}". */
  function Pad(n: nat, width: nat): (s: string)
    ensures |s| == width
    ensures forall i | 0 <= i < |s| :: IsDigit(s[i])
  {
    if width == 0 then "" else Pad(n / 10, width - 1) + [Digit(n % 10)]
  }

  function Pow10(n: nat): (p: nat)
    ensures p > 0
  {
    if n == 0 then 1 else 10 * Pow10(n - 1)
  }

  lemma {:induction false} PadNumber(n: nat, width: nat)
    requires n < Pow10(width)
    ensures Number(Pad(n, width)) == n
  {
    if width > 0 {
      FewerDigits(n, width);
      hide Pow10, Pad, Number;
      PadNumber(n / 10, width - 1);
      PadPushed(n, width);
    }
  }

  lemma PadPushed(n: nat, width: nat)
    requires width > 0 && Number(Pad(n / 10, width - 1)) == n / 10
    ensures Number(Pad(n, width)) == n
  {
    NumberPushed(Pad(n / 10, width - 1), n % 10);
    hide Number, Digit;
  }

  lemma FewerDigits(n: nat, width: nat)
    requires width > 0 && n < Pow10(width)
    ensures n / 10 < Pow10(width - 1)
  {
  }

  lemma NumberPushed(front: string, d: nat)
    requires d < 10 && forall i | 0 <= i < |front| :: IsDigit(front[i])
    ensures Number(front + [Digit(d)]) == Number(front) * 10 + d
  {
    assert (front + [Digit(d)])[..|front|] == front;
  }

  /** Zero-padded numbers compare as text exactly as they compare as numbers. */
  lemma {:induction false} PadMonotone(a: nat, b: nat, width: nat)
    requires a < Pow10(width) && b < Pow10(width)
    ensures Less(Pad(a, width), Pad(b, width)) <==> a < b
    ensures Pad(a, width) == Pad(b, width) <==> a == b
  {
    PadNumber(a, width);
    PadNumber(b, width);
    if width > 0 {
      PadMonotone(a / 10, b / 10, width - 1);
      LastDigit(a, b);
      hide Less, Pow10, Digit;
      LessConcat(Pad(a / 10, width - 1), Pad(b / 10, width - 1), [Digit(a % 10)], [Digit(b % 10)]);
    }
  }

  lemma LastDigit(a: nat, b: nat)
    ensures Less([Digit(a % 10)], [Digit(b % 10)]) <==> a % 10 < b % 10
    ensures a < b <==> a / 10 < b / 10 || (a / 10 == b / 10 && a % 10 < b % 10)
  {
  }

  /** SQL LIKE as SQLite evaluates it: `%`, `_`, and letters folded by ASCII case. */
  function Fold(c: char): char {
    if 'A' <= c <= 'Z' then c - 'A' + 'a' else c
  }

  predicate Like(t: string, p: string)
    decreases |p|, |t|
  {
    if p == "" then t == ""
    else if p[0] == '%' then Like(t, p[1..]) || (t != "" && Like(t[1..], p))
    else t != "" && (p[0] == '_' || Fold(t[0]) == Fold(p[0])) && Like(t[1..], p[1..])
  }

  predicate Plain(s: string) {
    forall i | 0 <= i < |s| :: IsDigit(s[i]) || s[i] == '-'
  }

  lemma {:induction false} LikeAnything(t: string)
    ensures Like(t, "%")
  {
    if t != "" { LikeAnything(t[1..]); }
  }

  /** A LIKE over a plain prefix is a prefix test. */
  lemma {:induction false} LikePrefix(t: string, p: string)
    requires Plain(p)
    ensures Like(t, p + "%") <==> p <= t
  {
    if p == "" {
      assert p + "%" == "%";
      LikeAnything(t);
    } else {
      assert (p + "%")[1..] == p[1..] + "%";
      if t != "" {
        LikePrefix(t[1..], p[1..]);
        assert p <= t <==> p[0] == t[0] && p[1..] <= t[1..] by {
          if p[0] == t[0] && p[1..] <= t[1..] {
            assert p == [p[0]] + p[1..] && t == [t[0]] + t[1..];
          }
        }
      }
    }
  }

  /* ---------- white space ---------- */

  /** str.isspace */
  predicate IsSpace(c: char) {
    || c == ' ' || '\t' <= c <= '\r' || '\U{1C}' <= c <= '\U{1F}' || c == '\U{85}' || c == '\U{A0}'
    || c == '\U{1680}' || '\U{2000}' <= c <= '\U{200A}' || c == '\U{2028}' || c == '\U{2029}'
    || c == '\U{202F}' || c == '\U{205F}' || c == '\U{3000}'
  }

  predicate Trimmed(s: string) {
    s != "" ==> !IsSpace(s[0]) && !IsSpace(s[|s| - 1])
  }

  function TrimRight(s: string): (r: string)
    ensures r <= s && (r != "" ==> !IsSpace(r[|r| - 1]))
    ensures r == "" <==> forall i | 0 <= i < |s| :: IsSpace(s[i])
  {
    if s == "" then ""
    else if IsSpace(s[|s| - 1]) then TrimRight(s[..|s| - 1])
    else s
  }

  function DropWhile(s: string, p: char -> bool): string {
    if s == "" || !p(s[0]) then s else DropWhile(s[1..], p)
  }

  /** str.strip */
  function Strip(s: string): (r: string) {
    TrimRight(DropWhile(s, IsSpace))
  }

  predicate Blank(s: string) {
    forall i | 0 <= i < |s| :: IsSpace(s[i])
  }

  lemma {:induction false} DropWhilePast(a: string, b: string, p: char -> bool)
    requires (forall i | 0 <= i < |a| :: p(a[i])) && (b == "" || !p(b[0]))
    ensures DropWhile(a + b, p) == b
  {
    if a == "" {
      assert a + b == b;
    } else {
      assert (a + b)[1..] == a[1..] + b;
      DropWhilePast(a[1..], b, p);
    }
  }

  lemma {:induction false} TrimRightPast(a: string, b: string)
    requires Blank(b) && (a == "" || !IsSpace(a[|a| - 1]))
    ensures TrimRight(a + b) == a
  {
    if b == "" {
      assert a + b == a;
    } else {
      assert (a + b)[..|a + b| - 1] == a + b[..|b| - 1];
      TrimRightPast(a, b[..|b| - 1]);
    }
  }

  /** strip() takes off exactly the white space around a text. */
  lemma StripPadded(left: string, core: string, right: string)
    requires Blank(left) && Blank(right) && Trimmed(core)
    ensures Strip(left + (core + right)) == core
  {
    if core == "" {
      assert core + right == right;
      assert Blank(left + right);
      AllDropped(left + right);
      assert TrimRight("") == "";
    } else {
      DropWhilePast(left, core + right, IsSpace);
      TrimRightPast(core, right);
    }
  }

  lemma {:induction false} AllDropped(s: string)
    requires Blank(s)
    ensures DropWhile(s, IsSpace) == ""
  {
    if s != "" { AllDropped(s[1..]); }
  }
}
