/** app/core.py: money is parsed from text into integer cents, printed back, and suggested in another
    currency. Decimals are exact rationals; the 28-digit context is explicit. */
module Money {
  import opened Base
  import opened Text

  /** Ten to the 28: the first number the default decimal context cannot hold digit by digit. */
  const PRECISION: nat := 10_000_000_000_000_000_000_000_000_000

  /** The exponents a decimal literal may have. */
  const LARGEST_EXPONENT := 999_999_999_999_999_999
  const SMALLEST_EXPONENT := -1_999_999_999_999_999_997

  /** (-1)^negative * coefficient * 10^exponent */
  datatype Decimal = Decimal(negative: bool, coefficient: nat, exponent: int)

  function Numerator(d: Decimal): nat {
    d.coefficient * Pow10(if d.exponent > 0 then d.exponent else 0)
  }

  function Denominator(d: Decimal): (den: nat)
    ensures den > 0
  {
    Pow10(if d.exponent < 0 then -d.exponent else 0)
  }

  function Signed(negative: bool, n: int): int {
    if negative then -n else n
  }

  /* ---------- reading a decimal ---------- */

  /** Index of the first `a` or `b`, or the length. */
  function FirstOf(s: string, a: char, b: char): (i: nat)
    ensures i <= |s| && (i < |s| ==> s[i] == a || s[i] == b)
    ensures forall k | 0 <= k < i :: s[k] != a && s[k] != b
  {
    if s == "" || s[0] == a || s[0] == b then 0 else FirstOf(s[1..], a, b) + 1
  }

  function Dotted(s: string): string {
    seq(|s|, i requires 0 <= i < |s| => if s[i] == ',' then '.' else s[i])
  }

  /** The constructor ignores underscores. */
  function WithoutUnderscores(s: string): string {
    if s == "" then "" else (if s[0] == '_' then "" else [s[0]]) + WithoutUnderscores(s[1..])
  }

  function SplitSign(s: string): (bool, string) {
    if s != "" && s[0] == '-' then (true, s[1..])
    else if s != "" && s[0] == '+' then (false, s[1..])
    else (false, s)
  }

  function ParseExponent(s: string): Option<int> {
    var (negative, digits) := SplitSign(s);
    if AllDigits(digits) then Some(Signed(negative, Number(digits))) else None
  }

  /** Digits with at most one point: the coefficient and how many digits follow the point. */
  function ParseMantissa(s: string): Option<(nat, nat)> {
    var dot := FirstOf(s, '.', '.');
    var whole, fraction := s[..dot], if dot < |s| then s[dot + 1..] else "";
    if AllDigits(whole + fraction) then Some((Number(whole + fraction), |fraction|)) else None
  }

  /** A finite decimal literal; infinities and NaNs are refused by the caller like any other text. */
  function ParseDecimal(s: string): Option<Decimal> {
    var (negative, body) := SplitSign(s);
    var e := FirstOf(body, 'e', 'E');
    var exponent := if e < |body| then ParseExponent(body[e + 1..]) else Some(0);
    match (ParseMantissa(body[..e]), exponent)
    case (Some((coefficient, places)), Some(x)) =>
      if SMALLEST_EXPONENT <= x - places <= LARGEST_EXPONENT
      then Some(Decimal(negative, coefficient, x - places))
      else None
    case _ => None
  }

  /** What to_cents takes its argument to mean. */
  function Amount(value: string): Option<Decimal> {
    ParseDecimal(WithoutUnderscores(Dotted(Strip(value))))
  }

  /* ---------- to_cents and format_cents ---------- */

  /** quantize(…, ROUND_HALF_UP) of n/d for a magnitude. */
  function HalfUp(n: nat, d: nat): nat
    requires d > 0
  {
    (2 * n + d) / (2 * d)
  }

  function ToCents(value: string): Result<int, string> {
    match Amount(value)
    case None => Err(value)
    case Some(d) =>
      var cents := HalfUp(100 * Numerator(d), Denominator(d));
      if cents < PRECISION then Ok(Signed(d.negative, cents)) else Err(value)
  }

  /** str() of a natural number. */
  function Show(n: nat): (s: string)
    ensures AllDigits(s) && Number(s) == n
  {
    if n < 10 then [Digit(n)]
    else
      var s := Show(n / 10) + [Digit(n % 10)];
      assert s[..|s| - 1] == Show(n / 10);
      s
  }

  function FormatCents(cents: int): string {
    (if cents < 0 then "-" else "") + (Show(Abs(cents) / 100) + ("," + Pad(Abs(cents) % 100, 2)))
  }

  /* ---------- what to_cents means ---------- */

  /** `c` is the nearest integer to 100·d, and of two equally near ones the one further from zero. */
  ghost predicate NearestCents(d: Decimal, c: int) {
    var n, den := Signed(d.negative, 100 * Numerator(d)), Denominator(d);
    && 2 * Abs(c * den - n) <= den
    && (2 * Abs(c * den - n) == den ==> Abs(c) * den > Abs(n))
  }

  lemma HalfUpBounds(n: nat, d: nat, q: nat)
    requires d > 0
    ensures q == HalfUp(n, d) <==> 2 * n - d < 2 * (q * d) <= 2 * n + d
  {
    var a, b := 2 * n + d, 2 * d;
    assert q * b == 2 * (q * d);
    if 2 * (q * d) <= a < 2 * (q * d) + b {
      DivMod(a, b, q, a - q * b);
    } else {
      assert a == a / b * b + a % b;
    }
  }

  lemma Scale(x: int, y: int, d: nat)
    ensures x <= y ==> x * d <= y * d
    ensures (x + 1) * d == x * d + d
    ensures (x - 1) * d == x * d - d
    ensures (-x) * d == -(x * d)
  {
  }

  lemma HalfUpIsNearest(d: Decimal, c: int)
    ensures NearestCents(d, c) <==> c == Signed(d.negative, HalfUp(100 * Numerator(d), Denominator(d)))
  {
    var n, den := 100 * Numerator(d), Denominator(d);
    var m := if d.negative then -c else c;
    Scale(c, c, den);
    Scale(m, m, den);
    if m >= 0 {
      HalfUpBounds(n, den, m);
    } else {
      Scale(m, -1, den);
    }
  }

  /** to_cents accepts exactly the finite decimals that round to fewer than 28 digits of cents, and
      returns the nearest cents, ties away from zero. */
  lemma ToCentsMeaning(value: string, c: int)
    ensures ToCents(value) == Ok(c)
            <==> Amount(value).Some? && NearestCents(Amount(value).value, c) && Abs(c) < PRECISION
    ensures ToCents(value).Err? ==> ToCents(value) == Err(value)
  {
    hide Amount, NearestCents, HalfUp;
    if Amount(value).Some? {
      HalfUpIsNearest(Amount(value).value, c);
    }
  }

  /** d <= e as rationals, cross-multiplied. */
  ghost predicate NotAbove(d: Decimal, e: Decimal) {
    Signed(d.negative, Numerator(d)) * Denominator(e) <= Signed(e.negative, Numerator(e)) * Denominator(d)
  }

  lemma HalfUpMonotone(n: nat, d: nat, m: nat, e: nat)
    requires d > 0 && e > 0 && n * e <= m * d
    ensures HalfUp(n, d) <= HalfUp(m, e)
  {
    HalfUpBounds(n, d, HalfUp(n, d));
    HalfUpBounds(m, e, HalfUp(m, e));
    hide HalfUp;
    QuotientOrder(n, d, m, e, HalfUp(n, d), HalfUp(m, e));
  }

  lemma QuotientOrder(n: nat, d: nat, m: nat, e: nat, q: nat, r: nat)
    requires d > 0 && e > 0 && n * e <= m * d
    requires 2 * (q * d) <= 2 * n + d && 2 * m - e < 2 * (r * e)
    ensures q <= r
  {
    var x := d * e;
    assert 2 * (q * x) <= 2 * (n * e) + x by { Multiplied(q, d, n, e); }
    assert 2 * (m * d) - x < 2 * (r * x) by { MultipliedBelow(r, e, m, d); }
    assert x > 0 by { Scale(1, d, e); }
    Scale(r + 1, q, x);
    Scale(r, r, x);
  }

  lemma Regrouped(x: int, y: int, z: int)
    ensures x * y * z == x * (z * y)
  {
  }

  lemma Doubled(x: int, y: int, d: int)
    ensures (2 * x + y) * d == 2 * (x * d) + y * d
    ensures (2 * x - y) * d == 2 * (x * d) - y * d
  {
  }

  lemma Multiplied(q: nat, d: nat, n: nat, e: nat)
    requires 2 * (q * d) <= 2 * n + d
    ensures 2 * (q * (d * e)) <= 2 * (n * e) + d * e
  {
    Scale(2 * (q * d), 2 * n + d, e);
    Doubled(q * d, 0, e);
    Doubled(n, d, e);
    Regrouped(q, d, e);
    assert e * d == d * e;
  }

  lemma MultipliedBelow(r: nat, e: nat, m: nat, d: nat)
    requires d > 0 && 2 * m - e < 2 * (r * e)
    ensures 2 * (m * d) - d * e < 2 * (r * (d * e))
  {
    Scale(2 * m - e + 1, 2 * (r * e), d);
    Scale(2 * m - e, 0, d);
    Doubled(m, e, d);
    Doubled(r * e, 0, d);
    Regrouped(r, e, d);
    assert e * d == d * e;
  }

  lemma Hundredfold(n: nat, m: nat, d: nat, e: nat)
    requires n * e <= m * d
    ensures 100 * n * e <= 100 * m * d
  {
    assert 100 * n * e == 100 * (n * e) && 100 * m * d == 100 * (m * d);
  }

  /** A smaller amount never becomes more cents. */
  lemma ToCentsMonotone(v: string, w: string)
    requires ToCents(v).Ok? && ToCents(w).Ok?
    requires NotAbove(Amount(v).value, Amount(w).value)
    ensures ToCents(v).value <= ToCents(w).value
  {
    hide Amount, HalfUp;
    var d, e := Amount(v).value, Amount(w).value;
    hide Numerator, Denominator;
    var n, den := Numerator(d), Denominator(d);
    var m, den' := Numerator(e), Denominator(e);
    Scale(n, n, den');
    Scale(m, m, den);
    if d.negative && e.negative {
      Hundredfold(m, n, den', den);
      HalfUpMonotone(100 * m, den', 100 * n, den);
    } else if !d.negative && !e.negative {
      Hundredfold(n, m, den, den');
      HalfUpMonotone(100 * n, den, 100 * m, den');
    } else if !d.negative {
      BothZero(n, den', m, den);
      ZeroCents(den);
      ZeroCents(den');
    }
  }

  lemma BothZero(n: nat, e: nat, m: nat, d: nat)
    requires d > 0 && e > 0 && n * e <= -(m * d)
    ensures n == 0 && m == 0
  {
    Scale(1, n, e);
    Scale(0, m, d);
    Scale(1, m, d);
    Scale(0, n, e);
  }

  lemma ZeroCents(d: nat)
    requires d > 0
    ensures HalfUp(0, d) == 0
  {
    HalfUpBounds(0, d, 0);
  }

  /* ---------- printing and reading back ---------- */

  lemma StripIsIdentity(s: string)
    requires Trimmed(s)
    ensures Strip(s) == s
  {
  }

  lemma {:induction false} NoUnderscores(s: string)
    requires '_' !in s
    ensures WithoutUnderscores(s) == s
  {
    if s != "" {
      NoUnderscores(s[1..]);
      assert s == [s[0]] + s[1..];
    }
  }

  lemma {:induction false} NumberAppend(s: string, t: string)
    requires forall i | 0 <= i < |s| :: IsDigit(s[i])
    requires forall i | 0 <= i < |t| :: IsDigit(t[i])
    ensures Number(s + t) == Number(s) * Pow10(|t|) + Number(t)
  {
    if t == "" {
      assert s + t == s;
    } else {
      var front, last := t[..|t| - 1], t[|t| - 1];
      NumberAppend(s, front);
      AppendLast(s, t);
      NumberNext(s + front, last);
      NumberNext(front, last);
      assert Pow10(|t|) == 10 * Pow10(|front|);
      hide Number, Pow10;
      TenfoldProduct(Number(s), Pow10(|front|));
    }
  }

  lemma NumberNext(s: string, c: char)
    requires IsDigit(c) && forall i | 0 <= i < |s| :: IsDigit(s[i])
    ensures Number(s + [c]) == Number(s) * 10 + DigitValue(c)
  {
    assert (s + [c])[..|s|] == s;
  }

  lemma TenfoldProduct(x: nat, p: nat)
    ensures x * (10 * p) == x * p * 10
  {
  }

  lemma ParsePlain(negative: bool, whole: string, fraction: string)
    requires AllDigits(whole) && AllDigits(fraction) && |fraction| <= -SMALLEST_EXPONENT
    ensures ParseDecimal((if negative then "-" else "") + (whole + ("." + fraction)))
            == Some(Decimal(negative, Number(whole + fraction), 0 - |fraction|))
  {
    hide ParseDecimal, SplitSign, ParseMantissa, FirstOf, Number, IsDigit;
    var body := whole + ("." + fraction);
    assert body[0] == whole[0];
    SignParted(negative, body);
    PlainBody(whole, fraction);
    DigitsConcat(whole, fraction);
    assert body[..|body|] == body;
    ReadParts((if negative then "-" else "") + body, negative, body, Number(whole + fraction), |fraction|);
  }

  lemma SignParted(negative: bool, body: string)
    requires body != "" && IsDigit(body[0])
    ensures SplitSign((if negative then "-" else "") + body) == (negative, body)
  {
    var s := (if negative then "-" else "") + body;
    if negative { assert s[1..] == body; } else { assert s == body; }
  }

  /** A text without an exponent: sign and mantissa are all there is. */
  lemma ReadParts(s: string, negative: bool, body: string, coefficient: nat, places: nat)
    requires SplitSign(s) == (negative, body) && FirstOf(body, 'e', 'E') == |body| && places <= -SMALLEST_EXPONENT
    requires ParseMantissa(body[..|body|]) == Some((coefficient, places))
    ensures ParseDecimal(s) == Some(Decimal(negative, coefficient, 0 - places))
  {
    hide SplitSign, ParseMantissa, FirstOf;
  }

  /** Where the separators of a plain amount stand. */
  lemma PlainBody(whole: string, fraction: string)
    requires AllDigits(whole) && AllDigits(fraction)
    ensures var body := whole + ("." + fraction);
      && FirstOf(body, 'e', 'E') == |body|
      && ParseMantissa(body) == Some((Number(whole + fraction), |fraction|))
  {
    var body := whole + ("." + fraction);
    PlainChars(whole, fraction);
    DigitsConcat(whole, fraction);
    FirstAt(body, '.', '.', |whole|);
    FirstAt(body, 'e', 'E', |body|);
    Parted(whole, '.', fraction);
    hide AllDigits, Number, FirstOf, IsDigit;
    MantissaAt(body, whole, fraction);
    hide ParseMantissa;
  }

  lemma FirstAt(s: string, a: char, b: char, k: nat)
    requires k <= |s| && (k < |s| ==> s[k] == a) && forall j | 0 <= j < k :: s[j] != a && s[j] != b
    ensures FirstOf(s, a, b) == k
  {
  }

  lemma Parted(whole: string, c: char, fraction: string)
    ensures var body := whole + ([c] + fraction); body[..|whole|] == whole && body[|whole| + 1..] == fraction
  {
  }

  lemma MantissaAt(body: string, whole: string, fraction: string)
    requires FirstOf(body, '.', '.') == |whole| < |body|
    requires body[..|whole|] == whole && body[|whole| + 1..] == fraction && AllDigits(whole + fraction)
    ensures ParseMantissa(body) == Some((Number(whole + fraction), |fraction|))
  {
    hide FirstOf, Number, AllDigits;
  }

  lemma PlainChars(whole: string, fraction: string)
    requires AllDigits(whole) && AllDigits(fraction)
    ensures var body := whole + ("." + fraction);
      && body[|whole|] == '.'
      && (forall k | 0 <= k < |whole| :: body[k] != '.')
      && forall k | 0 <= k < |body| :: body[k] != 'e' && body[k] != 'E'
  {
    var body := whole + ("." + fraction);
    assert forall k | 0 <= k < |whole| :: body[k] == whole[k];
    assert forall k | |whole| < k < |body| :: body[k] == fraction[k - |whole| - 1];
  }

  lemma DigitsConcat(s: string, t: string)
    requires AllDigits(s) && AllDigits(t)
    ensures AllDigits(s + t)
  {
  }

  lemma CommaBecomesPoint(sign: string, whole: string, separator: char, fraction: string)
    requires (sign == "" || sign == "-") && AllDigits(whole) && AllDigits(fraction)
    requires separator == ',' || separator == '.'
    ensures WithoutUnderscores(Dotted(Strip(sign + (whole + ([separator] + fraction))))) == sign + (whole + ("." + fraction))
  {
    var s, t := sign + (whole + ([separator] + fraction)), sign + (whole + ("." + fraction));
    assert Trimmed(s) by {
      assert s[|s| - 1] == fraction[|fraction| - 1] && IsDigit(s[|s| - 1]);
      assert s[0] == '-' || (s[0] == whole[0] && IsDigit(s[0]));
    }
    StripIsIdentity(s);
    hide Strip, AllDigits;
    assert AllDigits(whole) && AllDigits(fraction);
    PointsOnly(sign, whole, separator, fraction);
    NoUnderscores(t);
  }

  lemma PointsOnly(sign: string, whole: string, separator: char, fraction: string)
    requires (sign == "" || sign == "-") && AllDigits(whole) && AllDigits(fraction)
    requires separator == ',' || separator == '.'
    ensures Dotted(sign + (whole + ([separator] + fraction))) == sign + (whole + ("." + fraction))
    ensures '_' !in sign + (whole + ("." + fraction))
  {
  }

  lemma FormattedAmount(c: int)
    ensures Amount(FormatCents(c)) == Some(Decimal(c < 0, Abs(c), -2))
  {
    var whole, fraction := Show(Abs(c) / 100), Pad(Abs(c) % 100, 2);
    hide Show, Pad, Strip, Dotted, WithoutUnderscores, ParseDecimal;
    CommaBecomesPoint(if c < 0 then "-" else "", whole, ',', fraction);
    ParsePlain(c < 0, whole, fraction);
    FormattedNumber(Abs(c));
  }

  lemma FormattedNumber(n: nat)
    ensures Number(Show(n / 100) + Pad(n % 100, 2)) == n
  {
    assert Pow10(2) == 100;
    NumberAppend(Show(n / 100), Pad(n % 100, 2));
    PadNumber(n % 100, 2);
  }

  lemma {:induction false} NoLeadingZero(n: nat)
    ensures Show(n)[0] == '0' ==> n == 0 && Show(n) == "0"
  {
    if n >= 10 { NoLeadingZero(n / 10); }
  }

  /** Printed cents: a minus sign below zero, the whole units without leading zeros, a comma, two digits. */
  lemma FormattedText(cents: int)
    ensures var s := FormatCents(cents);
      && |s| >= 4 && s[|s| - 3] == ',' && (s[0] == '-' <==> cents < 0)
      && AllDigits(s[|s| - 2..]) && Number(s[|s| - 2..]) == Abs(cents) % 100
      && var whole := s[if cents < 0 then 1 else 0..|s| - 3];
         AllDigits(whole) && Number(whole) == Abs(cents) / 100 && (whole[0] == '0' ==> whole == "0")
  {
    var whole, rest := Show(Abs(cents) / 100), Pad(Abs(cents) % 100, 2);
    NoLeadingZero(Abs(cents) / 100);
    assert Pow10(2) == 100;
    PadNumber(Abs(cents) % 100, 2);
    var sign := if cents < 0 then "-" else "";
    hide Show, Pad, Number, Pow10;
    PartsOf(sign, whole, rest);
  }

  lemma PartsOf(sign: string, whole: string, rest: string)
    requires |rest| == 2 && whole != ""
    ensures var s := sign + (whole + ("," + rest));
      && s[|s| - 3] == ',' && s[|s| - 2..] == rest && s[|sign|..|s| - 3] == whole
      && s[0] == (if sign == "" then whole[0] else sign[0])
  {
  }

  /** Printed cents read back as themselves exactly while they fit the decimal precision. */
  lemma FormatThenToCents(c: int)
    ensures ToCents(FormatCents(c)) == Ok(c) <==> Abs(c) < PRECISION
    ensures ToCents(FormatCents(c)).Err? <==> Abs(c) >= PRECISION
  {
    FormattedAmount(c);
    var d := Decimal(c < 0, Abs(c), -2);
    assert Numerator(d) == Abs(c) && Denominator(d) == 100 by { assert Pow10(2) == 100; }
    HalfUpBounds(100 * Abs(c), 100, Abs(c));
  }

  /* ---------- what the written forms denote ---------- */

  lemma {:induction false} NumberBound(s: string)
    requires forall i | 0 <= i < |s| :: IsDigit(s[i])
    ensures Number(s) < Pow10(|s|)
  {
    if s != "" {
      NumberBound(s[..|s| - 1]);
    }
  }

  /** The cents of a written amount: two decimals count, and the third one rounds. */
  function CentsWritten(whole: string, fraction: string): nat
    requires AllDigits(whole) && (fraction == "" || AllDigits(fraction))
  {
    100 * Number(whole) +
    (if |fraction| == 0 then 0
     else if |fraction| == 1 then 10 * Number(fraction)
     else Number(fraction[..2]) + (if |fraction| > 2 && fraction[2] >= '5' then 1 else 0))
  }

  /** An amount without blanks: perhaps a minus sign, digits, perhaps a comma or a point and digits. */
  function Written(negative: bool, whole: string, separator: char, fraction: string): string {
    (if negative then "-" else "") + (if fraction == "" then whole else whole + ([separator] + fraction))
  }

  /** to_cents of every ordinary written form: '7' is 700, '12,5' is 1250, '12.50' is 1250, '12,505' is 1251,
      and a leading minus negates; only a result of more than 28 digits is refused. */
  lemma WrittenToCents(negative: bool, whole: string, separator: char, fraction: string)
    requires AllDigits(whole) && (fraction == "" || AllDigits(fraction)) && |fraction| <= -SMALLEST_EXPONENT
    requires separator == ',' || separator == '.'
    ensures var text, cents := Written(negative, whole, separator, fraction), CentsWritten(whole, fraction);
      ToCents(text) == if cents < PRECISION then Ok(if negative then 0 - cents else cents) else Err(text)
  {
    var text := Written(negative, whole, separator, fraction);
    hide CentsWritten, ToCents, Number, AllDigits;
    if fraction == "" {
      WholeToCents(negative, whole, text);
    } else {
      FractionToCents(negative, whole, separator, fraction, text);
    }
  }

  lemma WholeToCents(negative: bool, whole: string, text: string)
    requires AllDigits(whole) && text == (if negative then "-" else "") + whole
    ensures CentsWritten(whole, "") == 100 * Number(whole)
    ensures var cents := 100 * Number(whole);
      ToCents(text) == if cents < PRECISION then Ok(if negative then 0 - cents else cents) else Err(text)
  {
    WholeAmount(negative, whole);
    WholeCents(Number(whole));
    hide Amount, ToCents, Number, AllDigits, HalfUp, Pow10;
    CentsOf(text, negative, Number(whole), 0);
  }

  lemma FractionToCents(negative: bool, whole: string, separator: char, fraction: string, text: string)
    requires AllDigits(whole) && AllDigits(fraction) && |fraction| <= -SMALLEST_EXPONENT
    requires separator == ',' || separator == '.'
    requires text == (if negative then "-" else "") + (whole + ([separator] + fraction))
    ensures var cents := CentsWritten(whole, fraction);
      ToCents(text) == if cents < PRECISION then Ok(if negative then 0 - cents else cents) else Err(text)
  {
    hide CentsWritten, HalfUp, Amount, ToCents, Number, Pow10, IsDigit;
    FractionAmount(negative, whole, separator, fraction, text);
    FractionCents(whole, fraction);
    CentsOf(text, negative, Number(whole + fraction), |fraction|);
  }

  lemma FractionAmount(negative: bool, whole: string, separator: char, fraction: string, text: string)
    requires AllDigits(whole) && AllDigits(fraction) && |fraction| <= -SMALLEST_EXPONENT
    requires separator == ',' || separator == '.'
    requires text == (if negative then "-" else "") + (whole + ([separator] + fraction))
    ensures AllDigits(whole + fraction)
    ensures Amount(text) == Some(Decimal(negative, Number(whole + fraction), 0 - |fraction|))
  {
    hide ParseDecimal, WithoutUnderscores, Dotted, Strip, Number, AllDigits;
    DigitsConcat(whole, fraction);
    CommaBecomesPoint(if negative then "-" else "", whole, separator, fraction);
    ParsePlain(negative, whole, fraction);
  }

  lemma CentsOf(text: string, negative: bool, n: nat, places: nat)
    requires Amount(text) == Some(Decimal(negative, n, 0 - places))
    ensures var cents := HalfUp(100 * n, Pow10(places));
      ToCents(text) == if cents < PRECISION then Ok(if negative then 0 - cents else cents) else Err(text)
  {
    hide Amount, HalfUp, Pow10, Numerator, Denominator;
    WithoutExponent(Decimal(negative, n, 0 - places));
  }

  lemma WithoutExponent(d: Decimal)
    requires d.exponent <= 0
    ensures Numerator(d) == d.coefficient && Denominator(d) == Pow10(0 - d.exponent)
  {
    assert Pow10(0) == 1;
  }

  lemma WholeCents(n: nat)
    ensures HalfUp(100 * n, Pow10(0)) == 100 * n
  {
    assert Pow10(0) == 1;
  }

  lemma WholeAmount(negative: bool, whole: string)
    requires AllDigits(whole)
    ensures Amount((if negative then "-" else "") + whole) == Some(Decimal(negative, Number(whole), 0))
  {
    var sign := if negative then "-" else "";
    var s := sign + whole;
    assert Trimmed(s) by { assert s[|s| - 1] == whole[|whole| - 1] && (s[0] == '-' || s[0] == whole[0]); }
    StripIsIdentity(s);
    assert Dotted(s) == s && '_' !in s;
    NoUnderscores(s);
    hide Strip, Dotted, WithoutUnderscores;
    ParseWhole(negative, whole);
    hide ParseDecimal;
  }

  lemma ParseWhole(negative: bool, whole: string)
    requires AllDigits(whole)
    ensures ParseDecimal((if negative then "-" else "") + whole) == Some(Decimal(negative, Number(whole), 0))
  {
    hide ParseDecimal, SplitSign, FirstOf, ParseMantissa, Number, IsDigit;
    SignParted(negative, whole);
    WholeMantissa(whole);
    assert whole[..|whole|] == whole;
    ReadParts((if negative then "-" else "") + whole, negative, whole, Number(whole), 0);
  }

  lemma WholeMantissa(whole: string)
    requires AllDigits(whole)
    ensures FirstOf(whole, 'e', 'E') == |whole| && ParseMantissa(whole) == Some((Number(whole), 0))
  {
    FirstAt(whole, 'e', 'E', |whole|);
    FirstAt(whole, '.', '.', |whole|);
    hide FirstOf, Number, AllDigits;
    assert whole[..|whole|] == whole && whole + "" == whole;
  }

  lemma FractionCents(whole: string, fraction: string)
    requires AllDigits(whole) && AllDigits(fraction)
    ensures AllDigits(whole + fraction)
    ensures HalfUp(100 * Number(whole + fraction), Pow10(|fraction|)) == CentsWritten(whole, fraction)
  {
    hide Number, Pow10, HalfUp;
    NumberAppend(whole, fraction);
    if |fraction| == 1 {
      TenIsTen();
      TenthsAt(Number(whole), Number(fraction));
    } else {
      HundredthsCents(whole, fraction);
    }
  }

  lemma TenIsTen()
    ensures Pow10(1) == 10
  {
  }

  lemma HundredthsCents(whole: string, fraction: string)
    requires AllDigits(whole) && AllDigits(fraction) && |fraction| >= 2
    requires AllDigits(whole + fraction) && Number(whole + fraction) == Number(whole) * Pow10(|fraction|) + Number(fraction)
    ensures HalfUp(100 * Number(whole + fraction), Pow10(|fraction|)) == CentsWritten(whole, fraction)
  {
    hide Number, Pow10, HalfUp;
    var cents, rest := fraction[..2], fraction[2..];
    assert fraction == cents + rest;
    assert rest != "" ==> rest[0] == fraction[2];
    NumberAppend(cents, rest);
    NumberBound(rest);
    PowSplit(|fraction|);
    LeadingDigit(rest);
    RoundedAt(Number(whole), Number(cents), Number(rest), Pow10(|rest|), if rest != "" && rest[0] >= '5' then 1 else 0);
  }

  lemma TenthsAt(w: nat, t: nat)
    ensures HalfUp(100 * (w * 10 + t), 10) == 100 * w + 10 * t
  {
    HalfUpBounds(100 * (w * 10 + t), 10, 100 * w + 10 * t);
  }

  lemma PowSplit(n: nat)
    requires n >= 2
    ensures Pow10(n) == 100 * Pow10(n - 2)
  {
  }

  /** The rest of the digits is at least half a cent exactly when its first digit is five or more. */
  lemma LeadingDigit(rest: string)
    requires forall i | 0 <= i < |rest| :: IsDigit(rest[i])
    ensures 2 * Number(rest) >= Pow10(|rest|) <==> rest != "" && rest[0] >= '5'
  {
    if rest != "" {
      var more := rest[1..];
      assert rest == [rest[0]] + more;
      NumberAppend([rest[0]], more);
      NumberBound(more);
      NumberOne(rest[0]);
      assert Pow10(|rest|) == 10 * Pow10(|more|);
      hide Number, Pow10;
      DigitTimes(DigitValue(rest[0]), Pow10(|more|), Number(more));
    }
  }

  lemma NumberOne(c: char)
    requires IsDigit(c)
    ensures Number([c]) == DigitValue(c) && (DigitValue(c) >= 5 <==> c >= '5')
  {
    assert [c][..0] == "";
  }

  lemma DigitTimes(d: nat, p: nat, r: nat)
    requires d < 10 && r < p
    ensures 2 * (d * p + r) >= 10 * p <==> d >= 5
  {
    if d >= 5 {
      Scale(5, d, p);
    } else {
      Scale(d, 4, p);
    }
  }

  lemma RoundedAt(w: nat, c: nat, r: nat, p: nat, up: nat)
    requires r < p && up == if 2 * r >= p then 1 else 0
    ensures HalfUp(100 * (w * (100 * p) + (c * p + r)), 100 * p) == 100 * w + c + up
  {
    var a := 100 * w + c;
    hide HalfUp;
    Spread(w, c, p);
    Spread(0, a + up, p);
    Scale(a, a, p);
    assert (a + up) * p == a * p + (if 2 * r >= p then p else 0);
    RoundedSum(a * p, r, p, 100 * p, a + up);
  }

  /** `x` and `r` in hundredths of `d`, `x` a multiple. */
  lemma RoundedSum(x: nat, r: nat, p: nat, d: nat, q: nat)
    requires r < p && d == 100 * p && q * d == 100 * (x + (if 2 * r >= p then p else 0))
    ensures HalfUp(100 * (x + r), d) == q
  {
    HalfUpBounds(100 * (x + r), d, q);
  }

  lemma Spread(w: nat, c: nat, p: nat)
    ensures w * (100 * p) + c * p == (100 * w + c) * p
    ensures c * (100 * p) == 100 * (c * p)
  {
    assert w * (100 * p) == 100 * (w * p);
    assert (100 * w + c) * p == 100 * (w * p) + c * p;
  }

  /** Blanks around an amount do not matter. */
  lemma BlanksAround(left: string, core: string, right: string, c: int)
    requires Blank(left) && Blank(right) && Trimmed(core)
    ensures ToCents(left + (core + right)) == Ok(c) <==> ToCents(core) == Ok(c)
  {
    StripPadded(left, core, right);
    StripPadded("", core, "");
    assert "" + (core + "") == core;
    hide Strip, ParseDecimal, HalfUp;
  }

  /* ---------- rub_suggestion ---------- */

  function Divisor(currency: Option<string>): (d: nat)
    ensures d == 1 || d == 2 || d == 100
  {
    match currency
    case None => 1
    case Some(code) => if code == "UAH" then 2 else if code == "EUR" then 100 else 1
  }

  /** `h` to a multiple of `unit`, ties to the even multiple: the context's own rounding. */
  function HalfEven(h: nat, unit: nat): nat
    requires unit > 0
  {
    var q, r := h / unit, h % unit;
    if 2 * r < unit || (2 * r == unit && q % 2 == 0) then q * unit else (q + 1) * unit
  }

  /** The last digit a 28-digit quotient keeps, in hundredths; the quotient has at most two decimals. */
  function LastPlace(hundredths: nat): nat {
    if hundredths < PRECISION then 1 else if hundredths < 10 * PRECISION then 10 else 100
  }

  /** None: quantize raises, because the suggestion would need more than 28 digits. */
  function Suggested(rub: int, divisor: nat): Option<int>
    requires divisor == 1 || divisor == 2 || divisor == 100
  {
    var hundredths := 100 * Abs(rub) / divisor;
    var quotient := HalfEven(hundredths, LastPlace(hundredths));
    var q := HalfUp(quotient, 100);
    if q < PRECISION then Some(Signed(rub < 0, q)) else None
  }

  /** rub_suggestion: Ok(None) for an absent price, Err when quantize raises. */
  function RubSuggestion(rub: Option<int>, currency: Option<string>): Result<Option<int>, int> {
    match rub
    case None => Ok(None)
    case Some(cents) =>
      match Suggested(cents, Divisor(currency))
      case Some(q) => Ok(Some(q))
      case None => Err(cents)
  }

  /** The quotient is rounded to 28 digits first; only then can the two roundings disagree with one. */
  predicate RoundedTwice(rub: int, divisor: nat)
    requires divisor == 1 || divisor == 2 || divisor == 100
  {
    var h := 100 * Abs(rub) / divisor;
    || (PRECISION <= h < 10 * PRECISION && 46 <= h % 100 <= 49)
    || (h >= 10 * PRECISION && h % 100 == 50 && h / 100 % 2 == 0)
  }

  /** The suggestion is the half-up quotient exactly when that quotient fits and is not rounded twice. */
  lemma SuggestionIsHalfUp(rub: int, currency: Option<string>)
    ensures var divisor := Divisor(currency);
      var q := HalfUp(Abs(rub), divisor);
      RubSuggestion(Some(rub), currency) == Ok(Some(Signed(rub < 0, q))) <==> q < PRECISION && !RoundedTwice(rub, divisor)
  {
    hide Suggested, HalfUp, RoundedTwice;
    QuotientIsHalfUp(rub, Divisor(currency));
  }

  lemma QuotientIsHalfUp(rub: int, divisor: nat)
    requires divisor == 1 || divisor == 2 || divisor == 100
    ensures var q := HalfUp(Abs(rub), divisor);
      Suggested(rub, divisor) == Some(Signed(rub < 0, q)) <==> q < PRECISION && !RoundedTwice(rub, divisor)
  {
    var h := 100 * Abs(rub) / divisor;
    assert HalfUp(h, 100) == HalfUp(Abs(rub), divisor) by { HundredthsKeepHalves(Abs(rub), divisor); }
    hide HalfUp, HalfEven;
    TwoRoundings(h);
  }

  lemma HundredthsKeepHalves(n: nat, divisor: nat)
    requires divisor == 1 || divisor == 2 || divisor == 100
    ensures HalfUp(100 * n / divisor, 100) == HalfUp(n, divisor)
  {
    if divisor == 1 {
      assert 100 * n / 1 == 100 * n;
    } else if divisor == 2 {
      assert 100 * n / 2 == 50 * n;
    } else {
      assert 100 * n / 100 == n;
    }
  }

  lemma HalfUpHundredths(h: nat)
    ensures HalfUp(h, 100) == h / 100 + (if h % 100 >= 50 then 1 else 0)
  {
  }

  lemma TwoRoundings(h: nat)
    ensures HalfUp(HalfEven(h, LastPlace(h)), 100) == HalfUp(h, 100)
            <==> !((PRECISION <= h < 10 * PRECISION && 46 <= h % 100 <= 49)
                   || (h >= 10 * PRECISION && h % 100 == 50 && h / 100 % 2 == 0))
  {
    HalfUpHundredths(h);
    HalfUpHundredths(HalfEven(h, LastPlace(h)));
    hide HalfUp;
    if h < PRECISION {
      assert HalfEven(h, 1) == h by { assert h / 1 == h && h % 1 == 0; }
    } else if h < 10 * PRECISION {
      ToTenths(h);
    } else {
      ToWhole(h);
    }
  }

  lemma ToTenths(h: nat)
    ensures var r := HalfEven(h, 10);
      if 46 <= h % 100 <= 49 then r == h / 100 * 100 + 50
      else r / 100 + (if r % 100 >= 50 then 1 else 0) == h / 100 + (if h % 100 >= 50 then 1 else 0)
  {
    var a, c, t := h / 100, h % 100 / 10, h % 100 % 10;
    TenthsDigits(a, c, t);
    hide HalfEven;
    HundredsOf(a, if t > 5 || (t == 5 && c % 2 == 1) then c + 1 else c);
  }

  lemma HundredsOf(a: nat, c: nat)
    requires c <= 10
    ensures var r := 100 * a + 10 * c;
      r / 100 == (if c == 10 then a + 1 else a) && r % 100 == (if c == 10 then 0 else 10 * c)
  {
    DivMod(100 * a + 10 * c, 100, if c == 10 then a + 1 else a, if c == 10 then 0 else 10 * c);
  }

  lemma TenthsDigits(a: nat, c: nat, t: nat)
    requires c < 10 && t < 10
    ensures var h := 100 * a + 10 * c + t;
      HalfEven(h, 10) == 100 * a + 10 * (if t > 5 || (t == 5 && c % 2 == 1) then c + 1 else c)
  {
    DivMod(100 * a + 10 * c + t, 10, 10 * a + c, t);
    DivMod(10 * a + c, 2, 5 * a + c / 2, c % 2);
  }

  lemma DivMod(n: nat, d: nat, q: nat, r: nat)
    requires r < d && n == q * d + r
    ensures n / d == q && n % d == r
  {
    assert n == n / d * d + n % d;
    if n / d < q {
      Scale(n / d + 1, q, d);
      Scale(n / d, n / d, d);
    } else if q < n / d {
      Scale(q + 1, n / d, d);
      Scale(q, q, d);
    }
  }

  lemma ToWhole(h: nat)
    ensures HalfEven(h, 100)
            == (h / 100 + (if h % 100 > 50 || (h % 100 == 50 && h / 100 % 2 == 1) then 1 else 0)) * 100
  {
  }

  /** Every price of fewer than 28 digits is suggested half-up in roubles and euros; in hryvnias the
      exceptions are the prices of 28 digits from 2·10^27 on that leave one on division by four. */
  lemma SuggestionWithinPrecision(rub: int, currency: Option<string>)
    requires Abs(rub) < PRECISION
    ensures RubSuggestion(Some(rub), currency) == Ok(Some(Signed(rub < 0, HalfUp(Abs(rub), Divisor(currency)))))
            <==> !(Divisor(currency) == 2 && 5 * Abs(rub) >= PRECISION && Abs(rub) % 4 == 1)
  {
    SuggestionIsHalfUp(rub, currency);
    hide RubSuggestion, HalfUp;
    var divisor := Divisor(currency);
    assert HalfUp(Abs(rub), divisor) < PRECISION by { HalfUpAtMost(Abs(rub), divisor); }
    if divisor == 2 {
      RoundedTwiceInHalf(rub);
    } else {
      NotRoundedTwice(rub, divisor);
    }
  }

  /** Every price that a card can store is suggested half-up in every currency. */
  lemma StoredPricesAreHalfUp(rub: int, currency: Option<string>)
    requires Abs(rub) <= 0x8000_0000_0000_0000
    ensures RubSuggestion(Some(rub), currency) == Ok(Some(Signed(rub < 0, HalfUp(Abs(rub), Divisor(currency)))))
  {
    hide RubSuggestion, HalfUp;
    SuggestionWithinPrecision(rub, currency);
  }

  /** By currency: roubles and unknown codes stay, hryvnias are half of the kopecks, euros a hundredth, each
      rounded half away from zero. */
  lemma SuggestedByCurrency(rub: int, code: string)
    requires Abs(rub) <= 0x8000_0000_0000_0000
    ensures RubSuggestion(Some(rub), None) == Ok(Some(rub)) && RubSuggestion(None, Some(code)) == Ok(None)
    ensures code != "UAH" && code != "EUR" ==> RubSuggestion(Some(rub), Some(code)) == Ok(Some(rub))
    ensures code == "UAH" ==> RubSuggestion(Some(rub), Some(code)) == Ok(Some(Signed(rub < 0, (Abs(rub) + 1) / 2)))
    ensures code == "EUR" ==> RubSuggestion(Some(rub), Some(code)) == Ok(Some(Signed(rub < 0, (Abs(rub) + 50) / 100)))
  {
    hide RubSuggestion, HalfUp;
    StoredPricesAreHalfUp(rub, None);
    StoredPricesAreHalfUp(rub, Some(code));
    Quotients(Abs(rub));
    NoPriceNoSuggestion(Some(code));
  }

  lemma NoPriceNoSuggestion(currency: Option<string>)
    ensures RubSuggestion(None, currency) == Ok(None)
  {
    hide Suggested;
  }

  lemma Quotients(n: nat)
    ensures HalfUp(n, 1) == n && HalfUp(n, 2) == (n + 1) / 2 && HalfUp(n, 100) == (n + 50) / 100
  {
    hide HalfUp;
    HalfUpBounds(n, 1, n);
    HalfUpBounds(n, 2, (n + 1) / 2);
    HalfUpBounds(n, 100, (n + 50) / 100);
  }

  lemma NotRoundedTwice(rub: int, divisor: nat)
    requires (divisor == 1 || divisor == 100) && Abs(rub) < PRECISION
    ensures !RoundedTwice(rub, divisor)
  {
    if divisor == 1 {
      DivMod(100 * Abs(rub), 1, 100 * Abs(rub), 0);
      DivMod(100 * Abs(rub), 100, Abs(rub), 0);
    } else {
      DivMod(100 * Abs(rub), 100, Abs(rub), 0);
    }
  }

  lemma RoundedTwiceInHalf(rub: int)
    requires Abs(rub) < PRECISION
    ensures RoundedTwice(rub, 2) <==> 5 * Abs(rub) >= PRECISION && Abs(rub) % 4 == 1
  {
    var n := Abs(rub);
    HalvedDigits(n / 4, n % 4);
    assert n == 4 * (n / 4) + n % 4;
  }

  lemma HalvedDigits(k: nat, r: nat)
    requires r < 4
    ensures var h := 100 * (4 * k + r) / 2;
      && h == 50 * (4 * k + r)
      && h % 100 == 50 * (r % 2)
      && h / 100 % 2 == r / 2
  {
    var h := 100 * (4 * k + r) / 2;
    DivMod(100 * (4 * k + r), 2, 200 * k + 50 * r, 0);
    DivMod(h, 100, 2 * k + r / 2, 50 * (r % 2));
  }

  lemma HalfUpAtMost(n: nat, d: nat)
    requires d == 1 || d == 2 || d == 100
    ensures HalfUp(n, d) <= n
  {
    if d == 1 {
      assert (2 * n + 1) / 2 <= n;
    } else if d == 2 {
      assert (2 * n + 2) / 4 <= n;
    } else {
      assert (2 * n + 100) / 200 <= n;
    }
  }

  /** One such price: 8·10^27 + 1, whose half is suggested one too low. */
  lemma HalvedTwiceRounded(currency: Option<string>)
    requires currency == Some("UAH")
    ensures var rub := 8_000_000_000_000_000_000_000_000_001;
      RubSuggestion(Some(rub), currency) == Ok(Some(4_000_000_000_000_000_000_000_000_000))
      && HalfUp(rub, 2) == 4_000_000_000_000_000_000_000_000_001
  {
    assert Divisor(currency) == 2;
    hide Divisor;
    HalvedOnce();
    hide Suggested;
  }

  lemma HalvedOnce()
    ensures Suggested(8_000_000_000_000_000_000_000_000_001, 2) == Some(4_000_000_000_000_000_000_000_000_000)
  {
    var h := 100 * 8_000_000_000_000_000_000_000_000_001 / 2;
    assert h == 400_000_000_000_000_000_000_000_000_050;
    assert LastPlace(h) == 100;
    assert HalfEven(h, 100) == 400_000_000_000_000_000_000_000_000_000;
  }
}
