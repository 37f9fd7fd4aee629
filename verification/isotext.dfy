/** app/core.py: stored ISO text sorts as time does (section 5.1 of RFC 3339), so the reports' text
    filters select exactly the rows whose local day is in range. */
module IsoText {
  import opened Base
  import opened Text
  import opened Calendar

  /** date.isoformat() */
  function IsoDate(d: Date): string
    requires Valid(d)
  {
    Pad(d.year, 4) + ("-" + (Pad(d.month, 2) + ("-" + Pad(d.day, 2))))
  }

  lemma FixedWidths()
    ensures Pow10(2) == 100 && Pow10(4) == 10_000 && Pow10(6) == 1_000_000
  {
    assert Pow10(2) == 100;
    assert Pow10(4) == 10_000;
  }

  /** Text of the same shape: a padded number, a separator, a rest. */
  lemma PaddedOrder(a: nat, b: nat, width: nat, x: string, y: string)
    requires a < Pow10(width) && b < Pow10(width)
    ensures Less(Pad(a, width) + x, Pad(b, width) + y) <==> a < b || (a == b && Less(x, y))
  {
    PadMonotone(a, b, width);
    LessConcat(Pad(a, width), Pad(b, width), x, y);
  }

  lemma SeparatorOrder(c: char, x: string, y: string)
    ensures Less([c] + x, [c] + y) <==> Less(x, y)
  {
    LessConcat([c], [c], x, y);
    LessIrreflexive([c]);
  }

  /** Date text sorts as dates do. */
  lemma IsoDateOrder(a: Date, b: Date)
    requires Valid(a) && Valid(b)
    ensures Less(IsoDate(a), IsoDate(b)) <==> Before(a, b)
    ensures IsoDate(a) == IsoDate(b) <==> a == b
  {
    FixedWidths();
    var x, y := Pad(a.month, 2) + ("-" + Pad(a.day, 2)), Pad(b.month, 2) + ("-" + Pad(b.day, 2));
    PaddedOrder(a.year, b.year, 4, "-" + x, "-" + y);
    SeparatorOrder('-', x, y);
    PaddedOrder(a.month, b.month, 2, "-" + Pad(a.day, 2), "-" + Pad(b.day, 2));
    SeparatorOrder('-', Pad(a.day, 2), Pad(b.day, 2));
    PadMonotone(a.day, b.day, 2);
    if IsoDate(a) == IsoDate(b) {
      LessIrreflexive(IsoDate(a));
      assert !Before(a, b);
      assert !Before(b, a) by { IsoDateAntisymmetric(a, b); }
    }
  }

  lemma IsoDateAntisymmetric(a: Date, b: Date)
    requires Valid(a) && Valid(b) && IsoDate(a) == IsoDate(b)
    ensures a == b
  {
    FixedWidths();
    var s, t := IsoDate(a), IsoDate(b);
    assert s[..4] == Pad(a.year, 4) && t[..4] == Pad(b.year, 4);
    assert s[5..7] == Pad(a.month, 2) && t[5..7] == Pad(b.month, 2);
    assert s[8..] == Pad(a.day, 2) && t[8..] == Pad(b.day, 2);
    PadMonotone(a.year, b.year, 4);
    PadMonotone(a.month, b.month, 2);
    PadMonotone(a.day, b.day, 2);
  }

  /** The ten characters of a date: year, month and day in digits, with dashes between. */
  lemma IsoDateReads(d: Date)
    requires Valid(d)
    ensures var s := IsoDate(d);
      && |s| == 10 && s[4] == '-' && s[7] == '-'
      && AllDigits(s[..4]) && AllDigits(s[5..7]) && AllDigits(s[8..])
      && Number(s[..4]) == d.year && Number(s[5..7]) == d.month && Number(s[8..]) == d.day
  {
    FixedWidths();
    var s := IsoDate(d);
    PadNumber(d.year, 4);
    PadNumber(d.month, 2);
    PadNumber(d.day, 2);
    assert s[..4] == Pad(d.year, 4) && s[5..7] == Pad(d.month, 2) && s[8..] == Pad(d.day, 2);
    hide Pad, Number, Pow10;
  }

  /** business_date_bounds with its closed filter: exactly the days of the range. */
  lemma BusinessDateFilter(start: Date, end: Date, day: Date)
    requires Valid(start) && Valid(end) && Valid(day)
    ensures AtMost(IsoDate(start), IsoDate(day)) && AtMost(IsoDate(day), IsoDate(end))
            <==> DayNumber(start) <= DayNumber(day) <= DayNumber(end)
  {
    IsoDateOrder(start, day);
    IsoDateOrder(day, end);
    DayNumberOrder(start, day);
    DayNumberOrder(day, end);
  }

  /* ---------- timestamps ---------- */

  /** Moments are counted in seconds, or microseconds, from 0001-01-01T00:00:00 UTC. */
  const DAY_SECONDS := 86_400
  const END_SECONDS := (MAX_DAY + 1) * DAY_SECONDS

  function Clock(s: nat): string {
    HourMinuteSecond(s / 3600, s / 60 % 60, s % 60)
  }

  function HourMinuteSecond(h: nat, m: nat, s: nat): string {
    Pad(h, 2) + (":" + (Pad(m, 2) + (":" + Pad(s, 2))))
  }

  function Day(t: nat): Date {
    Civil(t / DAY_SECONDS)
  }

  lemma DayIsValid(t: nat)
    requires t < END_SECONDS
    ensures Valid(Day(t)) && DayNumber(Day(t)) == t / DAY_SECONDS
  {
    CivilNumber(t / DAY_SECONDS);
    InRange(Day(t));
  }

  /** The part before the fraction and the offset. */
  function IsoSecond(t: nat): string
    requires t < END_SECONDS
  {
    DayIsValid(t);
    IsoDate(Day(t)) + ("T" + Clock(t % DAY_SECONDS))
  }

  /** datetime.isoformat(timespec="seconds") of a UTC moment. */
  function IsoMoment(t: nat): string
    requires t < END_SECONDS
  {
    IsoSecond(t) + "+00:00"
  }

  lemma ClockOrder(a: nat, b: nat)
    requires a < DAY_SECONDS && b < DAY_SECONDS
    ensures |Clock(a)| == |Clock(b)| == 8
    ensures Less(Clock(a), Clock(b)) <==> a < b
    ensures Clock(a) == Clock(b) <==> a == b
  {
    ClockDigits(a);
    ClockDigits(b);
    ClockTextOrder(a / 3600, a / 60 % 60, a % 60, b / 3600, b / 60 % 60, b % 60);
    if Clock(a) == Clock(b) { ClockSame(a, b); }
  }

  lemma ClockTextOrder(h: nat, m: nat, s: nat, h': nat, m': nat, s': nat)
    requires h < 100 && h' < 100 && m < 60 && m' < 60 && s < 60 && s' < 60
    ensures Less(HourMinuteSecond(h, m, s), HourMinuteSecond(h', m', s'))
            <==> h < h' || (h == h' && (m < m' || (m == m' && s < s')))
  {
    FixedWidths();
    hide Pad, Less;
    var x, y := Pad(m, 2) + (":" + Pad(s, 2)), Pad(m', 2) + (":" + Pad(s', 2));
    PaddedOrder(h, h', 2, ":" + x, ":" + y);
    SeparatorOrder(':', x, y);
    PaddedOrder(m, m', 2, ":" + Pad(s, 2), ":" + Pad(s', 2));
    SeparatorOrder(':', Pad(s, 2), Pad(s', 2));
    PadMonotone(s, s', 2);
  }

  lemma ClockDigits(a: nat)
    requires a < DAY_SECONDS
    ensures a / 3600 < 100 && a / 60 % 60 < 100 && a % 60 < 100
    ensures a == a / 3600 * 3600 + a / 60 % 60 * 60 + a % 60
  {
    assert a / 60 / 60 == a / 3600;
    assert a / 60 == a / 60 / 60 * 60 + a / 60 % 60;
  }

  lemma ClockSame(a: nat, b: nat)
    requires a < DAY_SECONDS && b < DAY_SECONDS && Clock(a) == Clock(b)
    ensures a == b
  {
    FixedWidths();
    ClockDigits(a);
    ClockDigits(b);
    var s, t := Clock(a), Clock(b);
    assert s[..2] == Pad(a / 3600, 2) && t[..2] == Pad(b / 3600, 2);
    assert s[3..5] == Pad(a / 60 % 60, 2) && t[3..5] == Pad(b / 60 % 60, 2);
    assert s[6..] == Pad(a % 60, 2) && t[6..] == Pad(b % 60, 2);
    PadMonotone(a / 3600, b / 3600, 2);
    PadMonotone(a / 60 % 60, b / 60 % 60, 2);
    PadMonotone(a % 60, b % 60, 2);
  }

  lemma Regroup(a: string, c: string, x: string)
    ensures a + ("T" + c) + x == a + ("T" + (c + x))
  {
  }

  lemma IsoDateWidth(d: Date)
    requires Valid(d)
    ensures |IsoDate(d)| == 10
  {
  }

  lemma JoinedSame(a: string, b: string, c: string, d: string)
    requires |a| == |b|
    ensures a + ("T" + c) == b + ("T" + d) <==> a == b && c == d
  {
    if a + ("T" + c) == b + ("T" + d) {
      assert a == (a + ("T" + c))[..|a|] == b;
      assert c == (a + ("T" + c))[|a| + 1..] == d;
    }
  }

  lemma IsoSecondOrder(a: nat, b: nat, x: string, y: string)
    requires a < END_SECONDS && b < END_SECONDS
    ensures |IsoSecond(a)| == |IsoSecond(b)|
    ensures Less(IsoSecond(a) + x, IsoSecond(b) + y) <==> a < b || (a == b && Less(x, y))
    ensures IsoSecond(a) == IsoSecond(b) <==> a == b
  {
    DayIsValid(a);
    DayIsValid(b);
    hide DayNumber, Civil, Clock, IsoDate, Less, Before, Valid, Day;
    IsoDateOrder(Day(a), Day(b));
    IsoDateWidth(Day(a));
    IsoDateWidth(Day(b));
    DayNumberOrder(Day(a), Day(b));
    ClockOrder(a % DAY_SECONDS, b % DAY_SECONDS);
    var c, d := Clock(a % DAY_SECONDS), Clock(b % DAY_SECONDS);
    Regroup(IsoDate(Day(a)), c, x);
    Regroup(IsoDate(Day(b)), d, y);
    LessConcat(IsoDate(Day(a)), IsoDate(Day(b)), "T" + (c + x), "T" + (d + y));
    SeparatorOrder('T', c + x, d + y);
    LessConcat(c, d, x, y);
    SecondsOfDays(a, b);
    JoinedSame(IsoDate(Day(a)), IsoDate(Day(b)), c, d);
  }

  lemma SecondsOfDays(a: nat, b: nat)
    ensures a < b <==> a / DAY_SECONDS < b / DAY_SECONDS || (a / DAY_SECONDS == b / DAY_SECONDS && a % DAY_SECONDS < b % DAY_SECONDS)
    ensures a == b <==> a / DAY_SECONDS == b / DAY_SECONDS && a % DAY_SECONDS == b % DAY_SECONDS
  {
    assert a == a / DAY_SECONDS * DAY_SECONDS + a % DAY_SECONDS;
    assert b == b / DAY_SECONDS * DAY_SECONDS + b % DAY_SECONDS;
  }

  /** The clock of a timestamp: hours, minutes and seconds in digits, with colons between. */
  lemma ClockReads(a: nat)
    requires a < DAY_SECONDS
    ensures var s := Clock(a);
      && |s| == 8 && s[2] == ':' && s[5] == ':'
      && AllDigits(s[..2]) && AllDigits(s[3..5]) && AllDigits(s[6..])
      && a == Number(s[..2]) * 3600 + Number(s[3..5]) * 60 + Number(s[6..])
      && Number(s[3..5]) < 60 && Number(s[6..]) < 60
  {
    FixedWidths();
    ClockDigits(a);
    var h, m, sec := a / 3600, a / 60 % 60, a % 60;
    PadNumber(h, 2);
    PadNumber(m, 2);
    PadNumber(sec, 2);
    var s := Clock(a);
    assert s[..2] == Pad(h, 2) && s[3..5] == Pad(m, 2) && s[6..] == Pad(sec, 2);
    hide Pad, Number, Pow10, Clock;
  }

  /** A stored timestamp is the date of its day, a T, the clock, and the UTC offset. */
  lemma IsoMomentReads(t: nat)
    requires t < END_SECONDS
    ensures var s, d := IsoMoment(t), Day(t);
      && |s| == 25 && Valid(d) && DayNumber(d) == t / DAY_SECONDS && s[..10] == IsoDate(d) && s[10] == 'T'
      && s[11..19] == Clock(t % DAY_SECONDS) && s[19..] == "+00:00"
  {
    DayIsValid(t);
    IsoDateWidth(Day(t));
    ClockReads(t % DAY_SECONDS);
    hide IsoDate, Clock, Day, DayNumber, Number, Valid;
    var s, date, clock := IsoMoment(t), IsoDate(Day(t)), Clock(t % DAY_SECONDS);
    Regroup(date, clock, "+00:00");
    assert s == date + ("T" + (clock + "+00:00"));
  }

  /** Stored UTC timestamps sort as time does. */
  lemma IsoMomentOrder(a: nat, b: nat)
    requires a < END_SECONDS && b < END_SECONDS
    ensures Less(IsoMoment(a), IsoMoment(b)) <==> a < b
    ensures IsoMoment(a) == IsoMoment(b) <==> a == b
  {
    IsoSecondOrder(a, b, "+00:00", "+00:00");
    LessIrreflexive("+00:00");
    if IsoMoment(a) == IsoMoment(b) {
      assert IsoMoment(a)[..|IsoSecond(a)|] == IsoSecond(a) && IsoMoment(b)[..|IsoSecond(b)|] == IsoSecond(b);
    }
  }

  /** local_day_of at a fixed offset: the number of the local day. */
  function LocalDay(t: nat, offset: int): int {
    (t + offset) / DAY_SECONDS
  }

  /** local_day_bounds_utc at a fixed offset; None is the OverflowError at either end of the calendar. */
  function LocalDayBoundsUtc(start: Date, end: Date, offset: int): Option<(string, string)>
    requires Valid(start) && Valid(end)
  {
    var a, b := DayNumber(start) * DAY_SECONDS - offset, (DayNumber(end) + 1) * DAY_SECONDS - offset;
    if DayNumber(end) == MAX_DAY || a < 0 || b < 0 || a >= END_SECONDS || b >= END_SECONDS then None
    else Some((IsoMoment(a), IsoMoment(b)))
  }

  /** The two bounds are the moments at which, at this offset, the first day begins and the last one ends. */
  lemma BoundsAreMidnights(start: Date, end: Date, offset: int)
    requires Valid(start) && Valid(end) && LocalDayBoundsUtc(start, end, offset).Some?
    ensures exists a: nat, b: nat | a < END_SECONDS && b < END_SECONDS ::
      && LocalDayBoundsUtc(start, end, offset) == Some((IsoMoment(a), IsoMoment(b)))
      && a + offset == DayNumber(start) * DAY_SECONDS && b + offset == (DayNumber(end) + 1) * DAY_SECONDS
      && LocalDay(a, offset) == DayNumber(start) && LocalDay(b, offset) == DayNumber(end) + 1
  {
    var a, b := DayNumber(start) * DAY_SECONDS - offset, (DayNumber(end) + 1) * DAY_SECONDS - offset;
    hide DayNumber, IsoMoment, Valid;
    assert (a + offset) / DAY_SECONDS == DayNumber(start) && (b + offset) / DAY_SECONDS == DayNumber(end) + 1;
    assert LocalDayBoundsUtc(start, end, offset) == Some((IsoMoment(a), IsoMoment(b)));
  }

  /** The half-open text filter selects exactly the rows whose local day lies in the closed range. */
  lemma LocalDayFilter(start: Date, end: Date, offset: int, t: nat)
    requires Valid(start) && Valid(end) && t < END_SECONDS
    ensures var bounds := LocalDayBoundsUtc(start, end, offset);
      bounds.Some? ==>
        (AtMost(bounds.value.0, IsoMoment(t)) && Less(IsoMoment(t), bounds.value.1)
         <==> DayNumber(start) <= LocalDay(t, offset) <= DayNumber(end))
  {
    hide DayNumber, IsoMoment, LocalDay, AtMost, Less, Valid;
    DaysBetween(DayNumber(start), DayNumber(end), offset, t);
  }

  lemma DaysBetween(first: int, last: int, offset: int, t: nat)
    requires t < END_SECONDS
    ensures var a, b := first * DAY_SECONDS - offset, (last + 1) * DAY_SECONDS - offset;
      0 <= a < END_SECONDS && 0 <= b < END_SECONDS ==>
        (AtMost(IsoMoment(a), IsoMoment(t)) && Less(IsoMoment(t), IsoMoment(b)) <==> first <= LocalDay(t, offset) <= last)
  {
    var a, b := first * DAY_SECONDS - offset, (last + 1) * DAY_SECONDS - offset;
    LocalDayLine(t, offset, first);
    LocalDayLine(t, offset, last + 1);
    hide IsoMoment, Less, AtMost, LocalDay;
    if 0 <= a < END_SECONDS && 0 <= b < END_SECONDS {
      MomentsBetween(a, t, b);
    }
  }

  lemma MomentsBetween(a: nat, t: nat, b: nat)
    requires a < END_SECONDS && t < END_SECONDS && b < END_SECONDS
    ensures AtMost(IsoMoment(a), IsoMoment(t)) && Less(IsoMoment(t), IsoMoment(b)) <==> a <= t < b
  {
    IsoMomentOrder(a, t);
    IsoMomentOrder(t, b);
  }

  lemma LocalDayLine(t: nat, offset: int, day: int)
    ensures day * DAY_SECONDS - offset <= t <==> day <= LocalDay(t, offset)
  {
    var n := t + offset;
    assert n == n / DAY_SECONDS * DAY_SECONDS + n % DAY_SECONDS;
  }

  /* ---------- microseconds ---------- */

  const MICROS := 1_000_000
  const END_MICROS := END_SECONDS * MICROS

  /** datetime.isoformat() of a UTC moment: the fraction is dropped when it is zero. */
  function IsoMicro(u: nat): string
    requires u < END_MICROS
  {
    IsoSecond(u / MICROS) + Fraction(u % MICROS)
  }

  function Fraction(x: nat): string {
    if x == 0 then "+00:00" else "." + Pad(x, 6) + "+00:00"
  }

  /** With whole seconds it is the timestamp without fraction; otherwise six digits stand after a point. */
  lemma IsoMicroReads(u: nat)
    requires u < END_MICROS
    ensures var s, whole := IsoMicro(u), IsoMoment(u / MICROS);
      if u % MICROS == 0 then s == whole
      else
        && |s| == 32 && s[..19] == whole[..19] && s[19] == '.' && s[26..] == "+00:00"
        && AllDigits(s[20..26]) && Number(s[20..26]) == u % MICROS
  {
    IsoMomentReads(u / MICROS);
    var x, second := u % MICROS, IsoSecond(u / MICROS);
    FixedWidths();
    hide IsoSecond, Number, Pow10, Pad;
    assert |second| == 19;
    if x != 0 {
      PadNumber(x, 6);
      PointedFraction(x, "+00:00");
      hide Fraction;
      assert IsoMicro(u) == second + (['.'] + (Pad(x, 6) + "+00:00"));
      assert IsoMicro(u)[20..26] == Pad(x, 6);
    }
  }

  /** Even so the text sorts as time does, because `+` sorts before the decimal point. */
  lemma IsoMicroOrder(a: nat, b: nat)
    requires a < b < END_MICROS
    ensures Less(IsoMicro(a), IsoMicro(b))
  {
    var x, y := a % MICROS, b % MICROS;
    IsoSecondOrder(a / MICROS, b / MICROS, Fraction(x), Fraction(y));
    assert a == a / MICROS * MICROS + x && b == b / MICROS * MICROS + y;
    hide IsoSecond, Fraction, Less;
    if a / MICROS == b / MICROS {
      FractionOrder(x, y);
    }
  }

  lemma FractionOrder(x: nat, y: nat)
    requires x < y < MICROS
    ensures Less(Fraction(x), Fraction(y))
  {
    FixedWidths();
    var zone := "+00:00";
    PointedFraction(y, zone);
    if x != 0 {
      PointedFraction(x, zone);
      hide Fraction, Less, Pad, Pow10;
      SeparatorOrder('.', Pad(x, 6) + zone, Pad(y, 6) + zone);
      PaddedOrder(x, y, 6, zone, zone);
    }
  }

  lemma PointedFraction(x: nat, zone: string)
    requires x > 0 && zone == "+00:00"
    ensures Fraction(x) == ['.'] + (Pad(x, 6) + zone)
  {
    hide Pad;
  }
}
