/** Gregorian dates as Python's datetime.date has them, the report presets of app/routes/reports.py and
    the period starts of app/services/customers.py. */
module Calendar {
  import opened Base

  datatype Date = Date(year: int, month: int, day: int)

  const MAX_YEAR := 9999

  /** date.max as a day number. */
  const MAX_DAY := 3652058

  predicate IsLeap(y: int) {
    y % 4 == 0 && (y % 100 != 0 || y % 400 == 0)
  }

  function DaysInMonth(y: int, m: int): int {
    if m == 2 then (if IsLeap(y) then 29 else 28)
    else if m == 4 || m == 6 || m == 9 || m == 11 then 30
    else 31
  }

  /** A Gregorian date from year 1 on. */
  predicate Proper(d: Date) {
    d.year >= 1 && 1 <= d.month <= 12 && 1 <= d.day <= DaysInMonth(d.year, d.month)
  }

  /** A date that Python can represent. */
  predicate Valid(d: Date) {
    Proper(d) && d.year <= MAX_YEAR
  }

  predicate Before(a: Date, b: Date) {
    a.year < b.year || (a.year == b.year && (a.month < b.month || (a.month == b.month && a.day < b.day)))
  }

  predicate NotAfter(a: Date, b: Date) {
    a == b || Before(a, b)
  }

  /* ---------- day numbers: 0001-01-01, a Monday, is day 0 ---------- */

  function DaysBeforeYear(y: int): int {
    (y - 1) * 365 + (y - 1) / 4 - (y - 1) / 100 + (y - 1) / 400
  }

  function DaysBeforeMonth(y: int, m: int): int
    decreases m
  {
    if m <= 1 then 0 else DaysBeforeMonth(y, m - 1) + DaysInMonth(y, m - 1)
  }

  function DayNumber(d: Date): int {
    DaysBeforeYear(d.year) + DaysBeforeMonth(d.year, d.month) + d.day - 1
  }

  function NextDay(d: Date): Date {
    if d.day < DaysInMonth(d.year, d.month) then d.(day := d.day + 1)
    else if d.month < 12 then Date(d.year, d.month + 1, 1)
    else Date(d.year + 1, 1, 1)
  }

  lemma YearLength(y: int)
    requires y >= 1
    ensures DaysBeforeYear(y + 1) == DaysBeforeYear(y) + DaysBeforeMonth(y, 13)
    ensures DaysBeforeMonth(y, 13) == if IsLeap(y) then 366 else 365
  {
    assert DaysBeforeMonth(y, 2) == 31;
    assert DaysBeforeMonth(y, 3) == 31 + DaysInMonth(y, 2);
    assert DaysBeforeMonth(y, 5) == DaysBeforeMonth(y, 3) + 61;
    assert DaysBeforeMonth(y, 7) == DaysBeforeMonth(y, 5) + 61;
    assert DaysBeforeMonth(y, 9) == DaysBeforeMonth(y, 7) + 62;
    assert DaysBeforeMonth(y, 11) == DaysBeforeMonth(y, 9) + 61;
    assert DaysBeforeMonth(y, 13) == DaysBeforeMonth(y, 11) + 61;
    YearQuotients(y);
  }

  lemma YearQuotients(y: int)
    requires y >= 1
    ensures y / 4 - (y - 1) / 4 == if y % 4 == 0 then 1 else 0
    ensures y / 100 - (y - 1) / 100 == if y % 100 == 0 then 1 else 0
    ensures y / 400 - (y - 1) / 400 == if y % 400 == 0 then 1 else 0
    ensures y % 400 == 0 ==> y % 100 == 0
    ensures y % 100 == 0 ==> y % 4 == 0
  {
  }

  lemma NextDayNumber(d: Date)
    requires Proper(d)
    ensures Proper(NextDay(d)) && DayNumber(NextDay(d)) == DayNumber(d) + 1
  {
    if d.day == DaysInMonth(d.year, d.month) && d.month == 12 {
      YearLength(d.year);
    }
  }

  lemma {:induction false} MonthOrder(y: int, m: int, n: int)
    requires 1 <= m < n
    ensures DaysBeforeMonth(y, m) + DaysInMonth(y, m) <= DaysBeforeMonth(y, n)
  {
    if m < n - 1 { MonthOrder(y, m, n - 1); }
  }

  lemma {:induction false} YearOrder(y: int, z: int)
    requires 1 <= y < z
    ensures DaysBeforeYear(y) + DaysBeforeMonth(y, 13) <= DaysBeforeYear(z)
    decreases z
  {
    YearLength(z - 1);
    if y < z - 1 { YearOrder(y, z - 1); }
  }

  /** Calendar order is day-number order. */
  lemma DayNumberOrder(a: Date, b: Date)
    requires Proper(a) && Proper(b)
    ensures Before(a, b) <==> DayNumber(a) < DayNumber(b)
    ensures a == b <==> DayNumber(a) == DayNumber(b)
  {
    if Before(a, b) { BeforeIsLess(a, b); }
    if Before(b, a) { BeforeIsLess(b, a); }
  }

  lemma BeforeIsLess(a: Date, b: Date)
    requires Proper(a) && Proper(b) && Before(a, b)
    ensures DayNumber(a) < DayNumber(b)
  {
    if a.year < b.year {
      if a.month < 13 { MonthOrder(a.year, a.month, 13); }
      YearOrder(a.year, b.year);
      if b.month > 1 { MonthOrder(b.year, 1, b.month); }
    } else if a.month < b.month {
      MonthOrder(a.year, a.month, b.month);
    }
  }

  /** The date with a given day number. */
  function Civil(n: nat): Date {
    if n == 0 then Date(1, 1, 1) else NextDay(Civil(n - 1))
  }

  lemma {:induction false} CivilNumber(n: nat)
    ensures Proper(Civil(n)) && DayNumber(Civil(n)) == n
  {
    if n > 0 {
      CivilNumber(n - 1);
      NextDayNumber(Civil(n - 1));
    }
  }

  lemma CivilInverse(d: Date)
    requires Proper(d)
    ensures DayNumber(d) >= 0 && Civil(DayNumber(d)) == d
  {
    DayNumberOrder(Date(1, 1, 1), d);
    CivilNumber(DayNumber(d));
    DayNumberOrder(Civil(DayNumber(d)), d);
  }

  lemma LastDay()
    ensures DayNumber(Date(MAX_YEAR, 12, 31)) == MAX_DAY
  {
    YearLength(MAX_YEAR);
  }

  lemma InRange(d: Date)
    requires Proper(d)
    ensures Valid(d) <==> DayNumber(d) <= MAX_DAY
  {
    LastDay();
    DayNumberOrder(d, Date(MAX_YEAR, 12, 31));
    DayNumberOrder(Date(MAX_YEAR, 12, 31), d);
  }

  /** date + timedelta(days=k); None is the OverflowError. */
  function AddDays(d: Date, k: int): Option<Date> {
    var n := DayNumber(d) + k;
    if 0 <= n <= MAX_DAY then Some(Civil(n)) else None
  }

  lemma AddDaysIs(d: Date, k: int)
    requires Proper(d)
    ensures AddDays(d, k).Some? ==>
      Valid(AddDays(d, k).value) && DayNumber(AddDays(d, k).value) == DayNumber(d) + k
  {
    hide DayNumber, Civil;
    var n := DayNumber(d) + k;
    if 0 <= n <= MAX_DAY {
      CivilNumber(n);
      InRange(Civil(n));
    }
  }

  /** date.weekday() */
  function Weekday(d: Date): int {
    DayNumber(d) % 7
  }

  /** The calendar repeats after 400 years, weekdays and all, and the first of January 2024 was a Monday. */
  lemma GregorianCycle(d: Date)
    requires Proper(d)
    ensures Proper(d.(year := d.year + 400)) && DayNumber(d.(year := d.year + 400)) == DayNumber(d) + 146_097
    ensures Weekday(d.(year := d.year + 400)) == Weekday(d)
    ensures Weekday(Date(2024, 1, 1)) == 0
  {
    var y := d.year;
    YearCycle(y);
    SameMonths(y, y + 400, d.month);
    hide DaysBeforeYear, DaysBeforeMonth, DaysInMonth, IsLeap;
    WholeWeeks(DayNumber(d));
    KnownMonday();
  }

  lemma WholeWeeks(n: int)
    ensures (n + 146_097) % 7 == n % 7
  {
  }

  lemma KnownMonday()
    ensures Weekday(Date(2024, 1, 1)) == 0
  {
  }

  lemma YearCycle(y: int)
    ensures DaysBeforeYear(y + 400) == DaysBeforeYear(y) + 146_097 && IsLeap(y + 400) == IsLeap(y)
  {
    Quarters(y - 1);
    Quarters(y);
  }

  lemma Quarters(n: int)
    ensures (n + 400) / 4 == n / 4 + 100 && (n + 400) / 100 == n / 100 + 4 && (n + 400) / 400 == n / 400 + 1
    ensures (n + 400) % 4 == n % 4 && (n + 400) % 100 == n % 100 && (n + 400) % 400 == n % 400
  {
  }

  lemma {:induction false} SameMonths(y: int, z: int, m: int)
    requires IsLeap(y) == IsLeap(z)
    ensures DaysBeforeMonth(y, m) == DaysBeforeMonth(z, m) && DaysInMonth(y, m) == DaysInMonth(z, m)
    decreases m
  {
    if m > 1 { SameMonths(y, z, m - 1); }
  }

  /** Which years have a 29th of February. */
  lemma LeapDay(y: int)
    requires 1 <= y <= MAX_YEAR
    ensures Valid(Date(y, 2, 29)) <==> DayNumber(Date(y + 1, 1, 1)) - DayNumber(Date(y, 1, 1)) == 366
    ensures Valid(Date(y, 2, 29)) <==> y % 4 == 0 && (y % 100 == 0 ==> y % 400 == 0)
  {
    YearLength(y);
  }

  /* ---------- presets ---------- */

  type Span = (Date, Date)

  /** None where Python raises OverflowError. */
  function WeekPreset(today: Date): Option<Span> {
    var start := AddDays(today, -Weekday(today));
    if start.None? then None
    else
      var end := AddDays(start.value, 6);
      if end.None? then None else Some((start.value, end.value))
  }

  function MonthPreset(today: Date): Option<Span> {
    var start := today.(day := 1);
    var beyond := AddDays(start.(day := 28), 4);
    if beyond.None? then None
    else
      var end := AddDays(beyond.value.(day := 1), -1);
      if end.None? then None else Some((start, end.value))
  }

  /** The week preset is the Monday-to-Sunday week around the day; it fails only in the last week of
      the calendar, which has no Sunday. */
  lemma WeekPresetIsWeek(today: Date)
    requires Valid(today)
    ensures var w := WeekPreset(today);
      && (w.Some? <==> DayNumber(today) - Weekday(today) + 6 <= MAX_DAY)
      && (w.Some? ==>
            var (start, end) := w.value;
            && Valid(start) && Valid(end)
            && Weekday(start) == 0 && Weekday(end) == 6 && DayNumber(end) == DayNumber(start) + 6
            && NotAfter(start, today) && NotAfter(today, end))
  {
    hide DayNumber, Civil, Before, Proper;
    CivilInverse(today);
    InRange(today);
    AddDaysIs(today, -Weekday(today));
    var start := AddDays(today, -Weekday(today)).value;
    AddDaysIs(start, 6);
    DayNumberOrder(start, today);
    if AddDays(start, 6).Some? {
      DayNumberOrder(today, AddDays(start, 6).value);
    }
  }

  function FirstOfNext(d: Date): Date {
    if d.month < 12 then Date(d.year, d.month + 1, 1) else Date(d.year + 1, 1, 1)
  }

  lemma MonthEndNumber(d: Date)
    requires Proper(d)
    ensures var last := Date(d.year, d.month, DaysInMonth(d.year, d.month));
      Proper(last) && Proper(FirstOfNext(d)) && DayNumber(last) + 1 == DayNumber(FirstOfNext(d))
  {
    var last := Date(d.year, d.month, DaysInMonth(d.year, d.month));
    NextDayNumber(last);
    assert NextDay(last) == FirstOfNext(d);
  }

  /** The month preset ends on the true last day, for every month length and in December; it fails only
      in the last month of the calendar. */
  lemma MonthPresetIsMonth(today: Date)
    requires Valid(today)
    ensures MonthPreset(today) ==
      if today.year == MAX_YEAR && today.month == 12 then None
      else Some((Date(today.year, today.month, 1), Date(today.year, today.month, DaysInMonth(today.year, today.month))))
  {
    var dim := DaysInMonth(today.year, today.month);
    var d28, last, next := Date(today.year, today.month, 28), Date(today.year, today.month, dim), FirstOfNext(today);
    MonthEndNumber(today);
    var target := next.(day := 32 - dim);
    assert Proper(target) && Proper(last);
    assert today.(day := 1).(day := 28) == d28 && target.(day := 1) == next;
    assert DayNumber(target) == DayNumber(d28) + 4 by {
      assert DayNumber(target) == DayNumber(next) + 31 - dim && DayNumber(last) == DayNumber(d28) + dim - 28;
    }
    assert target.year <= MAX_YEAR <==> !(today.year == MAX_YEAR && today.month == 12);
    hide DayNumber, Civil, DaysInMonth;
    AddDaysTo(d28, 4, target);
    AddDaysTo(next, -1, last);
  }

  lemma AddDaysTo(d: Date, k: int, target: Date)
    requires Proper(target) && DayNumber(target) == DayNumber(d) + k
    ensures AddDays(d, k) == if target.year <= MAX_YEAR then Some(target) else None
  {
    CivilInverse(target);
    InRange(target);
  }

  /** _period_starts */
  function MonthStart(today: Date): Date { today.(day := 1) }
  function QuarterStart(today: Date): Date { Date(today.year, 3 * ((today.month - 1) / 3) + 1, 1) }
  function YearStart(today: Date): Date { Date(today.year, 1, 1) }

  predicate StartsQuarter(d: Date) {
    d.day == 1 && (d.month == 1 || d.month == 4 || d.month == 7 || d.month == 10)
  }

  /** The three starts are ordered, not after the day, and each is the latest start of its kind. */
  lemma PeriodStartsAreLatest(today: Date, other: Date)
    requires Valid(today) && Valid(other) && NotAfter(other, today)
    ensures var m, q, y := MonthStart(today), QuarterStart(today), YearStart(today);
      && Valid(m) && Valid(q) && Valid(y)
      && NotAfter(y, q) && NotAfter(q, m) && NotAfter(m, today)
      && m.day == 1 && StartsQuarter(q) && y.month == 1 && y.day == 1
      && (other.day == 1 ==> NotAfter(other, m))
      && (StartsQuarter(other) ==> NotAfter(other, q))
      && (other.day == 1 && other.month == 1 ==> NotAfter(other, y))
  {
    assert today.month == 3 * ((today.month - 1) / 3) + 1 + (today.month - 1) % 3;
  }

  /* ---------- _resolve_period ---------- */

  /** A query parameter: blank after strip, not an ISO date, or a date. */
  datatype Raw = Blank | Bad | Day(date: Date)

  datatype Preset = Today | Week | Month

  datatype PeriodError = InvalidDate | InvertedRange

  /** The period the two parameters ask for, or why they ask for none. */
  function Requested(from: Raw, to: Raw, today: Date): Result<Span, PeriodError> {
    if from.Blank? && to.Blank? then Ok((today, today))
    else if !from.Day? || !to.Day? then Err(InvalidDate)
    else if Before(to.date, from.date) then Err(InvertedRange)
    else Ok((from.date, to.date))
  }

  /** A preset click and typed dates share one path; a bad or inverted range falls back to today, so no
      inverted range ever reaches a query. `raises` is the overflow of a preset at the year limit. */
  method ResolvePeriod(from: Raw, to: Raw, today: Date)
    returns (raises: bool, span: Span, active: Option<Preset>, error: Option<PeriodError>)
    requires Valid(today)
    ensures raises <==> DayNumber(today) - Weekday(today) + 6 > MAX_DAY || (today.year == MAX_YEAR && today.month == 12)
    ensures !raises ==>
      && NotAfter(span.0, span.1)
      && (match Requested(from, to, today)
          case Ok(s) => span == s && error.None?
          case Err(e) => span == (today, today) && error == Some(e))
      && (from.Blank? && to.Blank? ==> span == (today, today) && error.None?)
      && (from.Blank? != to.Blank? || from.Bad? || to.Bad? ==> span == (today, today) && error == Some(InvalidDate))
      && (from.Day? && to.Day? && NotAfter(from.date, to.date) ==> span == (from.date, to.date) && error.None?)
      && (from.Day? && to.Day? && Before(to.date, from.date) ==> span == (today, today) && error == Some(InvertedRange))
      && (active == Some(Today) <==> span == (today, today))
      && (active == Some(Week) <==> Some(span) == WeekPreset(today) && span != (today, today))
      && (active == Some(Month) <==> Some(span) == MonthPreset(today)
                                     && span != (today, today) && Some(span) != WeekPreset(today))
  {
    hide WeekPreset, MonthPreset, DayNumber, DaysInMonth, Proper;
    WeekPresetIsWeek(today);
    MonthPresetIsMonth(today);
    var week, month := WeekPreset(today), MonthPreset(today);
    raises, span, active, error := week.None? || month.None?, (today, today), None, None;
    if raises {
      return;
    }
    if !(from.Blank? && to.Blank?) {
      if !from.Day? || !to.Day? {
        error := Some(InvalidDate);
      } else {
        span := (from.date, to.date);
        if Before(to.date, from.date) {
          error, span := Some(InvertedRange), (today, today);
        }
      }
    }
    var presets := [(Today, (today, today)), (Week, week.value), (Month, month.value)];
    var i := 0;
    while i < |presets|
      invariant 0 <= i <= |presets| == 3
      invariant active.None?
      invariant i > 0 ==> span != (today, today)
      invariant i > 1 ==> span != week.value
      invariant i > 2 ==> span != month.value
    {
      if span == presets[i].1 {
        active := Some(presets[i].0);
        break;
      }
      i := i + 1;
    }
  }
}
