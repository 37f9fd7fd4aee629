/** alembic/versions/0027: the two ledgers get a business date and a reversal link. Columns first, then
    the dates of the stored rows, then the guards; downgrading goes back in the mirrored order. */
module Migration {
  import opened Base
  import opened Text
  import Calendar
  import opened IsoText
  import opened Ledger

  const DATE := "business_date"
  const CREATED := "created_at"

  /** Europe/Moscow as a fixed offset, in seconds. */
  const OFFSET := 10_800

  function Prefix(s: string, n: nat): string {
    if |s| <= n then s else s[..n]
  }

  /** _local_business_date. `parse` gives the UTC second a timestamp denotes, naive ones read as UTC, or
      None where fromisoformat raises; the result is None where astimezone overflows the calendar. */
  function LocalBusinessDate(createdAt: string, parse: string -> Option<int>): Option<string> {
    match parse(createdAt)
    case None => Some(Prefix(createdAt, 10))
    case Some(t) =>
      if 0 <= t < END_SECONDS && t + OFFSET < END_SECONDS then
        DayIsValid(t + OFFSET);
        Some(IsoDate(Day(t + OFFSET)))
      else None
  }

  /** The rows that the backfill selects and does not skip. */
  predicate NeedsDate(row: Row) {
    DATE in row && CREATED in row && row[DATE].None? && row[CREATED].Some? && row[CREATED].value != ""
  }

  function Dated(row: Row, parse: string -> Option<int>): Row {
    if NeedsDate(row) then row[DATE := LocalBusinessDate(row[CREATED].value, parse)] else row
  }

  ghost predicate AllComputable(rows: seq<Row>, parse: string -> Option<int>) {
    forall i | 0 <= i < |rows| :: NeedsDate(rows[i]) ==> LocalBusinessDate(rows[i][CREATED].value, parse).Some?
  }

  function DatedRows(rows: seq<Row>, parse: string -> Option<int>): seq<Row> {
    seq(|rows|, i requires 0 <= i < |rows| => Dated(rows[i], parse))
  }

  function WithColumn(t: Table, c: string): Table {
    Table(t.columns + {c}, t.guarded, seq(|t.rows|, i requires 0 <= i < |t.rows| => t.rows[i][c := None]))
  }

  function WithoutColumn(t: Table, c: string): Table {
    Table(t.columns - {c}, t.guarded, seq(|t.rows|, i requires 0 <= i < |t.rows| => t.rows[i] - {c}))
  }

  function Backfilled(t: Table, parse: string -> Option<int>): Table {
    t.(rows := DatedRows(t.rows, parse))
  }

  /* ---------- the steps ---------- */

  /** op.add_column: a nullable column, NULL in every row. */
  method AddColumn(t: LedgerTable, c: string)
    modifies t
    ensures t.Contents() == WithColumn(old(t.Contents()), c)
  {
    var rows := t.rows;
    t.columns := t.columns + {c};
    t.rows := seq(|rows|, i requires 0 <= i < |rows| => rows[i][c := None]);
  }

  /** op.drop_column: refused while a trigger still names the column. */
  method DropColumn(t: LedgerTable, c: string) returns (ok: bool)
    modifies t
    ensures ok <==> c !in old(t.guarded)
    ensures t.Contents() == if ok then WithoutColumn(old(t.Contents()), c) else old(t.Contents())
  {
    if c in t.guarded {
      return false;
    }
    var rows := t.rows;
    t.columns := t.columns - {c};
    t.rows := seq(|rows|, i requires 0 <= i < |rows| => rows[i] - {c});
    return true;
  }

  method InstallGuard(t: LedgerTable, guard: set<string>)
    modifies t`guarded
    ensures t.Contents() == old(t.Contents()).(guarded := guard)
  {
    t.guarded := guard;
  }

  /** What the backfill writes into a row; None where it writes nothing. */
  function DateFor(row: Row, parse: string -> Option<int>): Option<string> {
    if NeedsDate(row) then LocalBusinessDate(row[CREATED].value, parse) else None
  }

  /** The parameter list; a date that cannot be computed raises before anything is written. */
  method ComputeDates(rows: seq<Row>, parse: string -> Option<int>) returns (dates: Option<seq<Option<string>>>)
    ensures dates.Some? <==> AllComputable(rows, parse)
    ensures dates.Some? ==> dates.value == seq(|rows|, i requires 0 <= i < |rows| => DateFor(rows[i], parse))
  {
    hide LocalBusinessDate;
    var computed: seq<Option<string>> := [];
    var i := 0;
    while i < |rows|
      invariant 0 <= i <= |rows| && |computed| == i
      invariant forall j | 0 <= j < i :: computed[j] == DateFor(rows[j], parse) && (NeedsDate(rows[j]) ==> computed[j].Some?)
    {
      var date := DateFor(rows[i], parse);
      if NeedsDate(rows[i]) && date.None? {
        return None;
      }
      computed := computed + [date];
      i := i + 1;
    }
    return Some(computed);
  }

  /** One UPDATE per computed date. */
  method WriteDates(t: LedgerTable, dates: seq<Option<string>>) returns (ok: bool)
    requires WellFormed(t.Contents()) && |dates| == |t.rows|
    requires forall i | 0 <= i < |dates| :: dates[i].Some? ==> NeedsDate(t.rows[i])
    modifies t`rows
    ensures ok <==> (Guarding(t.guarded, t.columns) ==> forall i | 0 <= i < |dates| :: dates[i].None?)
    ensures ok ==> t.rows == Written(old(t.rows), dates, |dates|)
  {
    ghost var before := t.rows;
    DatesFit(before, dates);
    WrittenStart(before, dates);
    hide NeedsDate, Written;
    var i := 0;
    while i < |dates|
      invariant 0 <= i <= |dates| == |before|
      invariant t.rows == Written(before, dates, i) && WellFormed(t.Contents())
      invariant Guarding(t.guarded, t.columns) ==> forall j | 0 <= j < i :: dates[j].None?
    {
      WrittenStep(before, dates, i);
      if dates[i].Some? {
        ok := WriteDate(t, i, dates[i]);
        if !ok {
          return false;
        }
      }
      i := i + 1;
    }
    return true;
  }

  predicate CanTake(row: Row, date: Cell) {
    DATE in row && row[DATE] != date
  }

  lemma DatesFit(rows: seq<Row>, dates: seq<Option<string>>)
    requires |dates| == |rows| && forall i | 0 <= i < |dates| :: dates[i].Some? ==> NeedsDate(rows[i])
    ensures forall i | 0 <= i < |dates| :: dates[i].Some? ==> CanTake(rows[i], dates[i])
  {
  }

  /** The rows with the first `n` dates in place. */
  function Written(rows: seq<Row>, dates: seq<Option<string>>, n: nat): (written: seq<Row>)
    requires |dates| == |rows|
    ensures |written| == |rows|
  {
    seq(|rows|, i requires 0 <= i < |rows| => if i < n && dates[i].Some? then rows[i][DATE := dates[i]] else rows[i])
  }

  lemma WrittenStart(rows: seq<Row>, dates: seq<Option<string>>)
    requires |dates| == |rows|
    ensures Written(rows, dates, 0) == rows
  {
  }

  lemma WrittenStep(rows: seq<Row>, dates: seq<Option<string>>, n: nat)
    requires |dates| == |rows| && n < |rows|
    ensures var written := Written(rows, dates, n);
      && written[n] == rows[n]
      && Written(rows, dates, n + 1) == if dates[n].Some? then written[n := written[n][DATE := dates[n]]] else written
  {
  }

  /** Compute every date, then write them; the writes pass whatever guard is installed. */
  method Backfill(t: LedgerTable, parse: string -> Option<int>) returns (ok: bool)
    requires WellFormed(t.Contents())
    modifies t`rows
    ensures ok <==> AllComputable(old(t.rows), parse)
                    && (Guarding(t.guarded, t.columns) ==> forall i | 0 <= i < |old(t.rows)| :: !NeedsDate(old(t.rows)[i]))
    ensures ok ==> t.Contents() == Backfilled(old(t.Contents()), parse)
  {
    hide LocalBusinessDate, NeedsDate;
    var dates := ComputeDates(t.rows, parse);
    if dates.None? {
      return false;
    }
    ghost var before := t.rows;
    assert forall i | 0 <= i < |before| :: dates.value[i].Some? <==> NeedsDate(before[i]);
    ok := WriteDates(t, dates.value);
    assert Written(before, dates.value, |before|) == DatedRows(before, parse);
  }

  /** Writing the date column trips the guard: it names that column, or one the table lacks. */
  ghost predicate Guarding(guarded: set<string>, columns: set<string>) {
    DATE in guarded || !(guarded <= columns)
  }

  /** UPDATE … SET business_date = :bd WHERE id = :id */
  method WriteDate(t: LedgerTable, i: nat, date: Cell) returns (ok: bool)
    requires WellFormed(t.Contents()) && i < |t.rows| && CanTake(t.rows[i], date)
    modifies t`rows
    ensures ok <==> !Guarding(t.guarded, t.columns)
    ensures t.rows == if ok then old(t.rows)[i := old(t.rows)[i][DATE := date]] else old(t.rows)
  {
    var row, n := t.rows[i][DATE := date], |t.rows|;
    var change := seq(n, j requires 0 <= j < n => if j == i then Some(row) else None);
    GuardMeaning(t.guarded, t.columns, t.rows[i], date);
    ok := t.UpdateRows(change);
  }

  lemma GuardMeaning(guarded: set<string>, columns: set<string>, row: Row, date: Cell)
    requires row.Keys == columns && DATE in row && row[DATE] != date
    ensures Fires(guarded, row, row[DATE := date]) <==> Guarding(guarded, columns)
  {
    var now := row[DATE := date];
    if Guarding(guarded, columns) {
      var c :| c in guarded && (c == DATE || c !in columns);
      assert c !in row || c !in now || row[c] != now[c];
    }
  }

  /* ---------- the two directions ---------- */

  const OPERATION_LINK := "reverses_op_id"
  const CASH_LINK := "reverses_movement_id"

  function Widened(t: Table, reversal: string): Table {
    WithColumn(WithColumn(t, DATE), reversal)
  }

  function Upgraded(t: Table, reversal: string, guard: set<string>, parse: string -> Option<int>): Table {
    Backfilled(Widened(t, reversal), parse).(guarded := guard)
  }

  function Downgraded(t: Table, reversal: string, guard: set<string>): Table {
    WithoutColumn(WithoutColumn(t.(guarded := guard), reversal), DATE)
  }

  /** A ledger table as revision 0026 leaves it, given its columns and guard at 0027. */
  ghost predicate Before(t: Table, columns: set<string>, guard: set<string>, reversal: string) {
    && WellFormed(t)
    && t.columns == columns - {DATE, reversal} && t.guarded == guard - {DATE, reversal}
    && guard <= columns && DATE in guard && reversal in guard && CREATED in t.columns
  }

  /** What the backfill's outcome depends on, read off the old row: a non-empty created_at. */
  predicate HasTimestamp(row: Row) {
    CREATED in row && row[CREATED].Some? && row[CREATED].value != ""
  }

  /** No timestamp that parses lies so close to an end of the calendar that its local time leaves it. */
  ghost predicate AllDatable(t: Table, parse: string -> Option<int>) {
    forall i | 0 <= i < |t.rows| :: HasTimestamp(t.rows[i]) ==> LocalBusinessDate(t.rows[i][CREATED].value, parse).Some?
  }

  lemma ColumnNames()
    ensures DATE in OPERATION_GUARD && OPERATION_LINK in OPERATION_GUARD && CREATED in OPERATION_COLUMNS - {DATE, OPERATION_LINK}
    ensures DATE in CASH_GUARD && CASH_LINK in CASH_GUARD && CREATED in CASH_COLUMNS - {DATE, CASH_LINK}
    ensures OPERATION_GUARD <= OPERATION_COLUMNS && CASH_GUARD <= CASH_COLUMNS
  {
    assert |DATE| == 13 && |CREATED| == 10 && |OPERATION_LINK| == 14 && |CASH_LINK| == 20;
  }

  /** Both ledgers as revision 0026 defines them are what the two directions start from, whatever rows they hold. */
  lemma Revision0026(operations: seq<Row>, cash: seq<Row>)
    requires forall i | 0 <= i < |operations| :: operations[i].Keys == OPERATION_COLUMNS - {DATE, OPERATION_LINK}
    requires forall i | 0 <= i < |cash| :: cash[i].Keys == CASH_COLUMNS - {DATE, CASH_LINK}
    ensures Before(Table(OPERATION_COLUMNS - {DATE, OPERATION_LINK}, OPERATION_GUARD - {DATE, OPERATION_LINK}, operations),
                   OPERATION_COLUMNS, OPERATION_GUARD, OPERATION_LINK)
    ensures Before(Table(CASH_COLUMNS - {DATE, CASH_LINK}, CASH_GUARD - {DATE, CASH_LINK}, cash),
                   CASH_COLUMNS, CASH_GUARD, CASH_LINK)
  {
    ColumnNames();
  }

  lemma WidenedRows(t: Table, reversal: string)
    requires WellFormed(t) && DATE !in t.columns && reversal !in t.columns && reversal != DATE && CREATED in t.columns
    ensures var w := Widened(t, reversal);
      WellFormed(w) && |w.rows| == |t.rows| && w.columns == t.columns + {DATE, reversal}
      && forall i | 0 <= i < |t.rows| ::
        && w.rows[i] == t.rows[i][DATE := None][reversal := None]
        && (NeedsDate(w.rows[i]) <==> HasTimestamp(t.rows[i]))
        && w.rows[i][CREATED] == t.rows[i][CREATED]
  {
  }

  /** One table's share of the first two steps. */
  method Prepare(t: LedgerTable, reversal: string)
    requires WellFormed(t.Contents()) && DATE !in t.columns && reversal !in t.columns && reversal != DATE && CREATED in t.columns
    modifies t
    ensures t.Contents() == Widened(old(t.Contents()), reversal) && WellFormed(t.Contents())
    ensures forall i | 0 <= i < |old(t.rows)| ::
      NeedsDate(t.rows[i]) <==> HasTimestamp(old(t.rows)[i])
    ensures forall parse :: AllComputable(t.rows, parse) <==> AllDatable(old(t.Contents()), parse)
  {
    ghost var before := t.Contents();
    AddColumn(t, DATE);
    AddColumn(t, reversal);
    WidenedRows(before, reversal);
    hide NeedsDate, HasTimestamp, LocalBusinessDate;
  }

  /** upgrade: it aborts exactly when some timestamp's local date cannot be computed. */
  method Upgrade(operations: LedgerTable, cash: LedgerTable, parse: string -> Option<int>) returns (ok: bool)
    requires operations != cash
    requires Before(operations.Contents(), OPERATION_COLUMNS, OPERATION_GUARD, OPERATION_LINK)
    requires Before(cash.Contents(), CASH_COLUMNS, CASH_GUARD, CASH_LINK)
    modifies operations, cash
    ensures ok <==> AllDatable(old(operations.Contents()), parse) && AllDatable(old(cash.Contents()), parse)
    ensures ok ==>
      && operations.Contents() == Upgraded(old(operations.Contents()), OPERATION_LINK, OPERATION_GUARD, parse)
      && cash.Contents() == Upgraded(old(cash.Contents()), CASH_LINK, CASH_GUARD, parse)
  {
    hide NeedsDate, HasTimestamp, LocalBusinessDate, AllDatable, AllComputable;
    Prepare(operations, OPERATION_LINK);
    Prepare(cash, CASH_LINK);
    ok := Backfill(operations, parse);
    if ok {
      ok := Backfill(cash, parse);
    }
    if ok {
      InstallGuard(operations, OPERATION_GUARD);
      InstallGuard(cash, CASH_GUARD);
    }
  }

  /** The order the migration warns against: with the guards first, any row to date aborts the backfill. */
  method UpgradeGuardsFirst(operations: LedgerTable, cash: LedgerTable, parse: string -> Option<int>) returns (ok: bool)
    requires operations != cash
    requires Before(operations.Contents(), OPERATION_COLUMNS, OPERATION_GUARD, OPERATION_LINK)
    requires Before(cash.Contents(), CASH_COLUMNS, CASH_GUARD, CASH_LINK)
    modifies operations, cash
    ensures ok <==> (forall i | 0 <= i < |old(operations.rows)| :: !HasTimestamp(old(operations.rows)[i]))
                    && forall i | 0 <= i < |old(cash.rows)| :: !HasTimestamp(old(cash.rows)[i])
  {
    hide NeedsDate, HasTimestamp, LocalBusinessDate;
    Prepare(operations, OPERATION_LINK);
    Prepare(cash, CASH_LINK);
    InstallGuard(operations, OPERATION_GUARD);
    InstallGuard(cash, CASH_GUARD);
    ok := Backfill(operations, parse);
    if ok {
      ok := Backfill(cash, parse);
    }
  }

  /** downgrade: the old guards first, then the columns they no longer name. */
  method Downgrade(operations: LedgerTable, cash: LedgerTable) returns (ok: bool)
    requires operations != cash
    modifies operations, cash
    ensures ok
    ensures operations.Contents() == Downgraded(old(operations.Contents()), OPERATION_LINK, OPERATION_GUARD - {DATE, OPERATION_LINK})
    ensures cash.Contents() == Downgraded(old(cash.Contents()), CASH_LINK, CASH_GUARD - {DATE, CASH_LINK})
  {
    InstallGuard(operations, OPERATION_GUARD - {DATE, OPERATION_LINK});
    InstallGuard(cash, CASH_GUARD - {DATE, CASH_LINK});
    ok := DropColumn(cash, CASH_LINK);
    ok := DropColumn(cash, DATE);
    ok := DropColumn(operations, OPERATION_LINK);
    ok := DropColumn(operations, DATE);
  }

  /* ---------- what the migration promises ---------- */

  /** Every row keeps its old columns; it is dated exactly when its created_at is non-empty. */
  lemma UpgradeDatesEveryRow(t: Table, columns: set<string>, guard: set<string>, reversal: string, parse: string -> Option<int>, i: nat)
    requires Before(t, columns, guard, reversal) && AllDatable(t, parse) && reversal != DATE && i < |t.rows|
    ensures var now := Upgraded(t, reversal, guard, parse);
      && WellFormed(now) && now.columns == columns && now.guarded == guard && |now.rows| == |t.rows|
      && (forall c | c in t.columns :: now.rows[i][c] == t.rows[i][c])
      && now.rows[i][reversal] == None
      && (now.rows[i][DATE].Some? <==> HasTimestamp(t.rows[i]))
      && (HasTimestamp(t.rows[i]) ==> now.rows[i][DATE] == LocalBusinessDate(t.rows[i][CREATED].value, parse))
  {
    hide LocalBusinessDate;
    WidenedRows(t, reversal);
  }

  /** Downgrading after upgrading gives back the old table. */
  lemma DowngradeUndoesUpgrade(t: Table, columns: set<string>, guard: set<string>, reversal: string, parse: string -> Option<int>)
    requires Before(t, columns, guard, reversal) && reversal != DATE
    ensures Downgraded(Upgraded(t, reversal, guard, parse), reversal, guard - {DATE, reversal}) == t
  {
    hide LocalBusinessDate;
    WidenedRows(t, reversal);
    var now := Upgraded(t, reversal, guard, parse);
    var back := Downgraded(now, reversal, guard - {DATE, reversal});
    forall i | 0 <= i < |t.rows| ensures back.rows[i] == t.rows[i] {
      assert now.rows[i] - {reversal} - {DATE} == t.rows[i];
    }
    assert back.columns == t.columns;
    assert back.rows == t.rows;
  }

  /** Once dated, a row keeps its date and all its old columns whatever is attempted afterwards. */
  lemma DatesArePermanent(t: Table, columns: set<string>, guard: set<string>, reversal: string, parse: string -> Option<int>,
                          statements: seq<Statement>, i: nat)
    requires Before(t, columns, guard, reversal) && AllDatable(t, parse) && reversal != DATE && i < |t.rows|
    ensures var now := Run(Upgraded(t, reversal, guard, parse), statements);
      && i < |now.rows| && DATE in now.rows[i]
      && (HasTimestamp(t.rows[i]) ==> now.rows[i][DATE] == LocalBusinessDate(t.rows[i][CREATED].value, parse))
      && forall c | c in t.guarded && c in t.columns :: c in now.rows[i] && now.rows[i][c] == t.rows[i][c]
  {
    hide LocalBusinessDate, Run;
    UpgradeDatesEveryRow(t, columns, guard, reversal, parse, i);
    hide Upgraded;
    LedgerIsAppendOnly(Upgraded(t, reversal, guard, parse), statements, i);
  }

  /** A timestamp that parses is dated by the Moscow day: from 21:00 UTC on it is the next one. One that does
      not parse keeps its first ten characters. */
  lemma MoscowDay(createdAt: string, parse: string -> Option<int>, t: nat)
    requires parse(createdAt) == Some(t) && t < END_SECONDS - OFFSET
    ensures var day := t / 86_400 + (if t % 86_400 >= 75_600 then 1 else 0);
      var d := Calendar.Civil(day);
      Calendar.Valid(d) && Calendar.DayNumber(d) == day && LocalBusinessDate(createdAt, parse) == Some(IsoDate(d))
  {
    hide LocalBusinessDate, IsoDate, Calendar.Civil, Calendar.DayNumber, Calendar.Valid;
    NextDayFrom(t);
    DatedOn(createdAt, parse, t, t / 86_400 + (if t % 86_400 >= 75_600 then 1 else 0));
  }

  lemma DatedOn(createdAt: string, parse: string -> Option<int>, t: nat, day: nat)
    requires parse(createdAt) == Some(t) && t < END_SECONDS - OFFSET && day == (t + OFFSET) / DAY_SECONDS
    ensures var d := Calendar.Civil(day);
      Calendar.Valid(d) && Calendar.DayNumber(d) == day && LocalBusinessDate(createdAt, parse) == Some(IsoDate(d))
  {
    hide IsoDate, Calendar.Civil, Calendar.DayNumber, Calendar.Valid;
    DayIsValid(t + OFFSET);
  }

  lemma NextDayFrom(t: nat)
    ensures (t + OFFSET) / DAY_SECONDS == t / 86_400 + (if t % 86_400 >= 75_600 then 1 else 0)
  {
  }

  lemma UnreadablePrefix(createdAt: string, parse: string -> Option<int>)
    requires parse(createdAt).None?
    ensures var date := LocalBusinessDate(createdAt, parse);
      date.Some? && date.value <= createdAt && |date.value| == Min(10, |createdAt|)
  {
  }

  /** For a row stamped by the application, the closed filter on its new date selects exactly what the
      half-open filter on its timestamp selects. */
  lemma DateFilterAgreesWithTimestamp(t: nat, parse: string -> Option<int>, start: Calendar.Date, end: Calendar.Date)
    requires t < END_SECONDS && parse(IsoMoment(t)) == Some(t)
    requires Calendar.Valid(start) && Calendar.Valid(end)
    ensures var date, bounds := LocalBusinessDate(IsoMoment(t), parse), LocalDayBoundsUtc(start, end, OFFSET);
      date.Some? && bounds.Some? ==>
        (AtMost(IsoDate(start), date.value) && AtMost(date.value, IsoDate(end))
         <==> AtMost(bounds.value.0, IsoMoment(t)) && Less(IsoMoment(t), bounds.value.1))
  {
    hide IsoMoment, LocalDayBoundsUtc, IsoDate, AtMost, Less, Calendar.DayNumber, Calendar.Civil, Calendar.Valid;
    LocalDayFilter(start, end, OFFSET, t);
    if t + OFFSET < END_SECONDS {
      DayIsValid(t + OFFSET);
      BusinessDateFilter(start, end, IsoText.Day(t + OFFSET));
    }
  }

  /** The migration is not total: 9999-12-31T23:30:00+00:00 parses, and its local date does not exist. */
  lemma LastEveningOverflows(createdAt: string, parse: string -> Option<int>)
    requires parse(createdAt) == Some(END_SECONDS - 1800)
    ensures LocalBusinessDate(createdAt, parse).None?
  {
  }
}
