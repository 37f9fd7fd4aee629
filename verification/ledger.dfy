/** app/db.py: the append-only ledger tables. A trigger compares the columns it enumerates, before every
    row update, by value; before a row delete it always refuses. */
module Ledger {
  import opened Base

  /** A stored value; None is NULL, and IS NOT compares NULLs like any other value. */
  type Cell = Option<string>

  type Row = map<string, Cell>

  datatype Table = Table(columns: set<string>, guarded: set<string>, rows: seq<Row>)

  ghost predicate WellFormed(t: Table) {
    forall i | 0 <= i < |t.rows| :: t.rows[i].Keys == t.columns
  }

  /** The trigger's WHEN clause; a guard that names a missing column cannot be evaluated. */
  predicate Fires(guarded: set<string>, was: Row, now: Row) {
    exists c | c in guarded :: c !in was || c !in now || was[c] != now[c]
  }

  /** A statement that the schema admits: `change` holds the new version of every row that matched. */
  datatype Statement = Insert(row: Row) | Update(change: seq<Option<Row>>) | Delete(matched: seq<bool>)

  ghost predicate Fitting(t: Table, s: Statement) {
    match s
    case Insert(row) => row.Keys == t.columns
    case Update(change) => |change| == |t.rows| && forall i | 0 <= i < |change| :: change[i].Some? ==> change[i].value.Keys == t.columns
    case Delete(matched) => |matched| == |t.rows|
  }

  ghost predicate Aborts(t: Table, s: Statement)
    requires Fitting(t, s)
  {
    match s
    case Insert(_) => false
    case Update(change) => exists i | 0 <= i < |change| :: change[i].Some? && Fires(t.guarded, t.rows[i], change[i].value)
    case Delete(matched) => true in matched
  }

  function Changed(rows: seq<Row>, change: seq<Option<Row>>): seq<Row>
    requires |change| == |rows|
  {
    ChangedBelow(rows, change, |rows|)
  }

  /** The rows with the first `n` changes made. */
  function ChangedBelow(rows: seq<Row>, change: seq<Option<Row>>, n: nat): (changed: seq<Row>)
    requires |change| == |rows|
    ensures |changed| == |rows|
  {
    seq(|rows|, i requires 0 <= i < |rows| => if i < n && change[i].Some? then change[i].value else rows[i])
  }

  lemma ChangedNext(rows: seq<Row>, change: seq<Option<Row>>, n: nat)
    requires |change| == |rows| && n < |rows|
    ensures var changed := ChangedBelow(rows, change, n);
      && changed[n] == rows[n]
      && ChangedBelow(rows, change, n + 1) == if change[n].Some? then changed[n := change[n].value] else changed
  {
  }

  /** The rows that a delete does not match. */
  function Remaining(rows: seq<Row>, matched: seq<bool>): seq<Row>
    requires |matched| == |rows|
  {
    if rows == [] then []
    else
      var n := |rows| - 1;
      Remaining(rows[..n], matched[..n]) + (if matched[n] then [] else [rows[n]])
  }

  lemma {:induction false} NoneMatched(rows: seq<Row>, matched: seq<bool>)
    requires |matched| == |rows| && true !in matched
    ensures Remaining(rows, matched) == rows
  {
    if rows != [] {
      var n := |rows| - 1;
      NoneMatched(rows[..n], matched[..n]);
      assert matched[n] in matched;
      assert rows == rows[..n] + [rows[n]];
    }
  }

  /** An aborted statement is backed out. */
  ghost function Attempt(t: Table, s: Statement): Table {
    if !Fitting(t, s) || Aborts(t, s) then t
    else
      match s
      case Insert(row) => t.(rows := t.rows + [row])
      case Update(change) => t.(rows := Changed(t.rows, change))
      case Delete(matched) => t.(rows := Remaining(t.rows, matched))
  }

  ghost function Run(t: Table, statements: seq<Statement>): Table {
    if statements == [] then t
    else Attempt(Run(t, statements[..|statements| - 1]), statements[|statements| - 1])
  }

  class LedgerTable {
    var columns: set<string>
    var guarded: set<string>
    var rows: seq<Row>

    ghost function Contents(): Table
      reads this
    {
      Table(columns, guarded, rows)
    }

    constructor (columns: set<string>, guarded: set<string>)
      ensures Contents() == Table(columns, guarded, [])
    {
      this.columns, this.guarded, rows := columns, guarded, [];
    }

    /** INSERT has no trigger. */
    method InsertRow(row: Row)
      requires Fitting(Contents(), Insert(row))
      modifies this`rows
      ensures Contents() == Attempt(old(Contents()), Insert(row))
    {
      rows := rows + [row];
    }

    /** BEFORE UPDATE … FOR EACH ROW: the first offending row aborts and backs out the statement. */
    method UpdateRows(change: seq<Option<Row>>) returns (ok: bool)
      requires Fitting(Contents(), Update(change))
      modifies this`rows
      ensures ok <==> !Aborts(old(Contents()), Update(change))
      ensures Contents() == Attempt(old(Contents()), Update(change))
    {
      var before := rows;
      assert rows == ChangedBelow(before, change, 0);
      hide Fires, ChangedBelow;
      var i := 0;
      while i < |before|
        invariant 0 <= i <= |before|
        invariant forall j | 0 <= j < i :: change[j].Some? ==> !Fires(guarded, before[j], change[j].value)
        invariant rows == ChangedBelow(before, change, i)
      {
        ChangedNext(before, change, i);
        if change[i].Some? {
          if Fires(guarded, rows[i], change[i].value) {
            rows := before;
            return false;
          }
          rows := rows[i := change[i].value];
        }
        i := i + 1;
      }
      return true;
    }

    /** BEFORE DELETE: any matched row aborts the statement. */
    method DeleteRows(matched: seq<bool>) returns (ok: bool)
      requires Fitting(Contents(), Delete(matched))
      modifies this`rows
      ensures ok <==> !Aborts(old(Contents()), Delete(matched))
      ensures Contents() == Attempt(old(Contents()), Delete(matched))
    {
      if true in matched {
        return false;
      }
      rows := Remaining(rows, matched);
      return true;
    }
  }

  /* ---------- append-only over every run ---------- */

  lemma AttemptKeeps(t: Table, s: Statement, i: nat)
    requires WellFormed(t) && i < |t.rows|
    ensures var now := Attempt(t, s);
      && WellFormed(now) && now.columns == t.columns && now.guarded == t.guarded
      && i < |now.rows| && forall c | c in t.guarded && c in t.columns :: now.rows[i][c] == t.rows[i][c]
  {
    if s.Delete? && |s.matched| == |t.rows| && true !in s.matched {
      NoneMatched(t.rows, s.matched);
    }
  }

  /** Whatever is attempted, no row is lost or moved and no guarded column of it changes. */
  lemma {:induction false} LedgerIsAppendOnly(t: Table, statements: seq<Statement>, i: nat)
    requires WellFormed(t) && i < |t.rows|
    ensures var now := Run(t, statements);
      && WellFormed(now) && now.columns == t.columns && now.guarded == t.guarded
      && i < |now.rows| && forall c | c in t.guarded && c in t.columns :: now.rows[i][c] == t.rows[i][c]
  {
    if statements != [] {
      var n := |statements| - 1;
      LedgerIsAppendOnly(t, statements[..n], i);
      AttemptKeeps(Run(t, statements[..n]), statements[n], i);
    }
  }

  /** The rows of the inserts that the schema admits, in order. */
  function Inserts(columns: set<string>, statements: seq<Statement>): seq<Row> {
    if statements == [] then []
    else
      var last := statements[|statements| - 1];
      Inserts(columns, statements[..|statements| - 1]) + (if last.Insert? && last.row.Keys == columns then [last.row] else [])
  }

  /** Row for row, the guarded columns are those of `all`. */
  ghost predicate GuardedLike(t: Table, all: seq<Row>) {
    && WellFormed(t) && |t.rows| == |all| && (forall i | 0 <= i < |all| :: all[i].Keys == t.columns)
    && forall i, c | 0 <= i < |all| && c in t.guarded && c in t.columns :: t.rows[i][c] == all[i][c]
  }

  lemma AttemptIsInsert(t: Table, s: Statement, all: seq<Row>)
    requires GuardedLike(t, all)
    ensures var now := Attempt(t, s);
      && now.columns == t.columns && now.guarded == t.guarded
      && GuardedLike(now, if s.Insert? && s.row.Keys == t.columns then all + [s.row] else all)
  {
    if s.Delete? && |s.matched| == |t.rows| && true !in s.matched {
      NoneMatched(t.rows, s.matched);
    }
  }

  /** After any statements, aborted or not, the ledger is what it was and then every inserted row, in order of
      insertion and with its guarded columns as inserted. */
  lemma {:induction false} LedgerIsItsInserts(t: Table, statements: seq<Statement>)
    requires WellFormed(t)
    ensures Run(t, statements).columns == t.columns && Run(t, statements).guarded == t.guarded
    ensures GuardedLike(Run(t, statements), t.rows + Inserts(t.columns, statements))
  {
    if statements == [] {
      assert t.rows + [] == t.rows;
    } else {
      var n := |statements| - 1;
      var last, all := statements[n], t.rows + Inserts(t.columns, statements[..n]);
      LedgerIsItsInserts(t, statements[..n]);
      hide GuardedLike, Attempt;
      AttemptIsInsert(Run(t, statements[..n]), last, all);
      assert t.rows + Inserts(t.columns, statements)
             == if last.Insert? && last.row.Keys == t.columns then all + [last.row] else all;
    }
  }

  /* ---------- the two ledgers and their guards ---------- */

  const SYNCED_AT := "synced_at"

  /** app/models.py: Operation and CashMovement */
  const OPERATION_COLUMNS: set<string> := {
    "id", "type", "product_id", "qty_delta", "unit_cost_cents", "unit_price_cents", "payload", "sale_id", "batch_id",
    "reverses_op_id", "author_id", "device_id", "seq", "created_at", "business_date", "created_by", "synced_at"
  }
  const CASH_COLUMNS: set<string> := {
    "id", "category", "amount_cents", "currency", "note", "sale_id", "reverses_movement_id", "author_id", "device_id",
    "seq", "created_at", "business_date", "created_by", "synced_at"
  }

  /** The v4 enumerations. */
  const OPERATION_GUARD: set<string> := {
    "id", "type", "product_id", "qty_delta", "unit_cost_cents", "unit_price_cents", "payload", "sale_id", "batch_id",
    "reverses_op_id", "author_id", "device_id", "seq", "created_at", "business_date", "created_by"
  }
  const CASH_GUARD: set<string> := {
    "id", "category", "amount_cents", "currency", "note", "sale_id", "reverses_movement_id", "author_id", "device_id",
    "seq", "created_at", "business_date", "created_by"
  }

  /** The guards name every column but the sync cursor. */
  lemma GuardsAreComplete()
    ensures OPERATION_GUARD == OPERATION_COLUMNS - {SYNCED_AT}
    ensures CASH_GUARD == CASH_COLUMNS - {SYNCED_AT}
  {
    assert forall c | c in OPERATION_GUARD :: |c| != 9 || c[0] != 's';
    assert forall c | c in CASH_GUARD :: |c| != 9 || c[0] != 's';
  }

  /** A ledger row keeps every column but `synced_at` for good. */
  lemma LedgerRowsArePermanent(t: Table, statements: seq<Statement>, i: nat)
    requires WellFormed(t) && i < |t.rows|
    requires (t.columns == OPERATION_COLUMNS && t.guarded == OPERATION_GUARD) || (t.columns == CASH_COLUMNS && t.guarded == CASH_GUARD)
    ensures var now := Run(t, statements);
      i < |now.rows| && now.rows[i].Keys == t.columns
      && forall c | c in t.columns && c != SYNCED_AT :: now.rows[i][c] == t.rows[i][c]
  {
    LedgerIsAppendOnly(t, statements, i);
    GuardsAreComplete();
  }

  /** And the sync cursor itself can always be stamped. */
  lemma CursorCanBeStamped(t: Table, i: nat, stamp: Cell)
    requires WellFormed(t) && i < |t.rows|
    requires (t.columns == OPERATION_COLUMNS && t.guarded == OPERATION_GUARD) || (t.columns == CASH_COLUMNS && t.guarded == CASH_GUARD)
    ensures var change := seq(|t.rows|, j requires 0 <= j < |t.rows| => if j == i then Some(t.rows[i][SYNCED_AT := stamp]) else None);
      Fitting(t, Update(change)) && !Aborts(t, Update(change))
      && Attempt(t, Update(change)).rows == t.rows[i := t.rows[i][SYNCED_AT := stamp]]
  {
    GuardsAreComplete();
  }
}
