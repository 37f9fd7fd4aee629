/** The self-update cycle of launcher/swap.py as a machine over one install root.

    Every external step takes its outcome (its "fate") from the caller, so a statement quantified
    over `Fates` covers every way in which a rename, a removal, a process call, the migration or the
    database copy can fail or be interrupted.
  */
module Swap {
  import opened Base

  type Bundle = nat

  /** What a directory of the install root holds. A partly removed bundle is `Debris`. */
  datatype Dir = Absent | Intact(bundle: Bundle) | Debris

  /** Python's exceptions as far as the handlers tell them apart: `Interrupt` stands for the
      BaseExceptions (Ctrl+C, console close) that `except Exception` lets through. */
  datatype Exn =
    | StagedMissing
    | HealthFailed
    | OsError(n: nat)
    | Failure(n: nat)
    | Interrupt(n: nat)

  /** The database file and its two sidecars. */
  datatype Db = Db(main: nat, wal: bool, shm: bool)

  /** `alive` maps every process that may still run to the directory it was started from;
      process numbers below `spawned` are taken. `owned` is `AppProcess.proc`. */
  datatype World = World(
    app: Dir, prev: Dir, staged: Dir, failed: Dir,
    db: Db,
    owned: Option<nat>, alive: map<nat, Dir>, spawned: nat)

  /* ---------- fates of the external steps ---------- */

  datatype RenameFate = Done | Denied(n: nat) | Cut(n: nat)

  datatype Left = Nothing | Part | All
  datatype RemoveFate = RemoveFate(left: Left, cut: Option<nat>)

  datatype StopFate =
    | Exits
    | ExitsAfterKill
    | TerminateRaises(e: Exn)
    | WaitRaises(e: Exn, dies: bool)
    | KillRaises(e: Exn)
    | KillWaitRaises(e: Exn, dies: bool)

  /** `Orphans`: an interrupt after the child exists and before its handle is stored. */
  datatype StartFate = Spawns | SpawnRaises(e: Exn) | Orphans(n: nat)

  /** adapters.migrate runs alembic as a child. A zero or nonzero exit means that the child is gone; an
      exception that breaks off the call may leave it alive: an interrupt before `run` holds the handle,
      one after which `run` kills the child without waiting, or a wait that itself raises. */
  datatype MigrateFate =
    | Migrates(db: Db)
    | ExitsNonzero(db: Db, n: nat)
    | ChildRaises(e: Exn)
    | BrokenOff(db: Db, e: Exn, dies: bool)

  /** `db` is what the started app has written by the time the poll ends. */
  datatype HealthFate = HealthFate(db: Db, passes: bool, raised: Option<Exn>)

  datatype CopyFate =
    | Restored
    | CopyRaises(main: nat, e: Exn)
    | WalRaises(e: Exn)
    | ShmRaises(e: Exn)

  datatype Fates = Fates(
    stop: StopFate, clearPrev: RemoveFate,
    rename: RenameFate, flagPrev: Option<nat>,
    install: RenameFate, flagSwapped: Option<nat>, flagMigrate: Option<nat>,
    migrate: MigrateFate, start: StartFate, health: HealthFate,
    stop2: StopFate, clearFailed: RemoveFate, park: RenameFate, discard: RemoveFate,
    restore: RenameFate, copy: CopyFate, start2: StartFate,
    cleanup: RemoveFate)

  /* ---------- the external steps ---------- */

  /** os.replace on Windows: the target must not exist, and a failed call changes nothing. */
  function RenameDir(src: Dir, dst: Dir, fate: RenameFate): (Dir, Dir, Option<Exn>) {
    match fate
    case Cut(n) => (src, dst, Some(Interrupt(n)))
    case Denied(n) => (src, dst, Some(OsError(n)))
    case Done =>
      if src.Absent? || !dst.Absent? then (src, dst, Some(OsError(0)))
      else (Absent, src, None)
  }

  /** shutil.rmtree(ignore_errors=True): anything may stay behind, only an interrupt escapes. */
  function RemoveDir(d: Dir, fate: RemoveFate): (Dir, Option<Exn>) {
    var rest :=
      if d.Absent? || fate.left.Nothing? then Absent
      else if fate.left.All? then d
      else Debris;
    (rest, if fate.cut.Some? then Some(Interrupt(fate.cut.value)) else None)
  }

  /** AppProcess.stop: no handle, nothing to do. `terminate` raises before the `try`, so the handle
      is kept then; every later outcome drops it, dead child or not. */
  function StopApp(w: World, fate: StopFate): (World, Option<Exn>) {
    if w.owned.None? then (w, None)
    else
      var dead := w.(owned := None, alive := w.alive - {w.owned.value});
      var lost := w.(owned := None);
      match fate
      case Exits => (dead, None)
      case ExitsAfterKill => (dead, None)
      case TerminateRaises(e) => (w, Some(e))
      case WaitRaises(e, dies) => (if dies then dead else lost, Some(e))
      case KillRaises(e) => (lost, Some(e))
      case KillWaitRaises(e, dies) => (if dies then dead else lost, Some(e))
  }

  /** AppProcess.start: the child runs out of whatever `app` holds; without `app` it cannot start. */
  function StartApp(w: World, fate: StartFate): (World, Option<Exn>) {
    if w.app.Absent? && !fate.SpawnRaises? then (w, Some(OsError(0)))
    else
      match fate
      case Spawns => (w.(owned := Some(w.spawned), alive := w.alive[w.spawned := w.app], spawned := w.spawned + 1), None)
      case SpawnRaises(e) => (w, Some(e))
      case Orphans(n) => (w.(alive := w.alive[w.spawned := w.app], spawned := w.spawned + 1), Some(Interrupt(n)))
  }

  /** adapters.migrate: the child, too, runs out of whatever `app` holds. */
  function RunMigration(w: World, fate: MigrateFate): (World, Option<Exn>) {
    if w.app.Absent? && !fate.ChildRaises? then (w, Some(OsError(0)))
    else
      match fate
      case Migrates(db) => (w.(db := db), None)
      case ExitsNonzero(db, n) => (w.(db := db), Some(Failure(n)))
      case ChildRaises(e) => (w, Some(e))
      case BrokenOff(db, e, dies) =>
        (if dies then w.(db := db)
         else w.(db := db, alive := w.alive[w.spawned := w.app], spawned := w.spawned + 1), Some(e))
  }

  /** backup_restore: copy over the database, then unlink `-wal`, then `-shm`. */
  function CopyBack(db: Db, backup: nat, fate: CopyFate): (Db, Option<Exn>) {
    match fate
    case Restored => (Db(backup, false, false), None)
    case CopyRaises(m, e) => (db.(main := m), Some(e))
    case WalRaises(e) => (db.(main := backup), Some(e))
    case ShmRaises(e) => (Db(backup, false, db.shm), Some(e))
  }

  /* ---------- one run of apply_update ---------- */

  datatype Step =
    | Stopped | PrevCleared | AppRenamed | StagedInstalled | Migrated | Started | Probed
    | BackStopped | FailedCleared | Parked | Discarded | AppRestored | DbRestored | Restarted
    | Cleaned

  datatype Moment = Moment(step: Step, w: World)

  /** `raised` is the exception the `try` body raised; `cut` one that escaped the handler itself. */
  datatype Run = Run(
    w: World, trace: seq<Moment>,
    raised: Option<Exn>, cut: Option<Exn>,
    prevRenamed: bool, stagedSwapped: bool, migrateAttempted: bool, stopped: bool)
  {
    function Outcome(): Option<Exn> {
      if cut.Some? then cut else raised
    }

    function Try(step: Step, w': World, e: Option<Exn>): Run {
      this.(w := w', trace := trace + [Moment(step, w')], raised := e)
    }

    /** A step of the handler whose failure is swallowed when `swallowed` says so. */
    function Handle(step: Step, w': World, e: Option<Exn>, swallowed: bool): Run {
      this.(w := w', trace := trace + [Moment(step, w')],
            cut := if e.Some? && !swallowed then e else None)
    }
  }

  predicate IsException(e: Option<Exn>) {
    e.None? || !e.value.Interrupt?
  }

  function Begin(w: World): Run {
    Run(w, [], None, None, false, false, false, false)
  }

  /** stop_app, rmtree(app_prev), app -> app_prev, prev_renamed = True */
  function Vacate(w: World, f: Fates): Run {
    var r0 := Begin(w);
    var (w1, e1) := StopApp(w, f.stop);
    var r1 := r0.Try(Stopped, w1, e1);
    if e1.Some? then r1
    else
      var (p2, e2) := RemoveDir(w1.prev, f.clearPrev);
      var r2 := r1.Try(PrevCleared, w1.(prev := p2), e2);
      if e2.Some? then r2
      else
        var (a3, p3, e3) := RenameDir(w1.app, p2, f.rename);
        var r3 := r2.Try(AppRenamed, w1.(app := a3, prev := p3), e3);
        if e3.Some? then r3
        else if f.flagPrev.Some? then r3.(raised := Some(Interrupt(f.flagPrev.value)))
        else r3.(prevRenamed := true)
  }

  /** staged -> app, staged_swapped = True, migrate_attempted = True */
  function Install(r: Run, f: Fates): Run {
    var (s4, a4, e4) := RenameDir(r.w.staged, r.w.app, f.install);
    var r4 := r.Try(StagedInstalled, r.w.(staged := s4, app := a4), e4);
    if e4.Some? then r4
    else if f.flagSwapped.Some? then r4.(raised := Some(Interrupt(f.flagSwapped.value)))
    else if f.flagMigrate.Some? then r4.(stagedSwapped := true, raised := Some(Interrupt(f.flagMigrate.value)))
    else r4.(stagedSwapped := true, migrateAttempted := true)
  }

  /** migrate, start_app, health_ok */
  function Launch(r: Run, f: Fates): Run {
    var (w5, e5) := RunMigration(r.w, f.migrate);
    var r5 := r.Try(Migrated, w5, e5);
    if e5.Some? then r5
    else
      var (w6, e6) := StartApp(r5.w, f.start);
      var r6 := r5.Try(Started, w6, e6);
      if e6.Some? then r6
      else
        var e7 := if f.health.raised.Some? then f.health.raised
                  else if f.health.passes then None else Some(HealthFailed);
        r6.Try(Probed, w6.(db := f.health.db), e7)
  }

  /** The body of the `try`. */
  function Forward(w: World, f: Fates): Run {
    var r := Vacate(w, f);
    if r.raised.Some? then r
    else
      var i := Install(r, f);
      if i.raised.Some? then i else Launch(i, f)
  }

  function BackStop(r: Run, f: Fates): Run {
    var (w1, e1) := StopApp(r.w, f.stop2);
    r.Handle(BackStopped, w1, e1, IsException(e1)).(stopped := e1.None?)
  }

  /** Park the new code at `app_failed`, or discard it when an OSError forbids parking. */
  function SetAside(r: Run, f: Fates): Run {
    if r.cut.Some? || !r.stagedSwapped then r
    else
      var (d2, e2) := RemoveDir(r.w.failed, f.clearFailed);
      var r2 := r.Handle(FailedCleared, r.w.(failed := d2), e2, false);
      if e2.Some? then r2
      else
        var (a3, d3, e3) := RenameDir(r.w.app, d2, f.park);
        var r3 := r2.Handle(Parked, r2.w.(app := a3, failed := d3), e3, IsException(e3));
        if r3.cut.Some? || e3.None? then r3
        else
          var (a4, e4) := RemoveDir(r3.w.app, f.discard);
          r3.Handle(Discarded, r3.w.(app := a4), e4, false)
  }

  /** app_prev -> app, unless something still occupies `app`. */
  function BringBack(r: Run, f: Fates): Run {
    if r.cut.Some? || !r.prevRenamed || !r.w.app.Absent? then r
    else
      var (p, a, e) := RenameDir(r.w.prev, r.w.app, f.restore);
      r.Handle(AppRestored, r.w.(prev := p, app := a), e, IsException(e))
  }

  function RevertDb(r: Run, backup: nat, f: Fates): Run {
    if r.cut.Some? || !r.migrateAttempted || !r.stopped then r
    else
      var (d, e) := CopyBack(r.w.db, backup, f.copy);
      r.Handle(DbRestored, r.w.(db := d), e, IsException(e))
  }

  function Restart(r: Run, f: Fates): Run {
    if r.cut.Some? then r
    else
      var (w, e) := StartApp(r.w, f.start2);
      r.Handle(Restarted, w, e, IsException(e))
  }

  /** The `except BaseException` handler. */
  function Rollback(r: Run, backup: nat, f: Fates): Run {
    Restart(RevertDb(BringBack(SetAside(BackStop(r, f), f), f), backup, f), f)
  }

  /** apply_update */
  function Cycle(w: World, backup: nat, f: Fates): Run {
    if w.staged.Absent? then Begin(w).(raised := Some(StagedMissing))
    else
      var r := Forward(w, f);
      if r.raised.Some? then Rollback(r, backup, f)
      else
        var (p, e) := RemoveDir(r.w.prev, f.cleanup);
        r.Try(Cleaned, r.w.(prev := p), e)
  }

  /* ---------- the old bundle is never lost ---------- */

  predicate Keeps(w: World, b: Bundle) {
    w.app == Intact(b) || w.prev == Intact(b)
  }

  ghost predicate AllKeep(trace: seq<Moment>, b: Bundle) {
    forall i | 0 <= i < |trace| :: trace[i].step.Cleaned? || Keeps(trace[i].w, b)
  }

  /** What the handler relies on: once a rename is flagged, `app_prev` is the old bundle. */
  ghost predicate Anchored(r: Run, b: Bundle) {
    && AllKeep(r.trace, b)
    && Keeps(r.w, b)
    && (r.stagedSwapped ==> r.prevRenamed)
    && (r.prevRenamed ==> r.w.prev == Intact(b))
  }

  lemma VacateAnchored(w: World, f: Fates, b: Bundle)
    requires w.app == Intact(b)
    ensures var r := Vacate(w, f);
      && Anchored(r, b) && r.cut.None? && !r.stagedSwapped && !r.migrateAttempted
      && r.w.staged == w.staged
      && (r.raised.None? ==> r.prevRenamed && r.w.app == Absent)
  {
    StopKeepsDirs(w, f.stop);
    hide StopApp;
  }

  predicate SameDirs(a: World, b: World) {
    a.app == b.app && a.prev == b.prev && a.staged == b.staged && a.failed == b.failed
  }

  lemma StopKeepsDirs(w: World, fate: StopFate)
    ensures SameDirs(StopApp(w, fate).0, w) && StopApp(w, fate).0.db == w.db
  {
  }

  lemma MigrationKeepsDirs(w: World, fate: MigrateFate)
    ensures SameDirs(RunMigration(w, fate).0, w)
  {
  }

  lemma StartKeepsDirs(w: World, fate: StartFate)
    ensures SameDirs(StartApp(w, fate).0, w)
  {
  }

  lemma InstallAnchored(r: Run, f: Fates, b: Bundle)
    requires Anchored(r, b) && r.prevRenamed && r.w.app == Absent && r.cut.None?
    ensures var i := Install(r, f);
      && Anchored(i, b) && i.cut.None?
      && (i.raised.None? ==> i.w.app == r.w.staged && i.w.staged == Absent)
  {
  }

  lemma LaunchAnchored(r: Run, f: Fates, b: Bundle)
    requires Anchored(r, b) && r.prevRenamed && r.cut.None?
    ensures var l := Launch(r, f);
      Anchored(l, b) && l.cut.None? && l.w.app == r.w.app && l.w.staged == r.w.staged
  {
    var (w5, e5) := RunMigration(r.w, f.migrate);
    MigrationKeepsDirs(r.w, f.migrate);
    hide RunMigration;
    KeepNext(r.trace, Moment(Migrated, w5), b);
    var t5 := r.trace + [Moment(Migrated, w5)];
    var (w6, e6) := StartApp(w5, f.start);
    StartKeepsDirs(w5, f.start);
    hide StartApp;
    KeepNext(t5, Moment(Started, w6), b);
    KeepNext(t5 + [Moment(Started, w6)], Moment(Probed, w6.(db := f.health.db)), b);
    hide AllKeep;
  }

  lemma KeepNext(trace: seq<Moment>, m: Moment, b: Bundle)
    requires AllKeep(trace, b) && Keeps(m.w, b)
    ensures AllKeep(trace + [m], b)
  {
  }

  lemma ForwardAnchored(w: World, f: Fates, b: Bundle)
    requires w.app == Intact(b)
    ensures var r := Forward(w, f);
      && Anchored(r, b) && r.cut.None?
      && (r.raised.None? ==> r.w.app == w.staged && r.w.staged == Absent)
  {
    VacateAnchored(w, f, b);
    var r := Vacate(w, f);
    if r.raised.None? {
      InstallAnchored(r, f, b);
      if Install(r, f).raised.None? {
        LaunchAnchored(Install(r, f), f, b);
      }
    }
  }

  lemma SetAsideAnchored(r: Run, f: Fates, b: Bundle)
    requires Anchored(r, b)
    ensures Anchored(SetAside(r, f), b)
  {
  }

  lemma BringBackKeeps(r: Run, f: Fates, b: Bundle)
    requires Anchored(r, b)
    ensures AllKeep(BringBack(r, f).trace, b) && Keeps(BringBack(r, f).w, b)
  {
  }

  lemma RevertAndRestartKeep(r: Run, backup: nat, f: Fates, b: Bundle)
    requires AllKeep(r.trace, b) && Keeps(r.w, b)
    ensures var s := Restart(RevertDb(r, backup, f), f); AllKeep(s.trace, b) && Keeps(s.w, b)
  {
    var d := RevertDb(r, backup, f);
    assert AllKeep(d.trace, b) && Keeps(d.w, b);
  }

  lemma RollbackKeeps(r: Run, backup: nat, f: Fates, b: Bundle)
    requires Anchored(r, b)
    ensures var s := Rollback(r, backup, f); AllKeep(s.trace, b) && Keeps(s.w, b)
  {
    var r1 := BackStop(r, f);
    assert Anchored(r1, b);
    SetAsideAnchored(r1, f, b);
    BringBackKeeps(SetAside(r1, f), f, b);
    RevertAndRestartKeep(BringBack(SetAside(r1, f), f), backup, f, b);
  }

  /** The main safety result: whatever fails or is interrupted, forward or backward, the old bundle
      is intact in `app` or `app_prev` at every moment up to a passed health check; a normal return
      leaves the new bundle in `app`. */
  lemma OldBundleSurvives(w: World, backup: nat, f: Fates, b: Bundle)
    requires w.app == Intact(b)
    ensures var r := Cycle(w, backup, f);
      && AllKeep(r.trace, b)
      && (Keeps(r.w, b) || (Forward(w, f).raised.None? && r.w.app == w.staged))
      && (r.Outcome().None? ==> r.w.app == w.staged && r.w.staged == Absent && !w.staged.Absent?)
  {
    if !w.staged.Absent? {
      ForwardAnchored(w, f, b);
      var r := Forward(w, f);
      if r.raised.Some? {
        RollbackKeeps(r, backup, f, b);
        RollbackOutcome(r, backup, f);
      }
    }
  }

  /** The handler re-raises what the `try` body raised, unless an interrupt escapes the handler. */
  lemma RollbackOutcome(r: Run, backup: nat, f: Fates)
    requires r.cut.None?
    ensures var s := Rollback(r, backup, f);
      && s.raised == r.raised
      && (s.cut.Some? ==> s.cut.value.Interrupt?)
  {
    StopOutcome(r, f);
    AsideOutcome(BackStop(r, f), f);
    hide BackStop, SetAside, BringBack, RevertDb, Restart;
    var r2 := SetAside(BackStop(r, f), f);
    BringOutcome(r2, f);
    RevertOutcome(BringBack(r2, f), backup, f);
    RestartOutcome(RevertDb(BringBack(r2, f), backup, f), f);
  }

  /** Only an interrupt cuts the handler short, and the error it answers stays the one raised. */
  ghost predicate Carries(r: Run, s: Run) {
    s.raised == r.raised && (s.cut.Some? ==> s.cut.value.Interrupt?)
  }

  lemma StopOutcome(r: Run, f: Fates)
    requires Carries(r, r)
    ensures Carries(r, BackStop(r, f))
  {
  }

  lemma AsideOutcome(r: Run, f: Fates)
    requires Carries(r, r)
    ensures Carries(r, SetAside(r, f))
  {
  }

  lemma BringOutcome(r: Run, f: Fates)
    requires Carries(r, r)
    ensures Carries(r, BringBack(r, f))
  {
  }

  lemma RevertOutcome(r: Run, backup: nat, f: Fates)
    requires Carries(r, r)
    ensures Carries(r, RevertDb(r, backup, f))
  {
  }

  lemma RestartOutcome(r: Run, f: Fates)
    requires Carries(r, r)
    ensures Carries(r, Restart(r, f))
  {
  }

  /* ---------- matched-pair rollback ---------- */

  predicate StopsCleanly(w: World, fate: StopFate) {
    w.owned.None? || fate.Exits? || fate.ExitsAfterKill?
  }

  predicate Parks(w: World, f: Fates) {
    f.park.Done? && (w.failed.Absent? || f.clearFailed.left.Nothing?)
  }

  /** None of the restoring steps this failure calls for fails itself; parking may, as long as
      discarding `app` then works. */
  predicate Restores(r: Run, f: Fates) {
    && StopsCleanly(r.w, f.stop2)
    && (r.stagedSwapped ==>
          && f.clearFailed.cut.None? && !f.park.Cut?
          && (Parks(r.w, f) || f.discard == RemoveFate(Nothing, None)))
    && (r.prevRenamed ==> f.restore.Done?)
    && (r.migrateAttempted ==> f.copy.Restored?)
    && f.start2.Spawns?
  }

  /** The state every failed `try` body leaves when each rename and its flag are one step. */
  ghost predicate FailedFrom(r: Run, w: World, b: Bundle) {
    && r.raised.Some? && r.cut.None?
    && r.w.failed == w.failed
    && (r.migrateAttempted ==> r.stagedSwapped)
    && (r.stagedSwapped ==> r.prevRenamed && r.w.app == w.staged && r.w.staged == Absent)
    && (if r.prevRenamed then r.w.prev == Intact(b) else r.w.app == Intact(b))
    && (r.prevRenamed && !r.stagedSwapped ==> r.w.app == Absent)
    && (!r.migrateAttempted ==> r.w.db == w.db)
  }

  lemma ForwardFailure(w: World, f: Fates, b: Bundle)
    requires w.app == Intact(b) && f.flagPrev.None? && f.flagSwapped.None?
    requires Forward(w, f).raised.Some?
    ensures FailedFrom(Forward(w, f), w, b)
  {
    var r := Vacate(w, f);
    VacateFailure(w, f, b);
    if r.raised.None? {
      var i := Install(r, f);
      InstallFailure(r, w, f, b);
      hide Vacate, Install, Launch;
      if i.raised.None? {
        LaunchFailure(i, w, f, b);
      }
    }
  }

  lemma VacateFailure(w: World, f: Fates, b: Bundle)
    requires w.app == Intact(b) && f.flagPrev.None?
    ensures var r := Vacate(w, f);
      if r.raised.Some? then FailedFrom(r, w, b)
      else r.prevRenamed && !r.stagedSwapped && !r.migrateAttempted && r.cut.None? && r.w.failed == w.failed
           && r.w.prev == Intact(b) && r.w.app == Absent && r.w.staged == w.staged && r.w.db == w.db
  {
    StopKeepsDirs(w, f.stop);
    hide StopApp;
  }

  lemma InstallFailure(r: Run, w: World, f: Fates, b: Bundle)
    requires r.raised.None? && r.prevRenamed && !r.stagedSwapped && !r.migrateAttempted && r.cut.None?
    requires r.w.failed == w.failed && r.w.prev == Intact(b) && r.w.app == Absent
    requires r.w.staged == w.staged && r.w.db == w.db && f.flagSwapped.None?
    ensures var i := Install(r, f);
      if i.raised.Some? then FailedFrom(i, w, b)
      else i.migrateAttempted && FailedFrom(i.(raised := Some(HealthFailed)), w, b)
  {
  }

  /** Once the migration is attempted, only the database and the processes still change. */
  lemma LaunchFailure(i: Run, w: World, f: Fates, b: Bundle)
    requires i.migrateAttempted && FailedFrom(i.(raised := Some(HealthFailed)), w, b)
    ensures Launch(i, f).raised.Some? ==> FailedFrom(Launch(i, f), w, b)
  {
    var (w5, e5) := RunMigration(i.w, f.migrate);
    MigrationKeepsDirs(i.w, f.migrate);
    StartKeepsDirs(w5, f.start);
    hide RunMigration, StartApp;
  }

  /** After a clean stop and parking or discarding, exactly the renamed directories are undone. */
  lemma UndoesRenames(r: Run, w: World, f: Fates, b: Bundle)
    requires FailedFrom(r, w, b) && Restores(r, f) && !w.staged.Absent?
    ensures var s := BringBack(SetAside(BackStop(r, f), f), f);
      && s.cut.None? && s.raised == r.raised
      && s.w.app == Intact(b) && s.w.db == r.w.db && s.stopped
      && s.migrateAttempted == r.migrateAttempted
      && (r.prevRenamed ==> s.w.prev == Absent)
      && (r.stagedSwapped && Parks(w, f)
          ==> s.w.failed == w.staged)
  {
    var r1 := BackStop(r, f);
    assert r1.stopped && r1.cut.None? && r1.w.app == r.w.app && r1.w.prev == r.w.prev;
    var r2 := SetAside(r1, f);
    assert r.prevRenamed ==> r2.w.app == Absent && r2.w.prev == Intact(b);
  }

  /** Matched-pair rollback: code and database revert together, the database only when the
      migration was attempted; the old code runs again and the original exception is raised. */
  lemma MatchedPairRollback(w: World, backup: nat, f: Fates, b: Bundle)
    requires w.app == Intact(b) && !w.staged.Absent?
    requires f.flagPrev.None? && f.flagSwapped.None?
    requires Forward(w, f).raised.Some? && Restores(Forward(w, f), f)
    requires PidsBelow(w)
    ensures var forward, r := Forward(w, f), Cycle(w, backup, f);
      && r.w.app == Intact(b)
      && r.w.db == (if forward.migrateAttempted then Db(backup, false, false) else w.db)
      && r.w.owned.Some? && r.w.owned.value !in forward.w.alive && r.w.owned.value in r.w.alive
      && r.w.alive[r.w.owned.value] == Intact(b)
      && r.Outcome() == forward.raised
      && (forward.migrateAttempted && !LeavesChild(forward.trace, f) ==> UnderHandle(w, r.w))
  {
    ForwardFailure(w, f, b);
    var r := Forward(w, f);
    UndoesRenames(r, w, f, b);
    PidsForward(w, f);
    PidsBack(r, f);
    ForwardProcesses(w, f);
    hide Forward, LeavesChild, Reaches, FailedFrom, Restores;
    if UnderHandle(w, r.w) {
      RestartedAlone(w, r, backup, f);
    }
  }

  /** From a body that left no child alone, a clean stop and a restart leave one process: the restarted one. */
  lemma RestartedAlone(w: World, r: Run, backup: nat, f: Fates)
    requires UnderHandle(w, r.w) && r.w.spawned >= w.spawned && StopsCleanly(r.w, f.stop2)
    requires f.start2.Spawns? && BringBack(SetAside(BackStop(r, f), f), f).cut.None?
    requires !BringBack(SetAside(BackStop(r, f), f), f).w.app.Absent?
    requires RevertDb(BringBack(SetAside(BackStop(r, f), f), f), backup, f).cut.None?
    ensures UnderHandle(w, Rollback(r, backup, f).w)
  {
    var r1 := BackStop(r, f);
    assert Quiet(w, r1.w);
    hide SetAside, BringBack;
    SetAsideAlive(r1, f);
    var r3 := BringBack(SetAside(r1, f), f);
    assert Quiet(w, r3.w);
    var r4 := RevertDb(r3, backup, f);
    assert Quiet(w, r4.w);
  }

  lemma SetAsideAlive(r: Run, f: Fates)
    ensures BringBack(SetAside(r, f), f).w.alive == r.w.alive
  {
    var s := SetAside(r, f);
    assert s.w.alive == r.w.alive;
    hide SetAside;
  }

  /* ---------- processes ---------- */

  ghost predicate PidsBelow(w: World) {
    forall p <- w.alive :: p < w.spawned
  }

  lemma PidsForward(w: World, f: Fates)
    requires PidsBelow(w)
    ensures PidsBelow(Forward(w, f).w) && Forward(w, f).w.spawned >= w.spawned
  {
    VacatePids(w, f);
    var r := Vacate(w, f);
    InstallPids(r, f);
    var i := Install(r, f);
    hide Vacate, Install, Launch, PidsBelow;
    LaunchPids(i, f);
  }

  lemma VacatePids(w: World, f: Fates)
    requires PidsBelow(w)
    ensures PidsBelow(Vacate(w, f).w) && Vacate(w, f).w.spawned == w.spawned
  {
    var (w1, e1) := StopApp(w, f.stop);
    assert PidsBelow(w1) && w1.spawned == w.spawned;
    hide StopApp;
  }

  lemma InstallPids(r: Run, f: Fates)
    requires PidsBelow(r.w)
    ensures PidsBelow(Install(r, f).w) && Install(r, f).w.spawned == r.w.spawned
  {
  }

  lemma LaunchPids(r: Run, f: Fates)
    requires PidsBelow(r.w)
    ensures PidsBelow(Launch(r, f).w) && Launch(r, f).w.spawned >= r.w.spawned
  {
    var (w5, e5) := RunMigration(r.w, f.migrate);
    assert PidsBelow(w5) && w5.spawned >= r.w.spawned;
    hide RunMigration;
    var (w6, e6) := StartApp(w5, f.start);
    assert PidsBelow(w6) && w6.spawned >= w5.spawned;
    hide StartApp;
  }

  lemma PidsBack(r: Run, f: Fates)
    requires PidsBelow(r.w)
    ensures var s := BringBack(SetAside(BackStop(r, f), f), f);
      PidsBelow(s.w) && s.w.spawned == r.w.spawned && s.w.alive.Keys <= r.w.alive.Keys
  {
    var r1 := BackStop(r, f);
    assert PidsBelow(r1.w) && r1.w.spawned == r.w.spawned && r1.w.alive.Keys <= r.w.alive.Keys;
    var r2 := SetAside(r1, f);
    assert r2.w.alive == r1.w.alive && r2.w.spawned == r1.w.spawned;
  }

  /** Processes this cycle answers for: the one owned when it began, and those it started. */
  predicate Tracked(w: World, pid: nat) {
    w.owned == Some(pid) || pid >= w.spawned
  }

  ghost predicate Quiet(w: World, now: World) {
    forall p <- now.alive :: !Tracked(w, p)
  }

  predicate Reaches(trace: seq<Moment>, step: Step) {
    exists i | 0 <= i < |trace| :: trace[i].step == step
  }

  /** Every database restore of this trace happened with no tracked process alive. */
  ghost predicate RestoresQuietly(w: World, trace: seq<Moment>) {
    forall i | 0 <= i < |trace| && trace[i].step == DbRestored :: Quiet(w, trace[i].w)
  }

  /** Nothing tracked runs that `owned` does not hold. */
  ghost predicate UnderHandle(w: World, now: World) {
    forall p <- now.alive :: Tracked(w, p) ==> now.owned == Some(p)
  }

  /** The `try` body left a child alive that no handle holds: a migration broken off before its child
      was gone, or a start interrupted before its handle was stored. */
  predicate LeavesChild(trace: seq<Moment>, f: Fates) {
    || (Reaches(trace, Migrated) && f.migrate.BrokenOff? && !f.migrate.dies)
    || (Reaches(trace, Started) && f.start.Orphans?)
  }

  lemma ForwardProcesses(w: World, f: Fates)
    requires PidsBelow(w)
    ensures var r := Forward(w, f);
      && !Reaches(r.trace, DbRestored)
      && (r.migrateAttempted && !LeavesChild(r.trace, f) ==> UnderHandle(w, r.w))
      && (LeavesChild(r.trace, f) ==>
            r.raised.Some? && r.migrateAttempted && r.w.owned.None? && w.spawned in r.w.alive)
  {
    var r := Vacate(w, f);
    VacateProcesses(w, f);
    if r.raised.None? {
      InstallProcesses(w, r, f);
      var i := Install(r, f);
      if i.raised.None? {
        LaunchProcesses(w, i, f);
      }
    }
    hide Vacate, Install, Launch, Reaches, Quiet, UnderHandle;
  }

  /** No step has run yet that starts a child or restores the database. */
  ghost predicate BeforeLaunch(trace: seq<Moment>) {
    !Reaches(trace, Migrated) && !Reaches(trace, Started) && !Reaches(trace, DbRestored)
  }

  lemma VacateProcesses(w: World, f: Fates)
    requires PidsBelow(w)
    ensures var r := Vacate(w, f);
      && BeforeLaunch(r.trace) && r.w.spawned == w.spawned && !r.migrateAttempted
      && (r.raised.None? ==> Quiet(w, r.w) && r.w.owned.None?)
  {
    StopProcesses(w, f.stop);
    hide StopApp;
  }

  lemma StopProcesses(w: World, fate: StopFate)
    requires PidsBelow(w)
    ensures var (w1, e1) := StopApp(w, fate);
      w1.spawned == w.spawned && (e1.None? ==> Quiet(w, w1) && w1.owned.None?)
  {
  }

  lemma InstallProcesses(w: World, r: Run, f: Fates)
    requires Quiet(w, r.w) && r.w.owned.None? && r.w.spawned == w.spawned && BeforeLaunch(r.trace) && r.raised.None?
    ensures var i := Install(r, f);
      && Quiet(w, i.w) && i.w.owned.None? && i.w.spawned == w.spawned && BeforeLaunch(i.trace)
      && (i.raised.None? ==> !i.w.app.Absent?)
      && (r.migrateAttempted || i.raised.None? <==> i.migrateAttempted)
  {
    var i := Install(r, f);
    BeforeLaunchNext(r.trace, Moment(StagedInstalled, i.w));
    InstallSteps(r, f);
    hide Install, BeforeLaunch, Reaches;
  }

  lemma InstallSteps(r: Run, f: Fates)
    ensures var i := Install(r, f);
      && i.w.alive == r.w.alive && i.w.owned == r.w.owned && i.w.spawned == r.w.spawned
      && i.trace == r.trace + [Moment(StagedInstalled, i.w)]
      && (i.raised.None? ==> !i.w.app.Absent?)
      && (r.migrateAttempted || i.raised.None? <==> i.migrateAttempted)
  {
    RenameMoves(r.w.staged, r.w.app, f.install);
    hide RenameDir;
  }

  lemma RenameMoves(src: Dir, dst: Dir, fate: RenameFate)
    ensures var (s, d, e) := RenameDir(src, dst, fate); e.None? ==> s == Absent && d == src && !src.Absent?
  {
  }

  lemma BeforeLaunchNext(trace: seq<Moment>, m: Moment)
    requires BeforeLaunch(trace) && m.step == StagedInstalled
    ensures BeforeLaunch(trace + [m])
  {
    hide Reaches;
    ReachesNext(trace, m, Migrated);
    ReachesNext(trace, m, Started);
    ReachesNext(trace, m, DbRestored);
  }

  lemma LaunchProcesses(w: World, r: Run, f: Fates)
    requires Quiet(w, r.w) && r.w.owned.None? && r.w.spawned == w.spawned && !r.w.app.Absent?
    requires BeforeLaunch(r.trace)
    ensures var l := Launch(r, f);
      && !Reaches(l.trace, DbRestored)
      && (!LeavesChild(l.trace, f) ==> UnderHandle(w, l.w))
      && (LeavesChild(l.trace, f) ==> l.raised.Some? && l.w.owned.None? && w.spawned in l.w.alive)
  {
    var (w5, e5) := RunMigration(r.w, f.migrate);
    var t5 := r.trace + [Moment(Migrated, w5)];
    forall step ensures Reaches(t5, step) <==> Reaches(r.trace, step) || step == Migrated {
      ReachesNext(r.trace, Moment(Migrated, w5), step);
    }
    if e5.Some? {
      MigrationProcesses(w, r.w, f.migrate);
    } else {
      var (w6, e6) := StartApp(w5, f.start);
      var t6 := t5 + [Moment(Started, w6)];
      StartProcesses(w, w5, f.start);
      hide StartApp, Reaches, Quiet, UnderHandle;
      forall step ensures Reaches(t6, step) <==> Reaches(t5, step) || step == Started {
        ReachesNext(t5, Moment(Started, w6), step);
      }
      if e6.None? {
        var l := Launch(r, f);
        assert l.trace == t6 + [Moment(Probed, l.w)];
        forall step ensures Reaches(l.trace, step) <==> Reaches(t6, step) || step == Probed {
          ReachesNext(t6, Moment(Probed, l.w), step);
        }
        assert UnderHandle(w, w6) ==> UnderHandle(w, l.w) by { SameProcesses(w, w6, l.w); }
      }
    }
  }

  lemma SameProcesses(w: World, a: World, b: World)
    requires a.alive == b.alive && a.owned == b.owned
    ensures UnderHandle(w, a) <==> UnderHandle(w, b)
  {
  }

  lemma ReachesNext(trace: seq<Moment>, m: Moment, step: Step)
    ensures Reaches(trace + [m], step) <==> Reaches(trace, step) || m.step == step
  {
    assert (trace + [m])[|trace|] == m;
    assert forall i | 0 <= i < |trace| :: (trace + [m])[i] == trace[i];
  }

  lemma MigrationProcesses(w: World, now: World, fate: MigrateFate)
    requires Quiet(w, now) && now.owned.None? && now.spawned == w.spawned && !now.app.Absent?
    ensures var (w5, e5) := RunMigration(now, fate);
      && w5.owned.None?
      && (if fate.BrokenOff? && !fate.dies then e5.Some? && w.spawned in w5.alive else UnderHandle(w, w5))
  {
  }

  lemma StartProcesses(w: World, now: World, fate: StartFate)
    requires Quiet(w, now) && now.owned.None? && now.spawned == w.spawned && !now.app.Absent?
    ensures var (w6, e6) := StartApp(now, fate);
      if fate.Orphans? then e6.Some? && w6.owned.None? && w.spawned in w6.alive else UnderHandle(w, w6)
  {
    var (w6, e6) := StartApp(now, fate);
    assert forall p <- w6.alive :: p in now.alive || p == w.spawned;
  }

  /** How many database restores the handler performs, and over which processes. */
  lemma RollbackProcesses(w: World, r: Run, backup: nat, f: Fates)
    requires !Reaches(r.trace, DbRestored) && r.cut.None?
    ensures var s := Rollback(r, backup, f);
      && (UnderHandle(w, r.w) ==> RestoresQuietly(w, s.trace))
      && (r.w.owned.None? && w.spawned in r.w.alive && Reaches(s.trace, DbRestored) ==>
            !RestoresQuietly(w, s.trace))
      && (LeavesChild(r.trace, f) <==> LeavesChild(s.trace, f))
      && (!r.migrateAttempted ==> !Reaches(s.trace, DbRestored))
  {
    var r1 := BackStop(r, f);
    assert r1.trace == r.trace + [Moment(BackStopped, r1.w)];
    assert UnderHandle(w, r.w) && r1.stopped ==> Quiet(w, r1.w);
    SetAsideQuiet(r1, f);
    hide SetAside, BringBack, RevertDb, Restart, BackStop;
    var r3 := BringBack(SetAside(r1, f), f);
    ReachesBefore(r.trace, r3.trace, DbRestored);
    ReachesBefore(r.trace, r3.trace, Started);
    ReachesBefore(r.trace, r3.trace, Migrated);
    assert Quiet(w, r3.w) <==> Quiet(w, r1.w);
    RevertProcesses(w, r3, backup, f);
  }

  lemma ReachesBefore(a: seq<Moment>, b: seq<Moment>, step: Step)
    requires a <= b && forall i | |a| <= i < |b| :: b[i].step != step
    ensures Reaches(b, step) <==> Reaches(a, step)
  {
    assert forall i | 0 <= i < |a| :: b[i] == a[i];
  }

  /** The only database restore is the handler's, over the processes its stop has left. */
  lemma RevertProcesses(w: World, r: Run, backup: nat, f: Fates)
    requires !Reaches(r.trace, DbRestored)
    ensures var s := Restart(RevertDb(r, backup, f), f);
      && (Reaches(s.trace, DbRestored) ==> r.migrateAttempted && r.stopped)
      && (RestoresQuietly(w, s.trace) <==> !Reaches(s.trace, DbRestored) || Quiet(w, r.w))
      && (Reaches(s.trace, Started) <==> Reaches(r.trace, Started))
      && (Reaches(s.trace, Migrated) <==> Reaches(r.trace, Migrated))
  {
    var d := RevertDb(r, backup, f);
    RevertTrace(w, r, backup, f);
    RestartTrace(d, f);
    var s := Restart(d, f);
    hide RevertDb, Restart, Quiet;
    RestoresIn(w, r, d.trace);
    ReachesBefore(d.trace, s.trace, DbRestored);
    ReachesBefore(r.trace, s.trace, Started);
    ReachesBefore(r.trace, s.trace, Migrated);
    QuietBefore(w, d.trace, s.trace);
  }

  /** The restore, if it happens, is one moment, over the processes of the state before it. */
  lemma RevertTrace(w: World, r: Run, backup: nat, f: Fates)
    ensures var d := RevertDb(r, backup, f);
      && d.w.alive == r.w.alive
      && (d.trace == r.trace || (d.trace == r.trace + [Moment(DbRestored, d.w)] && r.migrateAttempted && r.stopped))
  {
  }

  lemma RestartTrace(r: Run, f: Fates)
    ensures var s := Restart(r, f);
      s.trace == r.trace || s.trace == r.trace + [Moment(Restarted, s.w)]
  {
  }

  lemma RestoresIn(w: World, r: Run, trace: seq<Moment>)
    requires !Reaches(r.trace, DbRestored)
    requires trace == r.trace
             || exists now: World :: now.alive == r.w.alive && trace == r.trace + [Moment(DbRestored, now)]
    ensures RestoresQuietly(w, trace) <==> !Reaches(trace, DbRestored) || Quiet(w, r.w)
    ensures Reaches(trace, DbRestored) <==> trace != r.trace
  {
    if trace != r.trace {
      var now: World :| now.alive == r.w.alive && trace == r.trace + [Moment(DbRestored, now)];
      assert Quiet(w, now) <==> Quiet(w, r.w);
      hide Quiet;
      assert trace[|r.trace|] == Moment(DbRestored, now);
    }
  }

  lemma QuietBefore(w: World, a: seq<Moment>, b: seq<Moment>)
    requires a <= b && forall i | |a| <= i < |b| :: b[i].step != DbRestored
    ensures RestoresQuietly(w, b) <==> RestoresQuietly(w, a)
  {
    hide Quiet;
    assert forall i | 0 <= i < |a| :: b[i] == a[i];
  }

  lemma SetAsideQuiet(r: Run, f: Fates)
    requires !Reaches(r.trace, DbRestored)
    ensures var s := BringBack(SetAside(r, f), f);
      && s.w.alive == r.w.alive && r.trace <= s.trace && s.stopped == r.stopped
      && s.migrateAttempted == r.migrateAttempted
      && forall i | |r.trace| <= i < |s.trace| ::
           s.trace[i].step in {FailedCleared, Parked, Discarded, AppRestored}
  {
    SetAsideSteps(r, f);
    var s := SetAside(r, f);
    hide SetAside;
    BringBackSteps(s, f);
    hide BringBack;
  }

  /** What `b` adds to `a` are steps of setting the new code aside. */
  ghost predicate OnlyAside(a: seq<Moment>, b: seq<Moment>) {
    a <= b && forall i | |a| <= i < |b| :: b[i].step in {FailedCleared, Parked, Discarded}
  }

  lemma AsideNext(a: seq<Moment>, b: seq<Moment>, m: Moment)
    requires OnlyAside(a, b) && m.step in {FailedCleared, Parked, Discarded}
    ensures OnlyAside(a, b + [m])
  {
  }

  lemma SetAsideSteps(r: Run, f: Fates)
    ensures var s := SetAside(r, f);
      && s.w.alive == r.w.alive && s.stopped == r.stopped && s.migrateAttempted == r.migrateAttempted
      && OnlyAside(r.trace, s.trace)
  {
    assert OnlyAside(r.trace, r.trace);
    var (d2, e2) := RemoveDir(r.w.failed, f.clearFailed);
    var m2 := Moment(FailedCleared, r.w.(failed := d2));
    AsideNext(r.trace, r.trace, m2);
    var (a3, d3, e3) := RenameDir(r.w.app, d2, f.park);
    var m3 := Moment(Parked, m2.w.(app := a3, failed := d3));
    AsideNext(r.trace, r.trace + [m2], m3);
    var m4 := Moment(Discarded, m3.w.(app := RemoveDir(a3, f.discard).0));
    AsideNext(r.trace, r.trace + [m2] + [m3], m4);
    hide RemoveDir, RenameDir, IsException, OnlyAside;
  }

  lemma BringBackSteps(r: Run, f: Fates)
    ensures var s := BringBack(r, f);
      && s.w.alive == r.w.alive && s.stopped == r.stopped && s.migrateAttempted == r.migrateAttempted
      && (s.trace == r.trace || s.trace == r.trace + [Moment(AppRestored, s.w)])
  {
  }

  /** The database is restored under a live process of this cycle exactly when the `try` body left a
      child that no handle holds, of the migration or of the app, and the rollback went on to the
      restore. No other failure of `migrate`, `AppProcess.stop` or `start` leads there. */
  lemma DbRestoredQuietly(w: World, backup: nat, f: Fates)
    requires PidsBelow(w)
    ensures var trace := Cycle(w, backup, f).trace;
      !RestoresQuietly(w, trace) <==> LeavesChild(trace, f) && Reaches(trace, DbRestored)
  {
    if !w.staged.Absent? {
      ForwardProcesses(w, f);
      var r := Forward(w, f);
      ForwardCut(w, f);
      if r.raised.Some? {
        RollbackProcesses(w, r, backup, f);
      } else {
        var s := Cycle(w, backup, f);
        assert s.trace == r.trace + [Moment(Cleaned, s.w)];
      }
    }
  }

  lemma ForwardCut(w: World, f: Fates)
    ensures Forward(w, f).cut.None?
  {
    var r := Vacate(w, f);
    assert r.cut.None?;
    var i := Install(r, f);
    assert i.cut.None?;
  }

  function CalmFates(): Fates {
    Fates(Exits, RemoveFate(Nothing, None), Done, None, Done, None, None,
          Migrates(Db(1, false, false)), Spawns, HealthFate(Db(1, false, false), true, None),
          Exits, RemoveFate(Nothing, None), Done, RemoveFate(Nothing, None),
          Done, Restored, Spawns, RemoveFate(Nothing, None))
  }

  /** The exception is real: one interrupt inside `start` and the restore runs over a live child. */
  lemma OrphanedRestore()
    ensures
      var w := World(Intact(0), Absent, Intact(1), Absent, Db(0, false, false), None, map[], 0);
      !RestoresQuietly(w, Cycle(w, 0, CalmFates().(start := Orphans(0))).trace)
  {
    var w := World(Intact(0), Absent, Intact(1), Absent, Db(0, false, false), None, map[], 0);
    var f := CalmFates().(start := Orphans(0));
    var r := Forward(w, f);
    assert r.trace[5].step == Started;
    assert r.w.alive == map[0 := Intact(1)];
    var s := BringBack(SetAside(BackStop(r, f), f), f);
    assert s.w.app == Intact(0);
    var d := RevertDb(s, 0, f);
    var all := Cycle(w, 0, f);
    assert d.trace[|d.trace| - 1] == Moment(DbRestored, d.w);
    assert all.trace[|d.trace| - 1] == d.trace[|d.trace| - 1];
    assert 0 in d.w.alive && Tracked(w, 0);
  }

  /** So is the other one: the operator's Ctrl+C during the migration, and the restore runs over the
      alembic child. */
  lemma BrokenMigrationRestore()
    ensures
      var w := World(Intact(0), Absent, Intact(1), Absent, Db(0, false, false), None, map[], 0);
      !RestoresQuietly(w, Cycle(w, 0, CalmFates().(migrate := BrokenOff(Db(1, true, true), Interrupt(0), false))).trace)
  {
    var w := World(Intact(0), Absent, Intact(1), Absent, Db(0, false, false), None, map[], 0);
    var f := CalmFates().(migrate := BrokenOff(Db(1, true, true), Interrupt(0), false));
    var r := Forward(w, f);
    assert r.trace[4].step == Migrated;
    assert r.w.alive == map[0 := Intact(1)];
    var s := BringBack(SetAside(BackStop(r, f), f), f);
    assert s.w.app == Intact(0);
    var d := RevertDb(s, 0, f);
    var all := Cycle(w, 0, f);
    assert d.trace[|d.trace| - 1] == Moment(DbRestored, d.w);
    assert all.trace[|d.trace| - 1] == d.trace[|d.trace| - 1];
    assert 0 in d.w.alive && Tracked(w, 0);
  }

  /* ---------- when is `app` gone after a cycle ---------- */

  predicate Interrupts(w: World, fate: StopFate) {
    w.owned.Some? && !StopsCleanly(w, fate) && fate.e.Interrupt?
  }

  /** `failed` is the forward run. Either the two renames were cut apart (an interrupt before the
      first one was flagged, an interrupted second stop, or a restoring rename that does not happen),
      or the swapped-in code was put aside and the restoring rename did not follow. */
  predicate LosesApp(r: Run, f: Fates) {
    if r.w.app.Absent? then
      !r.prevRenamed || Interrupts(r.w, f.stop2) || !f.restore.Done?
    else
      && r.stagedSwapped && !Interrupts(r.w, f.stop2) && f.clearFailed.cut.None? && !f.park.Cut?
      && (if Parks(r.w, f) then !f.restore.Done?
          else f.discard.left.Nothing? && (f.discard.cut.Some? || !f.restore.Done?))
  }

  /** Exactly when a cycle that began with `app` present ends without it. */
  lemma AppLostExactly(w: World, backup: nat, f: Fates)
    requires !w.app.Absent?
    ensures var r := Forward(w, f);
      Cycle(w, backup, f).w.app.Absent? <==>
        !w.staged.Absent? && r.raised.Some? && LosesApp(r, f)
  {
    if !w.staged.Absent? {
      var r := Forward(w, f);
      ForwardShape(w, f);
      if r.raised.Some? {
        RollbackLosesApp(r, backup, f);
      }
    }
  }

  /** One interrupt is enough: between the first rename and its flag, and the handler sees nothing to undo. */
  lemma AppLostUnflagged()
    ensures
      var w := World(Intact(0), Absent, Intact(1), Absent, Db(0, false, false), None, map[], 0);
      Cycle(w, 0, CalmFates().(flagPrev := Some(0))).w.app.Absent?
  {
    var w := World(Intact(0), Absent, Intact(1), Absent, Db(0, false, false), None, map[], 0);
    var f := CalmFates().(flagPrev := Some(0));
    AppLostExactly(w, 0, f);
    hide Cycle;
  }

  lemma RollbackLosesApp(r: Run, backup: nat, f: Fates)
    requires r.cut.None?
    requires r.prevRenamed ==> !r.w.prev.Absent?
    requires r.stagedSwapped ==> r.prevRenamed && !r.w.app.Absent?
    ensures Rollback(r, backup, f).w.app.Absent? <==> LosesApp(r, f)
  {
    var r1 := BackStop(r, f);
    assert r1.cut.Some? <==> Interrupts(r.w, f.stop2);
    PutAsideShape(r1, f);
    RevertAndRestartDirs(BringBack(SetAside(r1, f), f), backup, f);
  }

  lemma RevertAndRestartDirs(r: Run, backup: nat, f: Fates)
    ensures var s := Restart(RevertDb(r, backup, f), f);
      s.w.app == r.w.app && s.w.prev == r.w.prev && s.w.staged == r.w.staged && s.w.failed == r.w.failed
  {
  }

  lemma ForwardShape(w: World, f: Fates)
    requires !w.app.Absent? && !w.staged.Absent?
    ensures var r := Forward(w, f);
      && r.cut.None?
      && (r.raised.None? ==> !r.w.app.Absent?)
      && (r.stagedSwapped ==> r.prevRenamed && !r.w.app.Absent?)
      && (r.prevRenamed ==> !r.w.prev.Absent?)
  {
    var r := Vacate(w, f);
    assert r.cut.None? && !r.stagedSwapped && r.w.staged == w.staged;
    assert r.raised.None? ==> r.prevRenamed && r.w.prev == w.app;
    assert r.prevRenamed ==> r.w.app.Absent?;
    var i := Install(r, f);
    assert r.raised.None? && i.raised.None? ==> i.w.app == w.staged;
  }

  lemma PutAsideShape(r: Run, f: Fates)
    requires r.prevRenamed ==> !r.w.prev.Absent?
    requires r.stagedSwapped ==> r.prevRenamed && !r.w.app.Absent?
    ensures var s := BringBack(SetAside(r, f), f);
      s.w.app.Absent? <==>
        if r.w.app.Absent? then r.cut.Some? || !r.prevRenamed || !f.restore.Done?
        else
          && r.stagedSwapped && r.cut.None? && f.clearFailed.cut.None? && !f.park.Cut?
          && (if Parks(r.w, f) then !f.restore.Done?
              else f.discard.left.Nothing? && (f.discard.cut.Some? || !f.restore.Done?))
  {
    var s := SetAside(r, f);
    assert s.prevRenamed == r.prevRenamed && s.w.prev == r.w.prev;
  }
}
