/** When an update cycle succeeds, and what a success or a failed health check leaves: the whole world,
    read off the fates and the world before, for every fate. */
module Outcomes {
  import opened Base
  import opened Swap
  import opened Ticks

  /** `app` can be moved to `app_prev`, and the move is flagged. */
  predicate MakesRoom(w: World, f: Fates) {
    && !w.app.Absent? && StopsCleanly(w, f.stop)
    && f.clearPrev.cut.None? && (w.prev.Absent? || f.clearPrev.left.Nothing?)
    && f.rename.Done? && f.flagPrev.None?
  }

  /** The staged bundle gets into `app`, its migration runs and its process is spawned. */
  predicate ComesUp(f: Fates) {
    && f.install.Done? && f.flagSwapped.None? && f.flagMigrate.None?
    && f.migrate.Migrates? && f.start.Spawns?
  }

  predicate Healthy(f: Fates) {
    f.health.raised.None? && f.health.passes
  }

  /** Every step up to the health check went well, and the check passed. */
  predicate AllGoesWell(w: World, f: Fates) {
    !w.staged.Absent? && MakesRoom(w, f) && ComesUp(f) && Healthy(f)
  }

  /** The processes without the one the launcher owned. */
  function Others(w: World): map<nat, Dir> {
    if w.owned.None? then w.alive else w.alive - {w.owned.value}
  }

  /** The new bundle runs alone beside what the launcher does not own; the old one is in `app_prev`. */
  function Upgraded(w: World, db: Db): World {
    World(w.staged, w.app, Absent, w.failed, db,
          Some(w.spawned), Others(w)[w.spawned := w.staged], w.spawned + 1)
  }

  lemma StopExactly(w: World, fate: StopFate)
    ensures StopApp(w, fate).1.None? <==> StopsCleanly(w, fate)
    ensures StopsCleanly(w, fate) ==> StopApp(w, fate).0 == w.(owned := None, alive := Others(w))
  {
  }

  lemma VacateExactly(w: World, f: Fates)
    ensures var r := Vacate(w, f);
      && (r.raised.None? <==> MakesRoom(w, f))
      && (MakesRoom(w, f) ==> r.w == w.(app := Absent, prev := w.app, owned := None, alive := Others(w)))
  {
    StopExactly(w, f.stop);
    StopKeepsDirs(w, f.stop);
    hide StopApp, StopsCleanly, Others;
  }

  lemma InstallExactly(r: Run, f: Fates)
    requires r.raised.None? && r.w.app.Absent? && !r.w.staged.Absent?
    ensures var i := Install(r, f);
      && (i.raised.None? <==> f.install.Done? && f.flagSwapped.None? && f.flagMigrate.None?)
      && (i.raised.None? ==> i.w == r.w.(app := r.w.staged, staged := Absent))
  {
  }

  lemma LaunchExactly(r: Run, f: Fates)
    requires r.raised.None? && !r.w.app.Absent?
    ensures var l := Launch(r, f);
      && (l.raised.None? <==> f.migrate.Migrates? && f.start.Spawns? && Healthy(f))
      && (f.migrate.Migrates? && f.start.Spawns? ==>
            && l.w == r.w.(db := f.health.db, owned := Some(r.w.spawned),
                           alive := r.w.alive[r.w.spawned := r.w.app], spawned := r.w.spawned + 1)
            && (f.health.raised.None? && !f.health.passes ==> l.raised == Some(HealthFailed)))
  {
    var (w5, e5) := RunMigration(r.w, f.migrate);
    assert e5.None? <==> f.migrate.Migrates?;
    assert e5.None? ==> w5 == r.w.(db := w5.db);
    hide RunMigration;
    assert e5.None? ==> (StartApp(w5, f.start).1.None? <==> f.start.Spawns?);
  }

  /** The `try` body ends without an exception exactly when everything went well. */
  lemma ForwardExactly(w: World, f: Fates)
    requires !w.staged.Absent?
    ensures var r := Forward(w, f);
      && (r.raised.None? <==> AllGoesWell(w, f))
      && (MakesRoom(w, f) && ComesUp(f) ==> r.w == Upgraded(w, f.health.db))
      && (MakesRoom(w, f) && ComesUp(f) && f.health.raised.None? && !f.health.passes ==> r.raised == Some(HealthFailed))
  {
    VacateExactly(w, f);
    var r := Vacate(w, f);
    hide Vacate, MakesRoom, Others;
    if r.raised.None? {
      InstallExactly(r, f);
      var i := Install(r, f);
      hide Install;
      if i.raised.None? {
        LaunchExactly(i, f);
      }
      hide Launch;
    }
  }

  /* ---------- the old bundle is removed after a passed health check only ---------- */

  lemma NeverCleans(w: World, f: Fates)
    ensures !Reaches(Forward(w, f).trace, Cleaned)
  {
    var r := Vacate(w, f);
    assert !Reaches(r.trace, Cleaned) by { hide StopApp, RemoveDir, RenameDir; }
    hide Vacate;
    InstallCleansNothing(r, f);
    hide Install, Launch;
    LaunchCleansNothing(Install(r, f), f);
  }

  lemma InstallCleansNothing(r: Run, f: Fates)
    requires !Reaches(r.trace, Cleaned)
    ensures !Reaches(Install(r, f).trace, Cleaned)
  {
    hide RenameDir;
    ReachesNext(r.trace, Moment(StagedInstalled, Install(r, f).w), Cleaned);
    hide Reaches;
  }

  lemma LaunchCleansNothing(r: Run, f: Fates)
    requires !Reaches(r.trace, Cleaned)
    ensures !Reaches(Launch(r, f).trace, Cleaned)
  {
    hide RunMigration, StartApp;
    var (w5, e5) := RunMigration(r.w, f.migrate);
    var (w6, e6) := StartApp(w5, f.start);
    var t5 := r.trace + [Moment(Migrated, w5)];
    var t6 := t5 + [Moment(Started, w6)];
    ReachesNext(r.trace, Moment(Migrated, w5), Cleaned);
    ReachesNext(t5, Moment(Started, w6), Cleaned);
    ReachesNext(t6, Moment(Probed, w6.(db := f.health.db)), Cleaned);
    hide Reaches;
  }

  lemma RollbackCleansNothing(r: Run, backup: nat, f: Fates)
    requires !Reaches(r.trace, Cleaned)
    ensures !Reaches(Rollback(r, backup, f).trace, Cleaned)
  {
    var r1 := BackStop(r, f);
    assert r1.trace == r.trace + [Moment(BackStopped, r1.w)];
    ReachesNext(r.trace, Moment(BackStopped, r1.w), Cleaned);
    SetAsideSteps(r1, f);
    var r2 := SetAside(r1, f);
    BringBackSteps(r2, f);
    var r3 := BringBack(r2, f);
    RevertTrace(r.w, r3, backup, f);
    var r4 := RevertDb(r3, backup, f);
    RestartTrace(r4, f);
    hide BackStop, SetAside, BringBack, RevertDb, Restart, Reaches;
    ReachesBefore(r1.trace, r2.trace, Cleaned);
    ReachesNext(r2.trace, Moment(AppRestored, r3.w), Cleaned);
    ReachesNext(r3.trace, Moment(DbRestored, r4.w), Cleaned);
    ReachesNext(r4.trace, Moment(Restarted, Restart(r4, f).w), Cleaned);
  }

  /** A cycle returns normally exactly when every step went well, the health check passed and the removal
      of the old bundle was not interrupted; then the staged bundle is in `app` and runs. */
  lemma SucceedsExactly(w: World, backup: nat, f: Fates)
    ensures var r := Cycle(w, backup, f);
      && (r.Outcome().None? <==> AllGoesWell(w, f) && f.cleanup.cut.None?)
      && (AllGoesWell(w, f) ==>
            && r.w == Upgraded(w, f.health.db).(prev := r.w.prev)
            && r.w.owned.Some? && r.w.alive[r.w.owned.value] == w.staged
            && (f.cleanup.left.Nothing? ==> r.w.prev == Absent))
  {
    if !w.staged.Absent? {
      ForwardExactly(w, f);
      ForwardCut(w, f);
      var r := Forward(w, f);
      hide Forward, AllGoesWell, Others;
      if r.raised.Some? {
        RollbackOutcome(r, backup, f);
        hide Rollback;
      }
    }
  }

  /** Until then, and above all when the health check does not pass, nothing removes the old bundle: the
      cycle has no such moment, and at every moment and at the end `app` or `app_prev` holds it whole. */
  lemma KeptUntilHealthy(w: World, backup: nat, f: Fates, b: Bundle)
    requires w.app == Intact(b) && !AllGoesWell(w, f)
    ensures var r := Cycle(w, backup, f);
      && r.Outcome().Some? && !Reaches(r.trace, Cleaned)
      && (forall i | 0 <= i < |r.trace| :: Keeps(r.trace[i].w, b)) && Keeps(r.w, b)
  {
    SucceedsExactly(w, backup, f);
    OldBundleSurvives(w, backup, f, b);
    if !w.staged.Absent? {
      ForwardExactly(w, f);
      NeverCleans(w, f);
      RollbackCleansNothing(Forward(w, f), backup, f);
      hide Forward, Rollback, AllGoesWell, Keeps;
      assert !Reaches(Cycle(w, backup, f).trace, Cleaned);
    }
  }

  /* ---------- a failed health check is rolled back ---------- */

  /** Every step of the handler works. */
  predicate HandlerWorks(w: World, f: Fates) {
    && (f.stop2.Exits? || f.stop2.ExitsAfterKill?) && f.clearFailed.cut.None? && Parks(w, f)
    && f.restore.Done? && f.copy.Restored? && f.start2.Spawns?
  }

  /** A new version that comes up and does not get healthy is set aside: the old bundle is back in `app` and
      runs, the new one is kept in `app_failed`, the database is the backup, and the failure is raised. */
  lemma UnhealthyRollsBack(w: World, backup: nat, f: Fates)
    requires !w.staged.Absent? && MakesRoom(w, f) && ComesUp(f) && HandlerWorks(w, f) && PidsBelow(w)
    requires f.health.raised.None? && !f.health.passes
    ensures var r := Cycle(w, backup, f);
      && r.Outcome() == Some(HealthFailed)
      && r.w == World(w.app, Absent, Absent, w.staged, Db(backup, false, false),
                      Some(w.spawned + 1), Others(w)[w.spawned + 1 := w.app], w.spawned + 2)
  {
    ForwardExactly(w, f);
    ForwardFlags(w, f);
    ForwardCut(w, f);
    var r := Forward(w, f);
    hide Forward, MakesRoom, ComesUp;
    RolledBack(w, r, backup, f);
  }

  lemma ForwardFlags(w: World, f: Fates)
    requires !w.staged.Absent? && MakesRoom(w, f) && ComesUp(f)
    ensures var r := Forward(w, f); r.prevRenamed && r.stagedSwapped && r.migrateAttempted
  {
    VacateExactly(w, f);
    var r := Vacate(w, f);
    assert r.prevRenamed by { hide StopApp, RemoveDir, RenameDir; }
    InstallExactly(r, f);
    var i := Install(r, f);
    assert i.stagedSwapped && i.migrateAttempted && i.prevRenamed;
    hide Vacate, Install, RunMigration, StartApp;
  }

  lemma RolledBack(w: World, r: Run, backup: nat, f: Fates)
    requires r.w == Upgraded(w, f.health.db) && r.cut.None? && HandlerWorks(w, f) && PidsBelow(w)
    requires r.prevRenamed && r.stagedSwapped && r.migrateAttempted && !w.staged.Absent? && !w.app.Absent?
    ensures var s := Rollback(r, backup, f);
      && s.raised == r.raised && s.cut.None?
      && s.w == World(w.app, Absent, Absent, w.staged, Db(backup, false, false),
                      Some(w.spawned + 1), Others(w)[w.spawned + 1 := w.app], w.spawned + 2)
  {
    var r1 := BackStop(r, f);
    NewProcessGone(w);
    assert r1.stopped && r1.cut.None? && r1.w == r.w.(owned := None, alive := Others(w));
    hide BackStop, Others;
    var r2 := SetAside(r1, f);
    assert r2.w == r1.w.(app := Absent, failed := w.staged) && r2.cut.None? && r2.stopped;
    hide SetAside;
    var r3 := BringBack(r2, f);
    assert r3.w == r2.w.(app := w.app, prev := Absent) && r3.cut.None?;
    hide BringBack;
    var r4 := RevertDb(r3, backup, f);
    assert r4.w == r3.w.(db := Db(backup, false, false)) && r4.cut.None?;
    hide RevertDb;
  }

  lemma NewProcessGone(w: World)
    requires PidsBelow(w)
    ensures Others(w)[w.spawned := w.staged] - {w.spawned} == Others(w)
  {
    assert w.spawned !in Others(w);
  }

  /* ---------- one tick ---------- */

  /** A marker that is acted on: an object with exactly the three keys, two paths that stay inside the root,
      and the one staged directory, which is there. */
  lemma AcceptsExactly(h: Home)
    ensures Accepts(h) <==>
      && !h.w.staged.Absent? && h.marker.Some? && h.marker.value.Object?
      && var fields := h.marker.value.fields;
         && fields.Keys == {"staged_dir", "expected_version", "db_backup_path"}
         && (forall key | key == "staged_dir" || key == "db_backup_path" :: !fields[key].anchored && ".." !in fields[key].parts)
         && fields["staged_dir"].parts == ["staged"]
  {
    if h.marker.Some? && h.marker.value.Object? {
      var fields := h.marker.value.fields;
      if fields.Keys == REQUIRED_KEYS {
        assert "staged_dir" in fields && "db_backup_path" in fields;
      }
    }
  }

  /** A tick that runs: it read an accepted marker, the cycle succeeded, and the marker is gone. Then the
      staged bundle is in `app` and runs. */
  lemma TickRunsExactly(h: Home, t: TickFate)
    ensures var r := RunOnce(h, t);
      && (r.ran <==> h.marker.Some? && t.read.Reads? && Accepts(h)
                     && AllGoesWell(h.w, t.cycle) && t.cycle.cleanup.cut.None? && t.unlink.None?)
      && (r.ran ==>
            && r.e.None? && r.home.marker.None? && r.home.aside == h.aside
            && r.home.w == Upgraded(h.w, t.cycle.health.db).(prev := r.home.w.prev))
  {
    SucceedsExactly(h.w, t.backup, t.cycle);
    hide Cycle, AllGoesWell, Accepts, Upgraded;
  }

  /** Without a marker, or with one that cannot be read, a tick changes nothing; a marker that is just being
      written is left for the next tick without an exception. */
  lemma UnreadTick(h: Home, t: TickFate)
    requires h.marker.None? || t.read.ReadRaises?
    ensures var r := RunOnce(h, t);
      && r.home == h && !r.ran
      && (r.e.Some? <==> h.marker.Some? && !t.read.e.OsError?) && (r.e.Some? ==> r.e == Some(t.read.e))
  {
    hide Accepts, Cycle;
  }

  /** A marker that is refused, or whose cycle failed, is moved aside; a refused one touches nothing else. When it
      cannot be moved it stays, and that does not mask why the cycle failed. */
  lemma MarkerSetAside(h: Home, t: TickFate)
    requires h.marker.Some? && t.read.Reads? && !t.quarantine.Cut?
    requires !(Accepts(h) && AllGoesWell(h.w, t.cycle) && t.cycle.cleanup.cut.None?)
    ensures var r := RunOnce(h, t);
      && !r.ran && r.home.marker == (if t.quarantine.Done? then None else h.marker)
      && r.home.aside == (if t.quarantine.Done? then h.marker else h.aside)
      && (!Accepts(h) ==> r.e.None? && r.home.w == h.w)
      && (Accepts(h) ==> r.e.Some? && r.e == Cycle(h.w, t.backup, t.cycle).Outcome())
  {
    SucceedsExactly(h.w, t.backup, t.cycle);
    hide Cycle, AllGoesWell, Accepts;
  }
}
