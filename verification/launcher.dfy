/** The launcher as it is written: one install root updated in place. Each method is proved equal to
    the function of the same step in `Swap` and `Ticks`, so every result proved there is about it. */
module Launcher {
  import opened Base
  import opened Swap
  import opened Ticks

  /** One answer of the app while it is being polled. */
  datatype Probe = Refused | Status(code: nat, version: Option<string>)

  predicate Answers(p: Probe, expected: Option<string>) {
    p.Status? &&
    if expected.None? then p.code != 0 else p.code == 200 && p.version == expected
  }

  /** adapters.health_ok: `probes` are the polls that fit before the deadline. */
  method HealthOk(probes: seq<Probe>, expected: Option<string>) returns (ok: bool)
    ensures ok <==> exists i | 0 <= i < |probes| ::
      probes[i].Status? && if expected.None? then probes[i].code != 0
                           else probes[i].code == 200 && probes[i].version == expected
  {
    var k := 0;
    while k < |probes|
      invariant 0 <= k <= |probes|
      invariant forall i | 0 <= i < k :: !Answers(probes[i], expected)
    {
      if Answers(probes[k], expected) {
        return true;
      }
      k := k + 1;
    }
    return false;
  }

  class InstallRoot {
    var app: Dir
    var prev: Dir
    var staged: Dir
    var failed: Dir
    var db: Db
    var proc: Option<nat>
    var alive: map<nat, Dir>
    var spawned: nat
    var marker: Option<Marker>
    var aside: Option<Marker>
    ghost var trace: seq<Moment>

    constructor (w: World, marker: Option<Marker>)
      ensures Now() == w && At() == Home(w, marker, None) && trace == []
    {
      app, prev, staged, failed := w.app, w.prev, w.staged, w.failed;
      db, proc, alive, spawned := w.db, w.owned, w.alive, w.spawned;
      this.marker, aside, trace := marker, None, [];
    }

    ghost function Now(): World
      reads this
    {
      World(app, prev, staged, failed, db, proc, alive, spawned)
    }

    ghost function At(): Home
      reads this
    {
      Home(Now(), marker, aside)
    }

    ghost method Note(step: Step)
      modifies `trace
      ensures trace == old(trace) + [Moment(step, Now())]
    {
      trace := trace + [Moment(step, Now())];
    }

    method Stop(fate: StopFate) returns (e: Option<Exn>)
      modifies `proc, `alive
      ensures (Now(), e) == StopApp(old(Now()), fate)
    {
      if proc.None? {
        return None;
      }
      if fate.TerminateRaises? {
        return Some(fate.e);
      }
      e := None;
      // wait, then kill and wait again: the child is gone when a wait returns
      if fate.Exits? || fate.ExitsAfterKill? {
        alive := alive - {proc.value};
      } else {
        e := Some(fate.e);
        if !fate.KillRaises? && fate.dies {
          alive := alive - {proc.value};
        }
      }
      // finally
      proc := None;
    }

    method Start(fate: StartFate) returns (e: Option<Exn>)
      modifies `proc, `alive, `spawned
      ensures (Now(), e) == StartApp(old(Now()), fate)
    {
      if fate.SpawnRaises? {
        return Some(fate.e);
      }
      if app.Absent? {
        return Some(OsError(0));
      }
      var pid := spawned;
      alive, spawned := alive[pid := app], spawned + 1;
      if fate.Orphans? {
        return Some(Interrupt(fate.n));
      }
      proc := Some(pid);
      return None;
    }

    /** adapters.migrate: the alembic child has no handle that outlives the call. */
    method Migrate(fate: MigrateFate) returns (e: Option<Exn>)
      modifies `db, `alive, `spawned
      ensures (Now(), e) == RunMigration(old(Now()), fate)
    {
      if fate.ChildRaises? {
        return Some(fate.e);
      }
      if app.Absent? {
        return Some(OsError(0));
      }
      db := fate.db;
      match fate {
        case ExitsNonzero(_, n) => return Some(Failure(n));
        case BrokenOff(_, raised, dies) =>
          if !dies {
            alive, spawned := alive[spawned := app], spawned + 1;
          }
          return Some(raised);
        case _ => return None;
      }
    }

    method RestoreDb(backup: nat, fate: CopyFate) returns (e: Option<Exn>)
      modifies `db
      ensures (db, e) == CopyBack(old(db), backup, fate)
    {
      if fate.CopyRaises? {
        db := db.(main := fate.main);
        return Some(fate.e);
      }
      db := db.(main := backup);
      if fate.WalRaises? {
        return Some(fate.e);
      }
      db := db.(wal := false);
      if fate.ShmRaises? {
        return Some(fate.e);
      }
      db := db.(shm := false);
      return None;
    }

    /** The `try` body with its three progress flags. */
    method TryUpdate(f: Fates)
      returns (e: Option<Exn>, prevRenamed: bool, stagedSwapped: bool, migrateAttempted: bool)
      modifies `app, `prev, `staged, `db, `proc, `alive, `spawned, `trace
      ensures var r := Forward(old(Now()), f);
        && Now() == r.w && trace == old(trace) + r.trace && e == r.raised
        && prevRenamed == r.prevRenamed && stagedSwapped == r.stagedSwapped
        && migrateAttempted == r.migrateAttempted
    {
      stagedSwapped, migrateAttempted := false, false;
      ghost var before, log := Now(), trace;
      e, prevRenamed := MakeRoom(f);
      ghost var r := Vacate(before, f);
      VacateFlags(before, f);
      if e.Some? { return; }
      NewCodeFlags(r, f);
      hide Vacate, Install, Launch;
      e, stagedSwapped, migrateAttempted := InstallAndRun(r, log, f);
    }

    /** stop_app(), rmtree(app_prev), os.replace(app, app_prev) and its flag. */
    method MakeRoom(f: Fates) returns (e: Option<Exn>, prevRenamed: bool)
      modifies `app, `prev, `proc, `alive, `trace
      ensures var r := Vacate(old(Now()), f);
        Now() == r.w && trace == old(trace) + r.trace && e == r.raised && prevRenamed == r.prevRenamed
    {
      prevRenamed := false;
      ghost var log, r := trace, Begin(Now());
      hide StopApp, RemoveDir, RenameDir;
      e := Stop(f.stop);
      Note(Stopped);
      r := r.Try(Stopped, Now(), e);
      assert trace == log + r.trace;
      if e.Some? { return; }
      var p := RemoveDir(prev, f.clearPrev);
      prev, e := p.0, p.1;
      Note(PrevCleared);
      r := r.Try(PrevCleared, Now(), e);
      assert trace == log + r.trace;
      if e.Some? { return; }
      var m := RenameDir(app, prev, f.rename);
      app, prev, e := m.0, m.1, m.2;
      Note(AppRenamed);
      r := r.Try(AppRenamed, Now(), e);
      assert trace == log + r.trace;
      if e.Some? { return; }
      if f.flagPrev.Some? {
        e := Some(Interrupt(f.flagPrev.value));
        return;
      }
      prevRenamed := true;
    }

    /** os.replace(staged, app), the two flags, and on to the new code. */
    method InstallAndRun(ghost r: Run, ghost log: seq<Moment>, f: Fates)
      returns (e: Option<Exn>, stagedSwapped: bool, migrateAttempted: bool)
      requires Now() == r.w && trace == log + r.trace && r.raised.None? && !r.stagedSwapped && !r.migrateAttempted
      modifies `app, `staged, `db, `proc, `alive, `spawned, `trace
      ensures var i := Install(r, f);
        var l := if i.raised.Some? then i else Launch(i, f);
        && Now() == l.w && trace == log + l.trace && e == l.raised
        && stagedSwapped == l.stagedSwapped && migrateAttempted == l.migrateAttempted
    {
      stagedSwapped, migrateAttempted := false, false;
      var m := RenameDir(staged, app, f.install);
      staged, app, e := m.0, m.1, m.2;
      Note(StagedInstalled);
      ghost var i := Install(r, f);
      assert Now() == i.w && trace == log + i.trace;
      if e.Some? { return; }
      if f.flagSwapped.Some? {
        e := Some(Interrupt(f.flagSwapped.value));
        return;
      }
      stagedSwapped := true;
      if f.flagMigrate.Some? {
        e := Some(Interrupt(f.flagMigrate.value));
        return;
      }
      migrateAttempted := true;
      e := RunNewCode(i, log, f);
    }

    /** migrate(), start_app(), health_ok() */
    method RunNewCode(ghost r: Run, ghost log: seq<Moment>, f: Fates) returns (e: Option<Exn>)
      requires Now() == r.w && trace == log + r.trace
      modifies `db, `proc, `alive, `spawned, `trace
      ensures var l := Launch(r, f); Now() == l.w && trace == log + l.trace && e == l.raised
    {
      hide RunMigration, StartApp;
      e := Migrate(f.migrate);
      Note(Migrated);
      ghost var r5 := r.Try(Migrated, Now(), e);
      assert trace == log + r5.trace;
      if e.Some? { return; }
      e := Start(f.start);
      Note(Started);
      ghost var r6 := r5.Try(Started, Now(), e);
      assert trace == log + r6.trace;
      if e.Some? { return; }
      db, e := f.health.db, f.health.raised;
      if e.None? && !f.health.passes {
        e := Some(HealthFailed);
      }
      Note(Probed);
      assert trace == log + r6.Try(Probed, Now(), e).trace;
    }

    /** The `except BaseException` handler; `cut` is an exception that escapes it. */
    method RollBack(ghost r: Run, ghost log: seq<Moment>, backup: nat, f: Fates,
                    prevRenamed: bool, stagedSwapped: bool, migrateAttempted: bool)
      returns (cut: Option<Exn>)
      requires Now() == r.w && trace == log + r.trace && r.cut.None?
      requires prevRenamed == r.prevRenamed && stagedSwapped == r.stagedSwapped
      requires migrateAttempted == r.migrateAttempted
      modifies `app, `prev, `failed, `db, `proc, `alive, `spawned, `trace
      ensures var s := Rollback(r, backup, f); Now() == s.w && trace == log + s.trace && cut == s.cut
    {
      var e := Stop(f.stop2);
      var stopped := e.None?;
      Note(BackStopped);
      ghost var r1 := BackStop(r, f);
      assert Now() == r1.w && trace == log + r1.trace;
      hide BackStop, StopApp, BringBack, RevertDb, Restart;
      if !IsException(e) {
        CutEnds(SetAside(r1, f), backup, f);
        return e;
      }
      if stagedSwapped {
        cut := PutAside(r1, log, f);
        if cut.Some? {
          CutEnds(SetAside(r1, f), backup, f);
          return;
        }
      }
      ghost var r2 := SetAside(r1, f);
      assert Now() == r2.w && trace == log + r2.trace && r2.cut.None?;
      cut := BringBackAndRestart(r2, log, backup, f, prevRenamed, migrateAttempted, stopped);
    }

    /** The rest of the handler: restore `app`, then the database and the old code. */
    method BringBackAndRestart(ghost r: Run, ghost log: seq<Moment>, backup: nat, f: Fates,
                               prevRenamed: bool, migrateAttempted: bool, stopped: bool)
      returns (cut: Option<Exn>)
      requires Now() == r.w && trace == log + r.trace && r.cut.None?
      requires prevRenamed == r.prevRenamed && migrateAttempted == r.migrateAttempted && stopped == r.stopped
      modifies `app, `prev, `db, `proc, `alive, `spawned, `trace
      ensures var s := Restart(RevertDb(BringBack(r, f), backup, f), f);
        Now() == s.w && trace == log + s.trace && cut == s.cut
    {
      ghost var r3 := BringBack(r, f);
      if prevRenamed && app.Absent? {
        var m := RenameDir(prev, app, f.restore);
        prev, app := m.0, m.1;
        Note(AppRestored);
        if !IsException(m.2) {
          assert Now() == r3.w && trace == log + r3.trace && r3.cut == m.2;
          return m.2;
        }
      }
      assert Now() == r3.w && trace == log + r3.trace && r3.cut.None?;
      hide BringBack;
      cut := RevertAndRestart(r3, log, backup, f, migrateAttempted, stopped);
    }

    /** The database reverts only when migration was attempted and the stop succeeded; then the old code starts. */
    method RevertAndRestart(ghost r: Run, ghost log: seq<Moment>, backup: nat, f: Fates, migrateAttempted: bool, stopped: bool)
      returns (cut: Option<Exn>)
      requires Now() == r.w && trace == log + r.trace && r.cut.None?
      requires migrateAttempted == r.migrateAttempted && stopped == r.stopped
      modifies `db, `proc, `alive, `spawned, `trace
      ensures var s := Restart(RevertDb(r, backup, f), f);
        Now() == s.w && trace == log + s.trace && cut == s.cut
    {
      var e: Option<Exn> := None;
      ghost var r4 := RevertDb(r, backup, f);
      if migrateAttempted && stopped {
        e := RestoreDb(backup, f.copy);
        Note(DbRestored);
        if !IsException(e) {
          assert Now() == r4.w && trace == log + r4.trace && r4.cut == e;
          return e;
        }
      }
      assert Now() == r4.w && trace == log + r4.trace && r4.cut.None?;
      e := Start(f.start2);
      Note(Restarted);
      return if IsException(e) then None else e;
    }

    /** Clear app_failed, park the bad code there, discard it when an OSError forbids that. */
    method PutAside(ghost r: Run, ghost log: seq<Moment>, f: Fates) returns (cut: Option<Exn>)
      requires Now() == r.w && trace == log + r.trace && r.cut.None? && r.stagedSwapped
      modifies `app, `failed, `trace
      ensures var s := SetAside(r, f); Now() == s.w && trace == log + s.trace && cut == s.cut
    {
      hide RemoveDir, RenameDir, IsException;
      var d := RemoveDir(failed, f.clearFailed);
      failed, cut := d.0, d.1;
      Note(FailedCleared);
      ghost var r2 := r.Handle(FailedCleared, Now(), cut, false);
      assert trace == log + r2.trace;
      if cut.Some? { return; }
      var m := RenameDir(app, failed, f.park);
      app, failed, cut := m.0, m.1, m.2;
      Note(Parked);
      ghost var r3 := r2.Handle(Parked, Now(), cut, IsException(cut));
      assert trace == log + r3.trace;
      if cut.None? || !IsException(cut) { return; }
      d := RemoveDir(app, f.discard);
      app, cut := d.0, d.1;
      Note(Discarded);
      assert trace == log + r3.Handle(Discarded, Now(), cut, false).trace;
    }

    /** apply_update */
    method ApplyUpdate(backup: nat, f: Fates) returns (e: Option<Exn>)
      modifies `app, `prev, `staged, `failed, `db, `proc, `alive, `spawned, `trace
      ensures var r := Cycle(old(Now()), backup, f);
        Now() == r.w && trace == old(trace) + r.trace && e == r.Outcome()
    {
      if staged.Absent? {
        return Some(StagedMissing);
      }
      ghost var before, log := Now(), trace;
      var prevRenamed, stagedSwapped, migrateAttempted;
      e, prevRenamed, stagedSwapped, migrateAttempted := TryUpdate(f);
      ghost var r := Forward(before, f);
      ForwardCut(before, f);
      if e.Some? {
        var cut := RollBack(r, log, backup, f, prevRenamed, stagedSwapped, migrateAttempted);
        RollbackOutcome(r, backup, f);
        return if cut.Some? then cut else e;
      }
      var p := RemoveDir(prev, f.cleanup);
      prev, e := p.0, p.1;
      Note(Cleaned);
    }

    method QuarantineMarker(fate: RenameFate) returns (e: Option<Exn>)
      modifies `marker, `aside
      ensures (At(), e) == Quarantine(old(At()), fate)
    {
      if fate.Cut? {
        return Some(Interrupt(fate.n));
      }
      if fate.Done? {
        marker, aside := None, marker;
      }
      return None;
    }

    /** run_once */
    method RunOnceHere(t: TickFate) returns (ran: bool, e: Option<Exn>)
      modifies this
      ensures TickResult(At(), ran, e) == RunOnce(old(At()), t)
    {
      if marker.None? {
        return false, None;
      }
      if t.read.ReadRaises? {
        return false, if t.read.e.OsError? then None else Some(t.read.e);
      }
      var pending := ParsePending(marker.value);
      if pending.None? || pending.value.stagedDir != STAGED_DIR || staged.Absent? {
        e := QuarantineMarker(t.quarantine);
        return false, e;
      }
      e := ApplyUpdate(t.backup, t.cycle);
      if e.Some? {
        var cut := QuarantineMarker(t.quarantine);
        return false, if cut.Some? then cut else e;
      }
      if t.unlink.Some? {
        return false, t.unlink;
      }
      marker := None;
      return true, None;
    }

    /** boot: the app starts only on a migrated schema. */
    method Boot(migrate: MigrateFate, start: StartFate) returns (e: Option<Exn>)
      modifies `db, `proc, `alive, `spawned
      ensures var (migrated, raised) := RunMigration(old(Now()), migrate);
        if raised.Some? then Now() == migrated && e == raised else (Now(), e) == StartApp(migrated, start)
    {
      e := Migrate(migrate);
      if e.None? {
        e := Start(start);
      }
    }

    /** What the running app may do between two ticks: stage bundle number `next`, place a marker. */
    method Meanwhile(r: Round, ghost h: History, next: nat)
      requires h.home == At() && h.next == next
      modifies `staged, `marker
      ensures Prepare(h, r).home == At()
    {
      if r.stages {
        staged := Intact(next);
      }
      if r.place.Some? {
        marker := r.place;
      }
    }

    /** The watch loop of main(): a failed tick is reported and the next one follows; an interrupt, in
        a tick or after the last of `rounds`, ends the loop. `rounds[..k]` are the ticks that ran. */
    method Watch(rounds: seq<Round>, ghost h: History, first: nat) returns (k: nat)
      requires h.home == At() && h.next == first
      modifies this
      ensures k <= |rounds| && At() == Play(h, rounds[..k]).home
      ensures k > 0 ==> GoesOn(h, rounds, k - 1)
      ensures k < |rounds| ==> k > 0 && Ends(h, rounds[..k])
    {
      k := 0;
      var next := first;
      PlayNothing(h, rounds);
      hide RunOnce, Prepare, Play, Ends, GoesOn;
      while k < |rounds|
        invariant 0 <= k <= |rounds|
        invariant At() == Play(h, rounds[..k]).home && next == Play(h, rounds[..k]).next
        invariant GoesOn(h, rounds, k)
      {
        ghost var done := Play(h, rounds[..k]);
        PlayNext(h, rounds, k);
        EndsMeaning(h, rounds, k);
        GoesOnNext(h, rounds, k);
        Meanwhile(rounds[k], done, next);
        next := if rounds[k].stages then next + 1 else next;
        var ran, e := RunOnceHere(rounds[k].tick);
        k := k + 1;
        if !IsException(e) {
          return;
        }
      }
    }

    /** main() after a successful boot: whatever ended the loop, the app is stopped last. */
    method WatchAndStop(rounds: seq<Round>, ghost h: History, first: nat, stop: StopFate) returns (k: nat, e: Option<Exn>)
      requires h.home == At() && h.next == first
      modifies this
      ensures k <= |rounds| && (k < |rounds| ==> k > 0 && Ends(h, rounds[..k]))
      ensures var last := Play(h, rounds[..k]).home;
        var (w, raised) := StopApp(last.w, stop); At() == last.(w := w) && e == raised
    {
      k := Watch(rounds, h, first);
      e := Stop(stop);
    }
  }

  /** An exception that escapes the handler ends it. */
  lemma CutEnds(r: Run, backup: nat, f: Fates)
    requires r.cut.Some?
    ensures Restart(RevertDb(BringBack(r, f), backup, f), f) == r
  {
  }

  lemma VacateFlags(w: World, f: Fates)
    ensures !Vacate(w, f).stagedSwapped && !Vacate(w, f).migrateAttempted
  {
    hide StopApp, RemoveDir, RenameDir;
  }

  lemma NewCodeFlags(r: Run, f: Fates)
    ensures Install(r, f).prevRenamed == r.prevRenamed
    ensures Launch(Install(r, f), f).prevRenamed == r.prevRenamed
  {
    LaunchKeepsDirs(Install(r, f), f);
    hide RenameDir, Launch;
  }

  /** The last of these rounds raised something `except Exception` does not catch. */
  ghost predicate Ends(h: History, rounds: seq<Round>)
    requires rounds != []
  {
    var last := rounds[|rounds| - 1];
    !IsException(RunOnce(Prepare(Play(h, rounds[..|rounds| - 1]), last).home, last.tick).e)
  }

  /** None of the first `k` ticks ended the loop. */
  ghost predicate GoesOn(h: History, rounds: seq<Round>, k: nat)
    requires k <= |rounds|
  {
    forall i | 0 < i <= k :: !Ends(h, rounds[..i])
  }

  lemma GoesOnNext(h: History, rounds: seq<Round>, k: nat)
    requires k < |rounds|
    ensures GoesOn(h, rounds, k + 1) <==> GoesOn(h, rounds, k) && !Ends(h, rounds[..k + 1])
    ensures GoesOn(h, rounds, 0)
  {
    hide Ends;
  }

  lemma EndsMeaning(h: History, rounds: seq<Round>, k: nat)
    requires k < |rounds|
    ensures Ends(h, rounds[..k + 1])
            <==> !IsException(RunOnce(Prepare(Play(h, rounds[..k]), rounds[k]).home, rounds[k].tick).e)
  {
    hide RunOnce, Prepare;
    assert rounds[..k + 1][..k] == rounds[..k];
  }

  lemma PlayNothing(h: History, rounds: seq<Round>)
    ensures Play(h, rounds[..0]) == h && GoesOn(h, rounds, 0)
  {
  }
}
