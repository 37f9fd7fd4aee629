/** launcher/__main__.py: how one tick consumes the update marker, and what holds over any number of
    ticks while the running app may stage new bundles and place new markers in between. */
module Ticks {
  import opened Base
  import opened Swap

  /** A marker value after str(): `anchored` covers drive- and root-anchored paths. */
  datatype Field = Field(text: string, anchored: bool, parts: seq<string>)

  /** What reading pending.json yields. */
  datatype Marker = Undecodable | NotJson | NotObject | Object(fields: map<string, Field>)

  datatype Pending = Pending(stagedDir: seq<string>, expectedVersion: string, backupPath: seq<string>)

  const REQUIRED_KEYS: set<string> := {"staged_dir", "expected_version", "db_backup_path"}
  const STAGED_DIR: seq<string> := ["staged"]

  function Confine(path: Field): Option<seq<string>> {
    if ".." in path.parts || path.anchored then None else Some(path.parts)
  }

  /** parse_pending: None stands for the ValueError. */
  function ParsePending(m: Marker): Option<Pending> {
    if !m.Object? || m.fields.Keys != REQUIRED_KEYS then None
    else
      var staged, backup := Confine(m.fields["staged_dir"]), Confine(m.fields["db_backup_path"]);
      if staged.None? || backup.None? then None
      else Some(Pending(staged.value, m.fields["expected_version"].text, backup.value))
  }

  /** The install root as `run_once` sees it: directories and processes, the marker, its quarantine. */
  datatype Home = Home(w: World, marker: Option<Marker>, aside: Option<Marker>)

  /** `ReadRaises`: anything but the ValueErrors that `ParsePending` already decides. */
  datatype ReadFate = Reads | ReadRaises(e: Exn)

  /** `backup` is the content of the file the marker names. */
  datatype TickFate = TickFate(
    read: ReadFate, quarantine: RenameFate, unlink: Option<Exn>, backup: nat, cycle: Fates)

  datatype TickResult = TickResult(home: Home, ran: bool, e: Option<Exn>)

  /** _quarantine_marker: os.replace of a file overwrites, and its OSError is swallowed. */
  function Quarantine(h: Home, fate: RenameFate): (Home, Option<Exn>) {
    match fate
    case Done => (h.(marker := None, aside := h.marker), None)
    case Denied(_) => (h, None)
    case Cut(n) => (h, Some(Interrupt(n)))
  }

  /** The marker names the one directory apply_update renames, and that directory is there. */
  predicate Accepts(h: Home) {
    h.marker.Some? && !h.w.staged.Absent? &&
    var p := ParsePending(h.marker.value);
    p.Some? && p.value.stagedDir == STAGED_DIR
  }

  /** run_once */
  function RunOnce(h: Home, t: TickFate): TickResult {
    if h.marker.None? then TickResult(h, false, None)
    else if t.read.ReadRaises? then
      TickResult(h, false, if t.read.e.OsError? then None else Some(t.read.e))
    else if !Accepts(h) then
      var (h', e) := Quarantine(h, t.quarantine);
      TickResult(h', false, e)
    else
      var r := Cycle(h.w, t.backup, t.cycle);
      if r.Outcome().Some? then
        var (h', e) := Quarantine(h.(w := r.w), t.quarantine);
        TickResult(h', false, if e.Some? then e else r.Outcome())
      else if t.unlink.Some? then TickResult(h.(w := r.w), false, t.unlink)
      else TickResult(h.(w := r.w, marker := None), true, None)
  }

  /** A cycle begins only for an accepted marker; without one the world is untouched. */
  predicate Begins(h: Home, t: TickFate) {
    h.marker.Some? && t.read.Reads? && Accepts(h)
  }

  /** Exactly when a marker is still there for the next tick: its read raised, its quarantine did
      not happen, or the update succeeded and deleting it failed. */
  lemma MarkerSeenAgain(h: Home, t: TickFate)
    requires h.marker.Some?
    ensures RunOnce(h, t).home.marker.Some? <==>
      if t.read.ReadRaises? then true
      else if Begins(h, t) && Cycle(h.w, t.backup, t.cycle).Outcome().None? then t.unlink.Some?
      else !t.quarantine.Done?
    ensures RunOnce(h, t).home.marker.Some? ==> RunOnce(h, t).home.marker == h.marker
  {
    assert Begins(h, t) <==> t.read.Reads? && Accepts(h);
  }

  lemma ForwardStaged(w: World, f: Fates)
    ensures var s := Forward(w, f).w.staged; s == w.staged || s == Absent
  {
    var r := Vacate(w, f);
    assert r.w.staged == w.staged;
    hide Vacate;
    var i := Install(r, f);
    assert i.w.staged == w.staged || i.w.staged == Absent;
    hide Install;
    LaunchKeepsDirs(i, f);
    hide Launch;
  }

  lemma LaunchKeepsDirs(r: Run, f: Fates)
    ensures var l := Launch(r, f);
      l.w.app == r.w.app && l.w.prev == r.w.prev && l.w.staged == r.w.staged && l.prevRenamed == r.prevRenamed
  {
    var (w5, e5) := RunMigration(r.w, f.migrate);
    MigrationKeepsDirs(r.w, f.migrate);
    StartKeepsDirs(w5, f.start);
    hide RunMigration, StartApp;
  }

  /** Putting `app` aside and bringing `app_prev` back leave `staged` alone. */
  lemma HandlerKeepsStaged(r: Run, f: Fates)
    ensures BringBack(SetAside(r, f), f).w.staged == r.w.staged
  {
    var s := SetAside(r, f);
    assert s.w.staged == r.w.staged;
    hide SetAside;
  }

  /** A cycle moves `staged` away whole or not at all, and only the installing rename moves it. */
  lemma StagedMovesOnce(w: World, backup: nat, f: Fates)
    requires !w.staged.Absent?
    ensures var s := Cycle(w, backup, f).w.staged;
      s == Forward(w, f).w.staged && (s == w.staged || s == Absent)
  {
    ForwardStaged(w, f);
    var r := Forward(w, f);
    hide Forward;
    if r.raised.Some? {
      var b := BackStop(r, f);
      assert b.w.staged == r.w.staged;
      hide BackStop, SetAside, BringBack, RevertDb, Restart;
      HandlerKeepsStaged(b, f);
      RevertAndRestartDirs(BringBack(SetAside(b, f), f), backup, f);
    }
  }

  lemma TickStaged(h: Home, t: TickFate)
    ensures var s := RunOnce(h, t).home.w.staged;
      if Begins(h, t) then
        s == Forward(h.w, t.cycle).w.staged && (s == h.w.staged || s == Absent)
      else s == h.w.staged
  {
    if Begins(h, t) {
      StagedMovesOnce(h.w, t.backup, t.cycle);
      assert RunOnce(h, t).home.w == Cycle(h.w, t.backup, t.cycle).w;
    }
  }

  lemma NothingStagedNothingDone(h: Home, t: TickFate)
    requires h.w.staged.Absent?
    ensures RunOnce(h, t).home.w == h.w && !RunOnce(h, t).ran
  {
    assert !Accepts(h);
  }

  /** A marker replayed after the swap consumed its bundle is refused before any side effect. */
  lemma ReplayRefused(h: Home, first: TickFate, again: TickFate)
    requires Begins(h, first)
    requires Forward(h.w, first.cycle).w.staged.Absent?
    ensures var h1 := RunOnce(h, first).home;
      !RunOnce(h1, again).ran && RunOnce(h1, again).home.w == h1.w
  {
    TickStaged(h, first);
    NothingStagedNothingDone(RunOnce(h, first).home, again);
  }

  /* ---------- any number of ticks ---------- */

  /** Between two ticks the app may stage a new bundle and may place any marker. */
  datatype Round = Round(stages: bool, place: Option<Marker>, tick: TickFate)

  /** Bundles are numbered as they are staged; `entered` lists those a cycle renamed into `app`. */
  datatype History = History(home: Home, next: nat, entered: seq<Bundle>)

  function Prepare(h: History, r: Round): History {
    var h1 := if r.stages then h.(home := h.home.(w := h.home.w.(staged := Intact(h.next))), next := h.next + 1) else h;
    if r.place.Some? then h1.(home := h1.home.(marker := r.place)) else h1
  }

  function Advance(h: History, r: Round): History {
    var p := Prepare(h, r);
    var moved := Begins(p.home, r.tick) && p.home.w.staged.Intact? && Forward(p.home.w, r.tick.cycle).w.staged.Absent?;
    p.(home := RunOnce(p.home, r.tick).home,
       entered := if moved then p.entered + [p.home.w.staged.bundle] else p.entered)
  }

  function Play(h: History, rounds: seq<Round>): History {
    if rounds == [] then h
    else Advance(Play(h, rounds[..|rounds| - 1]), rounds[|rounds| - 1])
  }

  /** One more round: prepare, then tick. */
  lemma PlayNext(h: History, rounds: seq<Round>, k: nat)
    requires k < |rounds|
    ensures var p := Prepare(Play(h, rounds[..k]), rounds[k]);
      var next := Play(h, rounds[..k + 1]);
      && next.home == RunOnce(p.home, rounds[k].tick).home && next.next == p.next
      && p.next == (if rounds[k].stages then Play(h, rounds[..k]).next + 1 else Play(h, rounds[..k]).next)
  {
    hide RunOnce;
    assert rounds[..k + 1][..k] == rounds[..k];
  }

  ghost predicate Numbered(h: History) {
    && (forall i | 0 <= i < |h.entered| :: h.entered[i] < h.next)
    && (forall i, j | 0 <= i < j < |h.entered| :: h.entered[i] != h.entered[j])
    && (h.home.w.staged.Intact? ==> h.home.w.staged.bundle < h.next && h.home.w.staged.bundle !in h.entered)
  }

  /** Every bundle enters `app` at most once, whatever the markers say and whatever fails. */
  lemma {:induction false} EntersOnce(h: History, rounds: seq<Round>)
    requires Numbered(h)
    ensures Numbered(Play(h, rounds))
  {
    if rounds != [] {
      EntersOnce(h, rounds[..|rounds| - 1]);
      hide Numbered, Advance;
      AdvanceNumbered(Play(h, rounds[..|rounds| - 1]), rounds[|rounds| - 1]);
    }
  }

  lemma AdvanceNumbered(h: History, r: Round)
    requires Numbered(h)
    ensures Numbered(Advance(h, r))
  {
    var p := Prepare(h, r);
    assert Numbered(p);
    TickStaged(p.home, r.tick);
    hide Prepare, RunOnce, Forward, Begins;
  }

  /** The fates under which no rename of `app` is left half done: no interrupt between the first
      rename and its flag, none inside the second stop or the removal that empties `app`, and the
      restoring rename succeeds. */
  predicate Unbroken(f: Fates) {
    && f.flagPrev.None?
    && f.restore.Done?
    && f.discard.cut.None?
    && (f.stop2.Exits? || f.stop2.ExitsAfterKill? || !f.stop2.e.Interrupt?)
  }

  lemma UnbrokenKeepsApp(w: World, backup: nat, f: Fates)
    requires !w.app.Absent? && Unbroken(f)
    ensures !Cycle(w, backup, f).w.app.Absent?
  {
    AppLostExactly(w, backup, f);
    var r := Vacate(w, f);
    assert r.w.app.Absent? ==> r.prevRenamed;
    hide Cycle;
    var i := Install(r, f);
    assert r.raised.None? && i.w.app.Absent? ==> i.prevRenamed;
    hide Vacate, Install;
    LaunchKeepsDirs(i, f);
    hide Launch;
  }

  lemma TickKeepsApp(h: Home, t: TickFate)
    requires !h.w.app.Absent? && Unbroken(t.cycle)
    ensures !RunOnce(h, t).home.w.app.Absent?
  {
    hide Unbroken, Cycle;
    if Begins(h, t) {
      UnbrokenKeepsApp(h.w, t.backup, t.cycle);
    }
  }

  /** `app` is there at every tick boundary. */
  lemma {:induction false} AppAtEveryBoundary(h: History, rounds: seq<Round>)
    requires !h.home.w.app.Absent?
    requires forall i | 0 <= i < |rounds| :: Unbroken(rounds[i].tick.cycle)
    ensures !Play(h, rounds).home.w.app.Absent?
  {
    if rounds != [] {
      var n := |rounds| - 1;
      AppAtEveryBoundary(h, rounds[..n]);
      PlayNext(h, rounds, n);
      assert rounds[..n + 1] == rounds;
      var p := Prepare(Play(h, rounds[..n]), rounds[n]);
      hide Play, RunOnce;
      TickKeepsApp(p.home, rounds[n].tick);
    }
  }

  /** Why losing `app` must not happen: no later tick ever puts anything there again. */
  lemma {:induction false} NoTickRecoversApp(h: History, rounds: seq<Round>)
    requires h.home.w.app.Absent?
    ensures Play(h, rounds).home.w.app.Absent?
  {
    if rounds != [] {
      var n := |rounds| - 1;
      NoTickRecoversApp(h, rounds[..n]);
      PlayNext(h, rounds, n);
      assert rounds[..n + 1] == rounds;
      var p := Prepare(Play(h, rounds[..n]), rounds[n]);
      hide Play, RunOnce;
      TickFindsNothing(p.home, rounds[n].tick);
    }
  }

  lemma TickFindsNothing(h: Home, t: TickFate)
    requires h.w.app.Absent?
    ensures RunOnce(h, t).home.w.app.Absent?
  {
    hide Cycle;
    if Begins(h, t) {
      EmptyStaysEmpty(h.w, t.backup, t.cycle);
    }
  }

  lemma EmptyStaysEmpty(w: World, backup: nat, f: Fates)
    requires w.app.Absent? && !w.staged.Absent?
    ensures Cycle(w, backup, f).w.app.Absent?
  {
    var r := Vacate(w, f);
    assert r.raised.Some? && r.w.app.Absent? && !r.prevRenamed && !r.stagedSwapped;
    var b := BackStop(r, f);
    assert b.w.app.Absent? && !b.prevRenamed && !b.stagedSwapped;
    RevertAndRestartDirs(BringBack(SetAside(b, f), f), backup, f);
  }

  /* ---------- exactly when `app` is gone ---------- */

  /** The cycle of this tick begins with `app` in place and loses it. */
  predicate TickLosesApp(h: Home, t: TickFate) {
    && Begins(h, t) && !h.w.app.Absent?
    && Forward(h.w, t.cycle).raised.Some? && LosesApp(Forward(h.w, t.cycle), t.cycle)
  }

  lemma TickLosesExactly(h: Home, t: TickFate)
    ensures RunOnce(h, t).home.w.app.Absent? <==> h.w.app.Absent? || TickLosesApp(h, t)
  {
    hide Cycle, Forward, LosesApp;
    if h.w.app.Absent? {
      TickFindsNothing(h, t);
    } else if Begins(h, t) {
      AppLostExactly(h.w, t.backup, t.cycle);
      assert RunOnce(h, t).home.w == Cycle(h.w, t.backup, t.cycle).w;
    }
  }

  /** Round `k` is the one in which `app` went. */
  ghost predicate LostIn(h: History, rounds: seq<Round>, k: nat)
    requires k < |rounds|
  {
    TickLosesApp(Prepare(Play(h, rounds[..k]), rounds[k]).home, rounds[k].tick)
  }

  ghost predicate Lost(h: History, rounds: seq<Round>) {
    exists k | 0 <= k < |rounds| :: LostIn(h, rounds, k)
  }

  lemma LostNext(h: History, rounds: seq<Round>, n: nat)
    requires |rounds| == n + 1
    ensures Lost(h, rounds) <==> Lost(h, rounds[..n]) || LostIn(h, rounds, n)
  {
    hide LostIn;
    forall k | 0 <= k < n ensures LostIn(h, rounds[..n], k) <==> LostIn(h, rounds, k) {
      LostInFront(h, rounds, n, k);
    }
  }

  lemma LostInFront(h: History, rounds: seq<Round>, n: nat, k: nat)
    requires k < n < |rounds|
    ensures LostIn(h, rounds[..n], k) <==> LostIn(h, rounds, k)
  {
    hide Play, Prepare, TickLosesApp;
    assert rounds[..n][..k] == rounds[..k];
  }

  /** Over any rounds, whatever is staged, placed or fails: `app` is gone at the end exactly when it was
      never there or some round's cycle lost it by one of the fault patterns. */
  lemma {:induction false} AppGoneExactly(h: History, rounds: seq<Round>)
    ensures Play(h, rounds).home.w.app.Absent? <==> h.home.w.app.Absent? || Lost(h, rounds)
  {
    if rounds != [] {
      var n := |rounds| - 1;
      AppGoneExactly(h, rounds[..n]);
      LostNext(h, rounds, n);
      RoundLosesExactly(h, rounds, n);
    }
    hide Lost;
  }

  lemma RoundLosesExactly(h: History, rounds: seq<Round>, n: nat)
    requires |rounds| == n + 1
    ensures Play(h, rounds).home.w.app.Absent?
            <==> Play(h, rounds[..n]).home.w.app.Absent? || LostIn(h, rounds, n)
  {
    PlayNext(h, rounds, n);
    assert rounds[..n + 1] == rounds;
    var before := Play(h, rounds[..n]);
    var p := Prepare(before, rounds[n]).home;
    TickLosesExactly(p, rounds[n].tick);
    PrepareKeepsApp(before, rounds[n]);
    hide Play, RunOnce, Prepare, TickLosesApp;
  }

  lemma PrepareKeepsApp(h: History, r: Round)
    ensures Prepare(h, r).home.w.app == h.home.w.app
  {
  }
}
