/** The game-release transaction as a protocol over durable state alone: which single writes
    may happen in which state, the invariant they keep, and what follows for every run.
    Control flow is not part of a world, so a crash needs no step of its own: a crashed
    operation simply performs no further action, and the next one starts from the disk. */
module ReleaseProtocol {
  import opened Basics

  /** A directory name under `releases/`; names are never reused. */
  type Name = nat

  /** `build` is None while the Steam manifest is missing, partial or damaged.
      `verified` holds once the launcher contract was checked and the wrapper generated. */
  datatype Release = Release(build: Option<nat>, verified: bool)

  datatype State =
    | Uninitialized | Current | FailedBeforeWorldOpen
    | DownloadingCandidate | PromotingCandidate | Activating
    | PendingReadiness | StartingCandidate | RuntimeReady | FailedAfterWorldOpen

  /** The fields of update-state.json that some branch reads. */
  datatype Record = Record(
    state: State,
    candidate: Option<Name>,
    promoted: Option<Name>,
    previous: Option<Name>,
    candidateBuild: Option<nat>,
    previousBuild: Option<nat>,
    currentBuild: Option<nat>,
    blockedBuild: Option<nat>,
    worldOpened: bool)

  datatype Disk = Disk(
    active: Option<Name>,
    previous: Option<Name>,
    releases: map<Name, Release>,
    record: Record)

  /** The disk and five facts no file holds: whether a world backup was verified, or the world
      was found to be empty, since the last candidate was reserved, the next unused name, every
      build launched so far, and the number of directories that nothing names any more. */
  datatype World = World(
    disk: Disk, backedUp: bool, worldless: bool, supply: nat, launched: seq<nat>, litter: int)
  {

    /** A release may replace nothing, or a world that has been saved. */
    predicate Secured() {
      backedUp || (disk.active.None? && worldless)
    }
  }

  /** One durable write, or one launch of the game. */
  datatype Action =
    | TakeName
    | Reserve(n: Name)
    | Announce(n: Name, build: nat)
    | Fill(content: Release)
    | SaveWorld
    | FindNoWorld
    | Promote(final: Name)
    | Rename
    | Arm
    | KeepPrevious
    | Switch
    | Select
    | Spoil(n: Name)
    | Erase(n: Name)
    | ForgetPrevious
    | Fail(failed: Record)
    | Observe(seen: Record)
    | OpenWorld
    | MarkReady
    | Accept
    | AcceptLocally
    | FailReadiness
    | Launch
    | Restate

  const FRESH_RECORD := Record(Uninitialized, None, None, None, None, None, None, None, false)
  const FRESH_WORLD := World(Disk(None, None, map[], FRESH_RECORD), false, false, 0, [], 0)

  // ---------------------------------------------------------------- state classes

  predicate Settled(s: State) {
    s.Uninitialized? || s.Current? || s.FailedBeforeWorldOpen?
  }

  predicate InFlight(s: State) {
    s.DownloadingCandidate? || s.PromotingCandidate? || s.Activating?
  }

  /** The candidate is the selected release and has not been accepted. */
  predicate Selected(s: State) {
    s.PendingReadiness? || WorldTouched(s)
  }

  predicate WorldTouched(s: State) {
    s.StartingCandidate? || s.RuntimeReady? || s.FailedAfterWorldOpen?
  }

  function ActiveBuild(d: Disk): Option<nat> {
    if d.active.Some? && d.active.value in d.releases then d.releases[d.active.value].build else None
  }

  predicate Intact(d: Disk, n: Name) {
    n in d.releases && d.releases[n].build.Some? && d.releases[n].verified
  }

  /** `n` holds a verified release of exactly the announced build. */
  predicate Matches(d: Disk, n: Option<Name>) {
    && n.Some? && Intact(d, n.value)
    && d.releases[n.value].build == d.record.candidateBuild
  }

  predicate NotOlder(build: Option<nat>, current: Option<nat>) {
    build.Some? && (current.Some? ==> current.value <= build.value)
  }

  /** The active pointer already names the candidate. */
  predicate Switched(d: Disk) {
    d.active.Some? && d.active == d.record.candidate
  }

  predicate Unused(d: Disk, n: Name) {
    && n !in d.releases && d.active != Some(n) && d.previous != Some(n)
    && d.record.candidate != Some(n) && d.record.promoted != Some(n)
  }

  /** The previous pointer is absent or names a directory that exists. */
  predicate PreviousResolves(d: Disk) {
    d.previous.Some? ==> d.previous.value in d.releases
  }

  /** Directories that no pointer and no staging field names. */
  function Orphans(d: Disk): set<Name> {
    set n | n in d.releases && d.active != Some(n) && d.previous != Some(n)
            && d.record.candidate != Some(n) && d.record.promoted != Some(n)
  }

  predicate Stands(d: Disk, n: Option<Name>) {
    n.Some? && n.value in d.releases
  }

  /** How many staging directories still stand. */
  function StagingCount(d: Disk): nat {
    (if Stands(d, d.record.candidate) then 1 else 0)
    + (if Stands(d, d.record.promoted) && d.record.promoted != d.record.candidate then 1 else 0)
  }

  /** Directories a correct transaction may delete. The active release never qualifies. */
  predicate Disposable(d: Disk, n: Name) {
    && n in d.releases && d.active != Some(n)
    && (|| (n in Orphans(d) && !Selected(d.record.state))
        || (InFlight(d.record.state) && (d.record.candidate == Some(n) || d.record.promoted == Some(n)))
        || (Settled(d.record.state) && d.previous == Some(n)))
  }

  // ---------------------------------------------------------------- the transition system

  function WithRecord(w: World, r: Record): World {
    w.(disk := w.disk.(record := r))
  }

  function WithReleases(w: World, m: map<Name, Release>): World {
    w.(disk := w.disk.(releases := m))
  }

  predicate Enabled(w: World, a: Action) {
    var d := w.disk;
    var r := d.record;
    match a
    case TakeName => true
    case Restate => true
    case SaveWorld => true
    case FindNoWorld => true
    case Reserve(n) =>
      Settled(r.state) && n < w.supply && Unused(d, n) && d.previous.None?
    case Announce(n, build) =>
      && Settled(r.state) && n in Orphans(d) && n < w.supply && d.previous.None?
      && NotOlder(Some(build), ActiveBuild(d))
    case Fill(content) =>
      r.state.DownloadingCandidate? && r.candidate.Some? && r.candidate.value in d.releases
    case Promote(final) =>
      && r.state.DownloadingCandidate? && Matches(d, r.candidate)
      && w.Secured()
      && final < w.supply && Unused(d, final)
    case Rename =>
      && r.state.PromotingCandidate? && r.promoted.Some?
      && r.candidate.Some? && r.candidate.value in d.releases && r.promoted.value !in d.releases
    case Arm =>
      r.state.PromotingCandidate? && Matches(d, r.promoted)
    case KeepPrevious =>
      r.state.Activating? && !Switched(d)
    case Switch =>
      && r.state.Activating? && !Switched(d) && d.previous == r.previous
      && Matches(d, r.candidate) && w.Secured()
    case Select =>
      r.state.Activating? && Switched(d)
    case Spoil(n) => Disposable(d, n)
    case Erase(n) => Disposable(d, n)
    case ForgetPrevious =>
      && Settled(r.state)
      && (d.previous.Some? ==> d.previous == d.active || d.previous.value !in d.releases)
    case Fail(failed) =>
      && (Settled(r.state) || (InFlight(r.state) && !Switched(d)))
      && failed.state.FailedBeforeWorldOpen? && failed.candidate.None? && failed.promoted.None?
      && failed.currentBuild == ActiveBuild(d)
    case Observe(seen) =>
      && Settled(r.state) && d.active.Some?
      && seen.state.Current? && seen.candidate.None? && seen.promoted.None?
      && seen.currentBuild == ActiveBuild(d)
    case OpenWorld => r.state.PendingReadiness? || r.state.StartingCandidate?
    case MarkReady => r.state.StartingCandidate? || r.state.RuntimeReady?
    case Accept => r.state.RuntimeReady?
    case AcceptLocally => r.state.StartingCandidate? || r.state.RuntimeReady?
    case FailReadiness => r.state.StartingCandidate? || r.state.RuntimeReady?
    case Launch => d.active.Some? && !r.state.PendingReadiness? && !r.state.Activating?
  }

  function Accepted(r: Record): Record {
    r.(state := Current, currentBuild := r.candidateBuild, candidateBuild := None, candidate := None,
       promoted := None, worldOpened := true, blockedBuild := None)
  }

  function Apply(w: World, a: Action): World
    requires Enabled(w, a)
  {
    var d := w.disk;
    var r := d.record;
    match a
    case TakeName => w.(supply := w.supply + 1)
    case Restate => w
    case SaveWorld => w.(backedUp := true)
    case FindNoWorld => w.(worldless := true)
    case Reserve(n) =>
      WithReleases(w, d.releases[n := Release(None, false)])
        .(backedUp := false, worldless := false, litter := w.litter + 1)
    case Announce(n, build) =>
      WithRecord(w, r.(state := DownloadingCandidate, currentBuild := ActiveBuild(d),
                       candidateBuild := Some(build), candidate := Some(n))).(litter := w.litter - 1)
    case Fill(content) => WithReleases(w, d.releases[r.candidate.value := content])
    case Promote(final) =>
      WithRecord(w, r.(state := PromotingCandidate, currentBuild := ActiveBuild(d),
                       previousBuild := ActiveBuild(d), previous := d.active,
                       promoted := Some(final), worldOpened := false))
    case Rename =>
      WithReleases(w, (d.releases - {r.candidate.value})[r.promoted.value := d.releases[r.candidate.value]])
    case Arm => WithRecord(w, r.(state := Activating, candidate := r.promoted, promoted := None))
    case KeepPrevious => w.(disk := d.(previous := d.active))
    case Switch => w.(disk := d.(active := r.candidate))
    case Select => WithRecord(w, r.(state := PendingReadiness, currentBuild := r.candidateBuild))
    case Spoil(n) => WithReleases(w, d.releases[n := Release(None, false)])
    case Erase(n) => WithReleases(w, d.releases - {n}).(litter := w.litter - if n in Orphans(d) then 1 else 0)
    case ForgetPrevious => w.(disk := d.(previous := None))
    case Fail(failed) => WithRecord(w, failed).(litter := w.litter + StagingCount(d))
    case Observe(seen) => WithRecord(w, seen)
    case OpenWorld => WithRecord(w, r.(state := StartingCandidate, worldOpened := true))
    case MarkReady => WithRecord(w, r.(state := RuntimeReady))
    case Accept => WithRecord(w, Accepted(r))
    case AcceptLocally => WithRecord(w, Accepted(r))
    case FailReadiness => WithRecord(w, r.(state := FailedAfterWorldOpen))
    case Launch =>
      var b := ActiveBuild(d);
      w.(launched := w.launched + [if b.Some? then b.value else 0])
  }

  /** The world after an action, if the protocol allows it. */
  function Step(w: World, a: Action): Option<World> {
    if Enabled(w, a) then Some(Apply(w, a)) else None
  }

  lemma DisposableStep(w: World, n: Name)
    requires Disposable(w.disk, n)
    ensures Step(w, Erase(n)) == Some(WithReleases(w, w.disk.releases - {n})
                                        .(litter := w.litter - if n in Orphans(w.disk) then 1 else 0))
    ensures Step(w, Spoil(n)) == Some(WithReleases(w, w.disk.releases[n := Release(None, false)]))
  {
  }

  // ---------------------------------------------------------------- the invariant

  ghost predicate NamesTaken(w: World) {
    var d := w.disk;
    && (forall n :: n in d.releases ==> n < w.supply)
    && (d.active.Some? ==> d.active.value < w.supply)
    && (d.previous.Some? ==> d.previous.value < w.supply)
    && (d.record.candidate.Some? ==> d.record.candidate.value < w.supply)
    && (d.record.promoted.Some? ==> d.record.promoted.value < w.supply)
  }

  predicate RecordFits(d: Disk) {
    var r := d.record;
    match r.state
    case DownloadingCandidate =>
      && r.candidate.Some? && r.candidate != d.active && d.previous.None?
      && NotOlder(r.candidateBuild, ActiveBuild(d))
    case PromotingCandidate =>
      && r.candidate.Some? && r.promoted.Some? && r.candidate != r.promoted
      && r.candidate != d.active && r.promoted != d.active
      && (r.candidate.value in d.releases ==> r.promoted.value !in d.releases)
      && d.previous.None? && r.previous == d.active && !r.worldOpened
      && NotOlder(r.candidateBuild, ActiveBuild(d))
    case Activating =>
      && r.candidate.Some? && r.previous != r.candidate && !r.worldOpened
      && NotOlder(r.candidateBuild, ActiveBuild(d))
      && (if Switched(d) then
            ActiveBuild(d) == r.candidateBuild && d.previous == r.previous
          else
            d.active == r.previous && (d.previous.None? || d.previous == d.active))
    case _ =>
      if Settled(r.state) then
        r.candidate.None?
      else
        && Switched(d) && ActiveBuild(d) == r.candidateBuild && d.previous == r.previous
        && (r.worldOpened <==> WorldTouched(r.state))
  }

  ghost predicate LaunchesFit(w: World) {
    && (w.launched != [] ==> ActiveBuild(w.disk).Some?)
    && (forall i :: 0 <= i < |w.launched| ==> w.launched[i] <= ActiveBuild(w.disk).value)
    && (forall i, j :: 0 <= i < j < |w.launched| ==> w.launched[i] <= w.launched[j])
  }

  /** The part of the invariant about the disk. */
  ghost predicate DiskFits(w: World) {
    var d := w.disk;
    && NamesTaken(w)
    && (d.active.Some? ==> Intact(d, d.active.value))
    && (d.active.None? ==> d.previous.None?)
    && (!d.record.state.PromotingCandidate? ==> d.record.promoted.None?)
    && (!(d.record.state.Activating? && Switched(d)) ==> d.record.currentBuild == ActiveBuild(d))
    && RecordFits(d)
  }

  /** What every reachable world satisfies. */
  ghost predicate Inv(w: World) {
    DiskFits(w) && LaunchesFit(w)
  }

  /** Whatever was selected stays selected or gives way to a build at least as new, and only
      Switch moves the pointer. */
  lemma PointerMovesForward(w: World, a: Action)
    requires DiskFits(w) && Enabled(w, a)
    ensures var d, d' := w.disk, Apply(w, a).disk;
      && DiskFits(Apply(w, a))
      && (d.active.Some? ==> NotOlder(ActiveBuild(d'), ActiveBuild(d)))
      && (d'.active != d.active ==> a.Switch?)
  {
    if a.Reserve? || a.Fill? || a.Rename? || a.Spoil? || a.Erase? {
      DirectoryActionsKeepPointers(w, a);
    } else if a.KeepPrevious? || a.Switch? || a.ForgetPrevious? {
      PointerActionsMoveForward(w, a);
    } else if StagesCandidate(a) {
      StagingActionsKeepFiles(w, a);
    } else if MarksCandidate(a) {
      MarkingActionsKeepFiles(w, a);
    } else {
      assert Apply(w, a).disk == w.disk;
    }
  }

  predicate StagesCandidate(a: Action) {
    a.Announce? || a.Promote? || a.Arm? || a.Select? || a.Fail? || a.Observe?
  }

  predicate MarksCandidate(a: Action) {
    a.OpenWorld? || a.MarkReady? || a.Accept? || a.AcceptLocally? || a.FailReadiness?
  }

  /** A new record is all that changes. */
  predicate OnlyRecord(w: World, w': World) {
    w' == WithRecord(w, w'.disk.record).(litter := w'.litter)
  }

  lemma NewRecordFits(w: World, w': World)
    requires DiskFits(w) && OnlyRecord(w, w') && RecordFits(w'.disk)
    requires var r := w'.disk.record;
      && (r.candidate.Some? ==> r.candidate.value < w.supply) && (r.promoted.Some? ==> r.promoted.value < w.supply)
      && (!r.state.PromotingCandidate? ==> r.promoted.None?)
      && (!(r.state.Activating? && Switched(w'.disk)) ==> r.currentBuild == ActiveBuild(w.disk))
    ensures DiskFits(w') && ActiveBuild(w'.disk) == ActiveBuild(w.disk)
  {
  }

  lemma StagingActionsKeepFiles(w: World, a: Action)
    requires DiskFits(w) && Enabled(w, a) && StagesCandidate(a)
    ensures var w' := Apply(w, a); OnlyRecord(w, w') && DiskFits(w') && ActiveBuild(w'.disk) == ActiveBuild(w.disk)
  {
    NewRecordFits(w, Apply(w, a));
  }

  lemma MarkingActionsKeepFiles(w: World, a: Action)
    requires DiskFits(w) && Enabled(w, a) && MarksCandidate(a)
    ensures var w' := Apply(w, a); OnlyRecord(w, w') && DiskFits(w') && ActiveBuild(w'.disk) == ActiveBuild(w.disk)
  {
    NewRecordFits(w, Apply(w, a));
  }

  lemma PointerActionsMoveForward(w: World, a: Action)
    requires DiskFits(w) && Enabled(w, a) && (a.KeepPrevious? || a.Switch? || a.ForgetPrevious?)
    ensures var d, d' := w.disk, Apply(w, a).disk;
      && DiskFits(Apply(w, a))
      && (d.active.Some? ==> NotOlder(ActiveBuild(d'), ActiveBuild(d)))
      && (d'.active != d.active ==> a.Switch?)
  {
  }

  lemma DirectoryActionsKeepPointers(w: World, a: Action)
    requires DiskFits(w) && Enabled(w, a) && (a.Reserve? || a.Fill? || a.Rename? || a.Spoil? || a.Erase?)
    ensures var d, d' := w.disk, Apply(w, a).disk;
      DiskFits(Apply(w, a)) && ActiveBuild(d') == ActiveBuild(d) && d'.active == d.active
  {
  }

  lemma ActionKeepsInvariant(w: World, a: Action)
    requires Inv(w) && Enabled(w, a)
    ensures Inv(Apply(w, a))
  {
    PointerMovesForward(w, a);
    var w' := Apply(w, a);
    if !a.Launch? {
      assert w'.launched == w.launched;
    }
  }

  // ---------------------------------------------------------------- whole runs

  /** A run: the worlds passed through and the action between each two of them. Operations,
      crashes and launches of any number of processes all show up as one such sequence. */
  datatype Run = Run(worlds: seq<World>, acts: seq<Action>) {

    ghost predicate Legal() {
      && |worlds| == |acts| + 1
      && worlds[0] == FRESH_WORLD
      && forall i {:trigger acts[i]} :: 0 <= i < |acts| ==>
           Enabled(worlds[i], acts[i]) && worlds[i + 1] == Apply(worlds[i], acts[i])
    }

    function Last(): World
      requires |worlds| > 0
    {
      worlds[|worlds| - 1]
    }

    function Extend(a: Action): Run
      requires |worlds| > 0 && Enabled(Last(), a)
    {
      Run(worlds + [Apply(Last(), a)], acts + [a])
    }

    ghost predicate ExtendsTo(later: Run) {
      worlds <= later.worlds && acts <= later.acts
    }
  }

  lemma {:induction false} RunKeepsInvariant(run: Run, i: nat)
    requires run.Legal() && i < |run.worlds|
    ensures Inv(run.worlds[i])
  {
    if i > 0 {
      RunKeepsInvariant(run, i - 1);
      assert Enabled(run.worlds[i - 1], run.acts[i - 1]);
      ActionKeepsInvariant(run.worlds[i - 1], run.acts[i - 1]);
    }
  }

  /** Every launch in a run starts a complete, verified release. */
  lemma LaunchesAreVerified(run: Run, i: nat)
    requires run.Legal() && i < |run.acts| && run.acts[i].Launch?
    ensures var w := run.worlds[i];
      && w.disk.active.Some? && Intact(w.disk, w.disk.active.value)
      && run.worlds[i + 1].launched == w.launched + [w.disk.releases[w.disk.active.value].build.value]
  {
    RunKeepsInvariant(run, i);
  }

  /** Deletion safety: nothing in a run removes or damages the release the pointer selects,
      so the pointer resolves at every point. */
  lemma ActiveAlwaysResolves(run: Run, i: nat)
    requires run.Legal() && i < |run.worlds| && run.worlds[i].disk.active.Some?
    ensures Intact(run.worlds[i].disk, run.worlds[i].disk.active.value)
    ensures i < |run.acts| && (run.acts[i].Erase? || run.acts[i].Spoil?) ==>
              Some(run.acts[i].n) != run.worlds[i].disk.active
  {
    RunKeepsInvariant(run, i);
    assert i < |run.acts| ==> Enabled(run.worlds[i], run.acts[i]);
  }

  lemma NextBuildIsNotOlder(run: Run, i: nat)
    requires run.Legal() && i < |run.acts|
    ensures var d, d' := run.worlds[i].disk, run.worlds[i + 1].disk;
      && (d.active.Some? ==> ActiveBuild(d).Some? && NotOlder(ActiveBuild(d'), ActiveBuild(d)))
      && (d.active != d'.active ==> run.acts[i].Switch?)
  {
    RunKeepsInvariant(run, i);
    PointerMovesForward(run.worlds[i], run.acts[i]);
  }

  /** The selected build never drops, whatever happens between two points of a run. */
  lemma {:induction false} SelectedBuildNeverDrops(run: Run, i: nat, j: nat)
    requires run.Legal() && i <= j < |run.worlds| && run.worlds[i].disk.active.Some?
    ensures run.worlds[j].disk.active.Some? && ActiveBuild(run.worlds[i].disk).Some?
    ensures NotOlder(ActiveBuild(run.worlds[j].disk), ActiveBuild(run.worlds[i].disk))
    decreases j
  {
    if i == j {
      RunKeepsInvariant(run, i);
    } else {
      SelectedBuildNeverDrops(run, i, j - 1);
      NextBuildIsNotOlder(run, j - 1);
    }
  }

  /** No old binaries on a newer world: of two launches in a run, the later one starts a build
      at least as large, and the log of launched builds says the same. */
  lemma LaunchesNeverGoBack(run: Run, i: nat, j: nat)
    requires run.Legal() && i <= j < |run.acts| && run.acts[i].Launch? && run.acts[j].Launch?
    ensures NotOlder(ActiveBuild(run.worlds[j].disk), ActiveBuild(run.worlds[i].disk))
    ensures ActiveBuild(run.worlds[i].disk).Some? && LaunchesFit(run.worlds[j + 1])
  {
    assert Enabled(run.worlds[i], run.acts[i]);
    SelectedBuildNeverDrops(run, i, j);
    RunKeepsInvariant(run, j + 1);
  }

  /** The world-open boundary, in every reachable world. */
  lemma WorldOpenBoundary(run: Run, i: nat)
    requires run.Legal() && i < |run.worlds|
    ensures var r := run.worlds[i].disk.record;
      && (r.state.PromotingCandidate? || r.state.Activating? || r.state.PendingReadiness? ==> !r.worldOpened)
      && (WorldTouched(r.state) ==> r.worldOpened)
      && (Selected(r.state) ==> run.worlds[i].disk.active == r.candidate
                                && ActiveBuild(run.worlds[i].disk) == r.candidateBuild)
  {
    RunKeepsInvariant(run, i);
  }

  /** A failure after the world was opened is final: the whole disk is frozen from then on. */
  lemma {:induction false} FailureAfterWorldOpenIsFinal(run: Run, i: nat, j: nat)
    requires run.Legal() && i <= j < |run.worlds|
    requires run.worlds[i].disk.record.state.FailedAfterWorldOpen?
    ensures run.worlds[j].disk == run.worlds[i].disk
    decreases j
  {
    if i < j {
      FailureAfterWorldOpenIsFinal(run, i, j - 1);
      assert Enabled(run.worlds[j - 1], run.acts[j - 1]);
    }
  }

  /** A world becomes touched by OpenWorld alone, and from then on keeps its release. */
  lemma TouchedOnlyByOpenWorld(run: Run, k: nat)
    requires run.Legal() && k < |run.worlds| && WorldTouched(run.worlds[k].disk.record.state)
    ensures k > 0
    ensures var before, after := run.worlds[k - 1].disk, run.worlds[k].disk;
      if WorldTouched(before.record.state)
      then before.active == after.active && before.record.candidate == after.record.candidate
      else run.acts[k - 1].OpenWorld?
  {
    assert k > 0 ==> Enabled(run.worlds[k - 1], run.acts[k - 1]);
  }

  lemma TouchedOneMore(run: Run, i: nat, k: nat)
    requires run.Legal() && i < k < |run.worlds| && TouchedThroughout(run, i, k - 1)
    requires WorldTouched(run.worlds[k].disk.record.state)
    ensures TouchedThroughout(run, i, k)
  {
    TouchedOnlyByOpenWorld(run, k);
    assert WorldTouched(run.worlds[k - 1].disk.record.state);
  }

  /** A touched world lies behind OpenWorld for the very release that is still selected. */
  lemma {:induction false} TouchedFollowsOpenWorld(run: Run, k: nat)
    requires run.Legal() && k < |run.worlds| && WorldTouched(run.worlds[k].disk.record.state)
    ensures exists i :: 0 <= i < k && run.acts[i].OpenWorld? && TouchedThroughout(run, i + 1, k)
    decreases k
  {
    TouchedOnlyByOpenWorld(run, k);
    if WorldTouched(run.worlds[k - 1].disk.record.state) {
      TouchedFollowsOpenWorld(run, k - 1);
      var i :| 0 <= i < k - 1 && run.acts[i].OpenWorld? && TouchedThroughout(run, i + 1, k - 1);
      TouchedOneMore(run, i + 1, k);
    } else {
      assert TouchedThroughout(run, k, k);
    }
  }

  lemma ReadyOnlyByMark(run: Run, k: nat)
    requires run.Legal() && k < |run.worlds| && run.worlds[k].disk.record.state.RuntimeReady?
    ensures k > 0 && WorldTouched(run.worlds[k - 1].disk.record.state)
    ensures run.acts[k - 1].MarkReady? || run.worlds[k - 1].disk.record.state.RuntimeReady?
  {
    assert k > 0 ==> Enabled(run.worlds[k - 1], run.acts[k - 1]);
  }

  /** Readiness lies behind MarkReady in the same way. */
  lemma {:induction false} ReadyFollowsMark(run: Run, k: nat)
    requires run.Legal() && k < |run.worlds| && run.worlds[k].disk.record.state.RuntimeReady?
    ensures exists j :: 0 <= j < k && run.acts[j].MarkReady? && TouchedThroughout(run, j, k)
    decreases k
  {
    ReadyOnlyByMark(run, k);
    if run.acts[k - 1].MarkReady? {
      assert TouchedThroughout(run, k - 1, k - 1);
      TouchedOneMore(run, k - 1, k);
    } else {
      ReadyFollowsMark(run, k - 1);
      var j :| 0 <= j < k - 1 && run.acts[j].MarkReady? && TouchedThroughout(run, j, k - 1);
      TouchedOneMore(run, j, k);
    }
  }

  /** Acceptance after external readiness follows both marks, in order, for one release. */
  lemma AcceptanceFollowsBothMarks(run: Run, k: nat)
    requires run.Legal() && k < |run.acts| && run.acts[k].Accept?
    ensures exists i, j :: 0 <= i < j < k && run.acts[i].OpenWorld? && run.acts[j].MarkReady?
                           && TouchedThroughout(run, i + 1, k)
  {
    assert Enabled(run.worlds[k], run.acts[k]);
    ReadyFollowsMark(run, k);
    var j :| 0 <= j < k && run.acts[j].MarkReady? && TouchedThroughout(run, j, k);
    TouchedFollowsOpenWorld(run, j);
    var i :| 0 <= i < j && run.acts[i].OpenWorld? && TouchedThroughout(run, i + 1, j);
    assert TouchedThroughout(run, i + 1, k);
  }

  /** From `i` to `k` the world stays marked as opened and one release stays selected. */
  ghost predicate TouchedThroughout(run: Run, i: nat, k: nat)
    requires k < |run.worlds|
  {
    forall m :: i <= m <= k ==>
      && WorldTouched(run.worlds[m].disk.record.state)
      && run.worlds[m].disk.active == run.worlds[k].disk.active
      && run.worlds[m].disk.record.candidate == run.worlds[k].disk.record.candidate
  }

  /** A verified backup is one taken since the last candidate was reserved. */
  lemma {:induction false} BackupPrecedesSwitch(run: Run, k: nat)
    requires run.Legal() && k < |run.worlds| && run.worlds[k].backedUp
    ensures exists i :: 0 <= i < k && run.acts[i].SaveWorld? && SameTransaction(run, i, k)
    decreases k
  {
    var before, act := run.worlds[k - 1], run.acts[k - 1];
    assert Enabled(before, act) && run.worlds[k] == Apply(before, act);
    if act.SaveWorld? {
      assert SameTransaction(run, k - 1, k);
    } else {
      BackupPrecedesSwitch(run, k - 1);
      var i :| 0 <= i < k - 1 && run.acts[i].SaveWorld? && SameTransaction(run, i, k - 1);
      assert SameTransaction(run, i, k);
    }
  }

  lemma {:induction false} EmptyWorldPrecedesSwitch(run: Run, k: nat)
    requires run.Legal() && k < |run.worlds| && run.worlds[k].worldless
    ensures exists i :: 0 <= i < k && run.acts[i].FindNoWorld? && SameTransaction(run, i, k)
    decreases k
  {
    var before, act := run.worlds[k - 1], run.acts[k - 1];
    assert Enabled(before, act) && run.worlds[k] == Apply(before, act);
    if act.FindNoWorld? {
      assert SameTransaction(run, k - 1, k);
    } else {
      EmptyWorldPrecedesSwitch(run, k - 1);
      var i :| 0 <= i < k - 1 && run.acts[i].FindNoWorld? && SameTransaction(run, i, k - 1);
      assert SameTransaction(run, i, k);
    }
  }

  /** No new candidate is reserved by the actions from `i` up to `k`. */
  ghost predicate SameTransaction(run: Run, i: nat, k: nat)
    requires k <= |run.acts|
  {
    forall m :: i <= m < k ==> !run.acts[m].Reserve?
  }

  /** What every pointer switch in a run is preceded by and leads to. */
  lemma SwitchIsGuarded(run: Run, k: nat)
    requires run.Legal() && k < |run.acts|
    requires run.worlds[k + 1].disk.active != run.worlds[k].disk.active
    ensures var d, d' := run.worlds[k].disk, run.worlds[k + 1].disk;
      && d.record.state.Activating? && d'.active == d.record.candidate && d'.active.Some?
      && Intact(d', d'.active.value) && ActiveBuild(d') == d.record.candidateBuild
      && NotOlder(ActiveBuild(d'), ActiveBuild(d)) && d'.previous == d.active
    ensures exists i :: 0 <= i < k && SameTransaction(run, i, k)
                        && (run.acts[i].SaveWorld? || (run.acts[i].FindNoWorld? && run.worlds[k].disk.active.None?))
  {
    RunKeepsInvariant(run, k);
    NextBuildIsNotOlder(run, k);
    assert Enabled(run.worlds[k], run.acts[k]);
    if run.worlds[k].backedUp {
      BackupPrecedesSwitch(run, k);
    } else {
      EmptyWorldPrecedesSwitch(run, k);
    }
  }

  // ---------------------------------------------------------------- disk accounting

  /** The directories some pointer or staging field names; at most two of them exist. */
  function Held(d: Disk): set<Name> {
    d.releases.Keys - Orphans(d)
  }

  lemma AtMostTwo(s: set<Name>, a: Option<Name>, b: Option<Name>)
    requires forall n :: n in s ==> a == Some(n) || b == Some(n)
    ensures |s| <= 2
  {
    var x := if a.Some? then {a.value} else {};
    var y := if b.Some? then {b.value} else {};
    Included(s, x + y);
    assert |x + y| <= |x| + |y|;
  }

  lemma Included(s: set<Name>, t: set<Name>)
    requires s <= t
    ensures |s| <= |t|
  {
    assert t == s + (t - s);
  }

  /** Never more than the old release and one candidate, or the active and the previous
      release, apart from orphans. */
  lemma DiskIsBounded(run: Run, i: nat)
    requires run.Legal() && i < |run.worlds|
    ensures var d := run.worlds[i].disk; |d.releases| <= 2 + |Orphans(d)|
  {
    RunKeepsInvariant(run, i);
    var d := run.worlds[i].disk;
    var r := d.record;
    var second :=
      if d.previous.Some? && d.previous != d.active then d.previous
      else if r.promoted.Some? && r.promoted.value in d.releases then r.promoted
      else r.candidate;
    AtMostTwo(Held(d), d.active, second);
    assert d.releases.Keys == Held(d) + Orphans(d);
    assert |d.releases.Keys| <= |Held(d)| + |Orphans(d)|;
  }

  /** The orphans after an action: a directory becomes one when it is reserved or when a failure
      is recorded while it still stands, stops being one when it is announced or erased, and no
      other action changes what is orphaned. */
  function OrphansAfter(w: World, a: Action): set<Name> {
    var orphans := Orphans(w.disk);
    match a
    case Reserve(n) => orphans + {n}
    case Announce(n, _) => orphans - {n}
    case Erase(n) => orphans - {n}
    case Fail(_) => orphans + StagingLeft(w.disk)
    case _ => orphans
  }

  function StagingLeft(d: Disk): set<Name> {
    (if Stands(d, d.record.candidate) then {d.record.candidate.value} else {})
    + (if Stands(d, d.record.promoted) then {d.record.promoted.value} else {})
  }

  lemma OrphansAreAccounted(w: World, a: Action)
    requires DiskFits(w) && Enabled(w, a)
    ensures Orphans(Apply(w, a).disk) == OrphansAfter(w, a)
  {
    if a.Reserve? || a.Announce? || a.Fill? || a.Rename? || a.Spoil? || a.Erase? {
      DirectoriesAreAccounted(w, a);
    } else {
      RecordsAreAccounted(w, a);
    }
  }

  lemma DirectoriesAreAccounted(w: World, a: Action)
    requires DiskFits(w) && Enabled(w, a)
    requires a.Reserve? || a.Announce? || a.Fill? || a.Rename? || a.Spoil? || a.Erase?
    ensures Orphans(Apply(w, a).disk) == OrphansAfter(w, a)
  {
  }

  lemma RecordsAreAccounted(w: World, a: Action)
    requires DiskFits(w) && Enabled(w, a)
    requires !(a.Reserve? || a.Announce? || a.Fill? || a.Rename? || a.Spoil? || a.Erase?)
    ensures Orphans(Apply(w, a).disk) == OrphansAfter(w, a)
  {
  }

  lemma StagingIsCounted(d: Disk)
    ensures |Orphans(d) + StagingLeft(d)| == |Orphans(d)| + StagingCount(d)
  {
    var c, p := d.record.candidate, d.record.promoted;
    var left := (if Stands(d, c) then {c.value} else {}) + (if Stands(d, p) then {p.value} else {});
    assert |left| == StagingCount(d) && Orphans(d) !! left;
    assert StagingLeft(d) == left;
  }

  lemma OrphansAreCounted(w: World, a: Action)
    requires Enabled(w, a)
    ensures |OrphansAfter(w, a)| - |Orphans(w.disk)| == Apply(w, a).litter - w.litter
  {
    if a.Fail? {
      StagingIsCounted(w.disk);
    } else if a.Reserve? || a.Announce? || a.Erase? {
      OneOrphanIsCounted(w, a, a.n);
    }
  }

  lemma OneOrphanIsCounted(w: World, a: Action, n: Name)
    requires Enabled(w, a) && (a == Reserve(n) || (a.Announce? && a.n == n) || a == Erase(n))
    ensures |OrphansAfter(w, a)| - |Orphans(w.disk)| == Apply(w, a).litter - w.litter
  {
    var orphans := Orphans(w.disk);
    assert n !in orphans ==> orphans - {n} == orphans && |orphans + {n}| == |orphans| + 1;
    assert n in orphans ==> |orphans - {n}| == |orphans| - 1;
  }

  /** In every run the account is the number of orphans. */
  lemma {:induction false} LitterCountsOrphans(run: Run, k: nat)
    requires run.Legal() && k < |run.worlds|
    ensures run.worlds[k].litter == |Orphans(run.worlds[k].disk)|
  {
    if k > 0 {
      var w, a := run.worlds[k - 1], run.acts[k - 1];
      LitterCountsOrphans(run, k - 1);
      RunKeepsInvariant(run, k - 1);
      assert Enabled(w, a) && run.worlds[k] == Apply(w, a);
      OrphansAreAccounted(w, a);
      OrphansAreCounted(w, a);
    }
  }

  /** Nothing was left lying about before action `i`: a failure found its staging directories
      gone, and what was reserved was announced or erased next. */
  ghost predicate CleansUp(run: Run, i: nat)
    requires run.Legal() && i < |run.acts|
  {
    && (run.acts[i].Fail? ==> StagingCount(run.worlds[i].disk) == 0)
    && (i > 0 && run.acts[i - 1].Reserve? ==>
          var n := run.acts[i - 1].n;
          run.acts[i] == Erase(n) || (run.acts[i].Announce? && run.acts[i].n == n))
  }

  /** Up to world `k` every step cleaned up behind the one before. */
  ghost predicate CleansUpTo(run: Run, k: nat)
    requires run.Legal() && k < |run.worlds|
  {
    forall i :: 0 <= i < k ==> CleansUp(run, i)
  }

  /** The reservation that the next step still has to settle. */
  function Unsettled(run: Run, k: nat): set<Name>
    requires k <= |run.acts|
  {
    if k > 0 && run.acts[k - 1].Reserve? then {run.acts[k - 1].n} else {}
  }

  /** Where every step cleans up there are no orphans, but for a directory just reserved. */
  lemma {:induction false} CleanRunsHaveNoOrphans(run: Run, k: nat)
    requires run.Legal() && k < |run.worlds| && CleansUpTo(run, k)
    ensures Orphans(run.worlds[k].disk) == Unsettled(run, k)
    decreases k
  {
    if k > 0 {
      CleanRunsHaveNoOrphans(run, k - 1);
      RunKeepsInvariant(run, k - 1);
      assert CleansUp(run, k - 1);
      assert Enabled(run.worlds[k - 1], run.acts[k - 1]);
      OrphansAreAccounted(run.worlds[k - 1], run.acts[k - 1]);
    }
  }

  /** Such a run never has more than two directories: during staging the old release and one
      candidate, and otherwise the active and the previous release. */
  lemma CleanRunsKeepTwoDirectories(run: Run, k: nat)
    requires run.Legal() && k < |run.worlds| && CleansUpTo(run, k)
    ensures |run.worlds[k].disk.releases| <= 2
  {
    CleanRunsHaveNoOrphans(run, k);
    if Unsettled(run, k) == {} {
      DiskIsBounded(run, k);
    } else {
      var w, a := run.worlds[k - 1], run.acts[k - 1];
      RunKeepsInvariant(run, k - 1);
      assert Enabled(w, a) && run.worlds[k] == Apply(w, a);
      ReservingMakesTwo(w, a.n, run.worlds[k].disk);
    }
  }

  lemma ReservingMakesTwo(w: World, n: Name, d: Disk)
    requires Inv(w) && Enabled(w, Reserve(n)) && d == Apply(w, Reserve(n)).disk && Orphans(d) == {n}
    ensures |d.releases| <= 2
  {
    forall m | m in d.releases.Keys ensures d.active == Some(m) || m == n {
      assert m !in Orphans(d) ==> m != n;
    }
    AtMostTwo(d.releases.Keys, d.active, Some(n));
    assert |d.releases| == |d.releases.Keys|;
  }

  // ---------------------------------------------------------------- recovery

  /** Everything one attempt at recovery may do to the disk, completed or cut short. */
  ghost predicate RecoveryAttempt(d: Disk, d': Disk, completed: bool) {
    && d'.active == d.active && d'.previous == d.previous
    && if !InFlight(d.record.state) then
         d' == d
       else if d.record.state.Activating? && Switched(d) then
         && d'.releases == d.releases
         && (d'.record == d.record
             || d'.record == d.record.(state := PendingReadiness, currentBuild := d.record.candidateBuild))
         && (completed ==> d'.record != d.record)
       else
         && KeptOutsideStaging(d, d')
         && (d'.record == d.record || (d'.record == Abandoned(d.record) && StagingGone(d, d')))
         && (completed ==> d'.record != d.record)
  }

  function Abandoned(r: Record): Record {
    r.(state := FailedBeforeWorldOpen, candidate := None, promoted := None, blockedBuild := None)
  }

  ghost predicate KeptOutsideStaging(d: Disk, d': Disk) {
    && d'.releases.Keys <= d.releases.Keys
    && forall n :: n in d.releases && d.record.candidate != Some(n) && d.record.promoted != Some(n) ==>
         n in d'.releases && d'.releases[n] == d.releases[n]
  }

  ghost predicate StagingGone(d: Disk, d': Disk) {
    && (d.record.candidate.Some? ==> d.record.candidate.value !in d'.releases)
    && (d.record.promoted.Some? ==> d.record.promoted.value !in d'.releases)
  }

  /** Both ends of an interrupted activation. */
  ghost predicate RolledBack(d: Disk, d': Disk) {
    && d'.active == d.active && d'.previous == d.previous
    && d'.record == Abandoned(d.record) && KeptOutsideStaging(d, d') && StagingGone(d, d')
  }

  ghost predicate RolledForward(d: Disk, d': Disk) {
    && d' == d.(record := d.record.(state := PendingReadiness, currentBuild := d.record.candidateBuild))
    && d'.active == d'.record.candidate && d'.previous == d'.record.previous
    && ActiveBuild(d') == d'.record.candidateBuild && !d'.record.worldOpened
  }

  ghost predicate Attempts(disks: seq<Disk>, completed: seq<bool>) {
    && |disks| == |completed| + 1
    && forall i :: 0 <= i < |completed| ==> RecoveryAttempt(disks[i], disks[i + 1], completed[i])
  }

  /** Activation is crash-atomic: however often recovery itself is cut short, once one attempt
      completes the disk is at one of the two ends, chosen by the pointer at the first crash. */
  lemma {:induction false} RecoveryConverges(w: World, disks: seq<Disk>, completed: seq<bool>)
    requires Inv(w) && Attempts(disks, completed) && disks[0] == w.disk && InFlight(w.disk.record.state)
    requires |completed| > 0 && completed[|completed| - 1]
    ensures var last := disks[|completed|];
      if w.disk.record.state.Activating? && Switched(w.disk)
      then RolledForward(w.disk, last) else RolledBack(w.disk, last)
  {
    var n := |completed|;
    assert Attempts(disks, completed);
    RecoveryUnderWay(w, disks, completed, n - 1);
    assert RecoveryAttempt(disks[n - 1], disks[n], completed[n - 1]);
  }

  /** Before an attempt completes, the decision is still open to be taken the same way. */
  lemma {:induction false} RecoveryUnderWay(w: World, disks: seq<Disk>, completed: seq<bool>, k: nat)
    requires Inv(w) && Attempts(disks, completed) && disks[0] == w.disk && InFlight(w.disk.record.state)
    requires k < |disks|
    ensures var d, d' := w.disk, disks[k];
      && d'.active == d.active && d'.previous == d.previous
      && if d.record.state.Activating? && Switched(d)
         then d'.releases == d.releases && (d'.record == d.record || RolledForward(d, d'))
         else KeptOutsideStaging(d, d') && (d'.record == d.record || RolledBack(d, d'))
  {
    if k > 0 {
      RecoveryUnderWay(w, disks, completed, k - 1);
      assert RecoveryAttempt(disks[k - 1], disks[k], completed[k - 1]);
    }
  }

  // ---------------------------------------------------------------- what is reachable

  lemma ExtendingKeepsRunLegal(run: Run, a: Action)
    requires run.Legal() && Enabled(run.Last(), a)
    ensures run.Extend(a).Legal() && run.Extend(a).Last() == Apply(run.Last(), a)
    ensures run.ExtendsTo(run.Extend(a)) && Inv(run.Extend(a).Last())
  {
    RunKeepsInvariant(run, |run.acts|);
    ActionKeepsInvariant(run.Last(), a);
  }

  lemma Next(run: Run, a: Action) returns (later: Run)
    requires run.Legal() && Enabled(run.Last(), a)
    ensures later.Legal() && later.Last() == Apply(run.Last(), a)
  {
    ExtendingKeepsRunLegal(run, a);
    later := run.Extend(a);
  }

  lemma ReservingIsPossible(run: Run) returns (later: Run, n: Name)
    requires run.Legal() && Settled(run.Last().disk.record.state) && run.Last().disk.previous.None?
    ensures later.Legal() && n < later.Last().supply && n in Orphans(later.Last().disk)
    ensures var d, d' := run.Last().disk, later.Last().disk;
      d' == d.(releases := d'.releases) && ActiveBuild(d') == ActiveBuild(d)
  {
    RunKeepsInvariant(run, |run.acts|);
    n := run.Last().supply;
    later := Next(run, TakeName);
    later := Next(later, Reserve(n));
  }

  lemma AnnouncingIsPossible(run: Run, build: nat) returns (later: Run, n: Name)
    requires run.Legal() && Settled(run.Last().disk.record.state) && run.Last().disk.previous.None?
    requires NotOlder(Some(build), ActiveBuild(run.Last().disk))
    ensures later.Legal() && later.Last().disk.active == run.Last().disk.active
    ensures var d := later.Last().disk;
      && d.record.state.DownloadingCandidate? && d.record.candidateBuild == Some(build)
      && d.record.candidate == Some(n) && n in d.releases
  {
    later, n := ReservingIsPossible(run);
    later := Next(later, Announce(n, build));
  }

  /** From a settled world without a previous release, any newer build can be staged. */
  lemma StagingIsPossible(run: Run, build: nat) returns (later: Run)
    requires run.Legal() && Settled(run.Last().disk.record.state) && run.Last().disk.previous.None?
    requires NotOlder(Some(build), ActiveBuild(run.Last().disk))
    ensures later.Legal() && later.Last().backedUp && later.Last().disk.active == run.Last().disk.active
    ensures var d := later.Last().disk;
      d.record.state.DownloadingCandidate? && d.record.candidateBuild == Some(build) && Matches(d, d.record.candidate)
  {
    var n;
    later, n := AnnouncingIsPossible(run, build);
    later := Next(later, Fill(Release(Some(build), true)));
    later := Next(later, SaveWorld);
  }

  /** A staged candidate can be promoted and armed, */
  lemma ArmingIsPossible(run: Run) returns (later: Run)
    requires run.Legal() && run.Last().disk.record.state.DownloadingCandidate? && run.Last().backedUp
    requires Matches(run.Last().disk, run.Last().disk.record.candidate)
    ensures later.Legal() && later.Last().backedUp && later.Last().disk.active == run.Last().disk.active
    ensures var d := later.Last().disk;
      && d.record.state.Activating? && Matches(d, d.record.candidate) && !Switched(d)
      && d.record.candidateBuild == run.Last().disk.record.candidateBuild
  {
    RunKeepsInvariant(run, |run.acts|);
    var n := run.Last().supply;
    later := Next(run, TakeName);
    later := Next(later, Promote(n));
    later := Next(later, Rename);
    later := Next(later, Arm);
  }

  /** then selected, */
  lemma SelectionIsPossible(run: Run) returns (later: Run)
    requires run.Legal() && run.Last().disk.record.state.Activating? && run.Last().backedUp
    requires Matches(run.Last().disk, run.Last().disk.record.candidate) && !Switched(run.Last().disk)
    ensures later.Legal() && later.Last().disk.record.state.PendingReadiness?
    ensures var d, d' := run.Last().disk, later.Last().disk;
      && d'.active == d.record.candidate && d'.previous == d.active && d'.releases == d.releases
  {
    RunKeepsInvariant(run, |run.acts|);
    later := Next(run, KeepPrevious);
    later := Next(later, Switch);
    later := Next(later, Select);
  }

  /** and then opened and accepted. */
  lemma AcceptanceIsPossible(run: Run) returns (later: Run)
    requires run.Legal() && run.Last().disk.record.state.Activating? && run.Last().backedUp
    requires Matches(run.Last().disk, run.Last().disk.record.candidate) && !Switched(run.Last().disk)
    ensures later.Legal() && later.Last().disk.record.state.Current?
    ensures var d, d' := run.Last().disk, later.Last().disk;
      && d'.active.Some? && d'.active != d.active && d'.previous == d.active && d'.releases == d.releases
      && ActiveBuild(d') == d.record.candidateBuild
  {
    later := SelectionIsPossible(run);
    later := Next(later, OpenWorld);
    later := Next(later, AcceptLocally);
  }

  /** A settled world whose previous pointer names a missing directory is reachable: install,
      update, and crash between deleting the old fallback release and unlinking its pointer. */
  lemma DanglingPreviousIsReachable() returns (run: Run)
    ensures run.Legal() && Settled(run.Last().disk.record.state)
    ensures run.Last().disk.active.Some? && !PreviousResolves(run.Last().disk)
  {
    run := StagingIsPossible(Run([FRESH_WORLD], []), 1);
    run := ArmingIsPossible(run);
    run := AcceptanceIsPossible(run);
    var first := run.Last().disk.active;
    assert Intact(run.Last().disk, first.value) by { RunKeepsInvariant(run, |run.acts|); }
    run := StagingIsPossible(run, 2);
    run := ArmingIsPossible(run);
    assert Intact(run.Last().disk, first.value) by { RunKeepsInvariant(run, |run.acts|); }
    run := AcceptanceIsPossible(run);
    run := Next(run, Erase(first.value));
  }
}
