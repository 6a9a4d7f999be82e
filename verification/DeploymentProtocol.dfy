/** Repository deployment on the host as a protocol over durable state: which commands may run
    in which state, the invariant every crash point keeps, and what a retry finds there. */
module DeploymentProtocol {
  import opened Basics

  type Commit = nat

  /** A watchdog environment directory. A half-built or half-deleted one is no environment. */
  datatype Venv = Missing | Partial | Built(commit: Commit)

  /** The content of the deployment-pending marker. */
  datatype Transition = Transition(previous: Commit, target: Commit)

  /** What a marker change has led to that landed and was then reported as failed, because its
      directory could not be synced: a transition that counts as not begun, a transition whose
      marker is gone and that is being undone all the same, or an undo that broke off. `bare`
      undoes what was begun on a stray host. */
  datatype Lapse = Synced | BegunLate | Undoing(undone: Transition, bare: bool) | Stray

  /** `head` is the checked-out commit, `orchestrator` and `recovery` the commits the installed
      and the preserved pzctl come from. `lapse` is no file. */
  datatype Host = Host(
    head: Commit,
    pending: Option<Transition>,
    deployed: Option<Commit>,
    venv: Venv,
    fallback: Venv,
    recovery: Option<Commit>,
    orchestrator: Commit,
    lapse: Lapse)

  /** One command with a durable effect. A late one lands and is reported as failed; Settle is
      the start of a process, which knows nothing of an undo that was under way. */
  datatype Action =
    | ClearFallback | SpoilFallback
    | KeepOrchestrator | DropOrchestrator
    | Begin(target: Commit) | BeginLate(target: Commit)
    | Cancel
    | Preserve
    | Checkout(commit: Commit)
    | RemoveVenv | SpoilVenv
    | Restore
    | BuildVenv
    | InstallOrchestrator
    | RecordDeployed(recorded: Commit)
    | Finish | FinishLate
    | Settle

  /** The host was installed from `head`. */
  predicate Installed(h: Host) {
    h.venv == Built(h.head) && h.orchestrator == h.head
  }

  /** The environment of the commit before the transition still exists. */
  predicate PreviousSurvives(h: Host, previous: Commit) {
    h.fallback == Built(previous) || (h.fallback.Missing? && h.venv == Built(previous) && h.head == previous)
  }

  /** The transition that is being carried out or undone, by its marker or without one. */
  function InForce(h: Host): Option<Transition> {
    if h.pending.Some? then h.pending else if h.lapse.Undoing? then Some(h.lapse.undone) else None
  }

  /** Nothing is promised any more about the environment of the previous commit. */
  predicate Unprotected(h: Host) {
    h.lapse.Stray? || (h.lapse.Undoing? && h.lapse.bare)
  }

  predicate Enabled(h: Host, a: Action) {
    a.Settle? ||
    match h.lapse
    case Synced => Transits(h, a)
    case BegunLate => Transits(h, a) || (a.DropOrchestrator? && h.fallback.Missing? && Installed(h))
    case Undoing(t, bare) => Undoes(h, t, bare, a)
    case Stray => Strays(h, a)
  }

  /** The commands of a transition, under its marker. */
  predicate Transits(h: Host, a: Action) {
    match a
    case ClearFallback => h.pending.None?
    case SpoilFallback => h.pending.None?
    case KeepOrchestrator => h.pending.None?
    case DropOrchestrator => h.pending.None?
    case Begin(target) => MayBegin(h, target)
    case BeginLate(target) => MayBegin(h, target)
    case Cancel =>
      && h.pending.Some? && h.head == h.pending.value.previous && Installed(h)
      && (h.deployed.Some? ==> h.deployed.value == h.head)
    case Preserve =>
      h.pending.Some? && h.fallback.Missing? && h.venv == Built(h.pending.value.previous)
    case Checkout(commit) =>
      && h.pending.Some? && h.fallback == Built(h.pending.value.previous)
      && (commit == h.pending.value.previous || commit == h.pending.value.target)
    case RemoveVenv => h.pending.Some? && h.fallback == Built(h.pending.value.previous)
    case SpoilVenv => h.pending.Some? && h.fallback == Built(h.pending.value.previous)
    case BuildVenv => h.pending.Some? && h.fallback == Built(h.pending.value.previous)
    case Restore =>
      && h.pending.Some? && h.head == h.pending.value.previous && h.venv.Missing?
      && h.fallback == Built(h.head)
    case InstallOrchestrator => h.pending.Some?
    case RecordDeployed(recorded) => h.pending.Some? && Installed(h) && recorded == h.head
    case Finish => h.pending.Some? && Installed(h) && h.deployed == Some(h.head)
    case FinishLate => h.pending.Some? && Installed(h) && h.deployed == Some(h.head)
    case Settle => true
  }

  predicate MayBegin(h: Host, target: Commit) {
    && h.pending.None? && h.fallback.Missing? && Installed(h) && h.recovery == Some(h.head)
    && (h.deployed == Some(h.head) || (h.deployed.None? && target == h.head))
  }

  /** The commands of a rollback whose transition has lost its marker. */
  predicate Undoes(h: Host, t: Transition, bare: bool, a: Action) {
    match a
    case Checkout(commit) => commit == t.previous && (bare || h.fallback == Built(t.previous))
    case RemoveVenv => bare || h.fallback == Built(t.previous)
    case SpoilVenv => bare || h.fallback == Built(t.previous)
    case Restore => h.head == t.previous && (bare || (h.venv.Missing? && h.fallback == Built(t.previous)))
    case InstallOrchestrator => h.head == t.previous
    case RecordDeployed(recorded) => recorded == h.head == t.previous && (bare || Installed(h))
    case Finish => h.head == t.previous && h.deployed == Some(h.head)
    case FinishLate => h.head == t.previous && h.deployed == Some(h.head)
    case DropOrchestrator => h.head == t.previous && h.deployed == Some(h.head)
    case _ => false
  }

  /** The commands on a host whose last undo broke off: the order of the markers alone. */
  predicate Strays(h: Host, a: Action) {
    match a
    case ClearFallback => h.pending.None?
    case SpoilFallback => h.pending.None?
    case KeepOrchestrator => h.pending.None?
    case DropOrchestrator => true
    case Begin(_) => h.pending.None?
    case BeginLate(_) => h.pending.None?
    case Checkout(commit) =>
      h.pending.Some? && (commit == h.pending.value.previous || commit == h.pending.value.target)
    case RecordDeployed(recorded) => h.pending.Some? && recorded == h.head
    case Finish => h.pending.Some? && h.deployed == Some(h.head)
    case FinishLate => h.pending.Some? && h.deployed == Some(h.head)
    case _ => h.pending.Some?
  }

  function Apply(h: Host, a: Action): Host {
    match a
    case ClearFallback => h.(fallback := Missing)
    case SpoilFallback => h.(fallback := Partial)
    case KeepOrchestrator => h.(recovery := Some(h.orchestrator))
    case DropOrchestrator => h.(recovery := None)
    case Begin(target) => h.(pending := Some(Transition(h.head, target)))
    case BeginLate(target) =>
      h.(pending := Some(Transition(h.head, target)), lapse := if h.lapse.Stray? then Stray else BegunLate)
    case Cancel => Over(h)
    case Preserve => h.(fallback := h.venv, venv := Missing)
    case Checkout(commit) => h.(head := commit)
    case RemoveVenv => h.(venv := Missing)
    case SpoilVenv => h.(venv := Partial)
    case BuildVenv => h.(venv := Built(h.head))
    case Restore => h.(venv := h.fallback, fallback := Missing)
    case InstallOrchestrator => h.(orchestrator := h.head)
    case RecordDeployed(recorded) => h.(deployed := Some(recorded))
    case Finish => Over(h)
    case FinishLate =>
      if h.pending.None? then h else h.(pending := None, lapse := Undoing(h.pending.value, h.lapse.Stray?))
    case Settle =>
      h.(lapse := if Recoverable(h) then Synced else if Resumable(h) then BegunLate else Stray)
  }

  /** The host after an action, if the protocol allows it. */
  function Step(h: Host, a: Action): Option<Host> {
    if Enabled(h, a) then Some(Apply(h, a)) else None
  }

  /** The marker is gone, and with it a transition that began late. */
  function Over(h: Host): Host {
    h.(pending := None, lapse := if h.lapse.BegunLate? then Synced else h.lapse)
  }

  /** A pending transition can be resumed or undone, and without one the checkout, the marker and
      the installation agree. */
  predicate Resumable(h: Host) {
    match h.pending
    case None => Installed(h) && (h.deployed.Some? ==> h.deployed.value == h.head)
    case Some(t) =>
      && (h.head == t.previous || h.head == t.target)
      && (if h.deployed.Some? then h.deployed.value == t.previous || h.deployed.value == t.target
          else t.previous == t.target)
      && PreviousSurvives(h, t.previous)
  }

  /** And the orchestrator that began a pending transition is preserved. */
  predicate Recoverable(h: Host) {
    Resumable(h) && (h.pending.Some? ==> h.recovery == Some(h.pending.value.previous))
  }

  /** Every crash point is recoverable, except for what a late sync has led to: a transition
      begun late may have lost its orchestrator, and one that is undone without a marker would
      be resumable with it. */
  predicate Inv(h: Host) {
    match h.lapse
    case Synced => Recoverable(h)
    case BegunLate => h.pending.Some? && Resumable(h)
    case Undoing(t, bare) => h.pending.None? && (bare || Resumable(h.(pending := Some(t))))
    case Stray => true
  }

  /** A host before its first deployment: installed, with or without a marker for that commit. */
  predicate Fresh(h: Host) {
    && h.pending.None? && h.lapse.Synced? && h.fallback.Missing? && h.recovery.None?
    && Installed(h) && (h.deployed.None? || h.deployed == Some(h.head))
  }

  lemma ActionKeepsInvariant(h: Host, a: Action)
    requires Inv(h) && Enabled(h, a)
    ensures Inv(Apply(h, a))
  {
  }

  /** The commands run on one host, in order, over any number of pzctl processes and crashes. */
  datatype Run = Run(hosts: seq<Host>, acts: seq<Action>) {

    ghost predicate Legal() {
      && |hosts| == |acts| + 1 && Fresh(hosts[0])
      && forall i {:trigger acts[i]} :: 0 <= i < |acts| ==>
           Enabled(hosts[i], acts[i]) && hosts[i + 1] == Apply(hosts[i], acts[i])
    }

    function Last(): Host
      requires |hosts| > 0
    {
      hosts[|hosts| - 1]
    }

    function Extend(a: Action): Run
      requires |hosts| > 0
    {
      Run(hosts + [Apply(Last(), a)], acts + [a])
    }
  }

  lemma {:induction false} RunKeepsInvariant(run: Run, i: nat)
    requires run.Legal() && i < |run.hosts|
    ensures Inv(run.hosts[i])
  {
    if i > 0 {
      RunKeepsInvariant(run, i - 1);
      assert Enabled(run.hosts[i - 1], run.acts[i - 1]);
      ActionKeepsInvariant(run.hosts[i - 1], run.acts[i - 1]);
    }
  }

  lemma ExtendingKeepsRunLegal(run: Run, a: Action)
    requires run.Legal() && Enabled(run.Last(), a)
    ensures run.Extend(a).Legal() && run.Extend(a).Last() == Apply(run.Last(), a)
    ensures Inv(run.Extend(a).Last())
  {
    RunKeepsInvariant(run, |run.acts|);
    ActionKeepsInvariant(run.Last(), a);
  }

  // ---------------------------------------------------------------- what a retry finds

  /** The guards of `deploy_commit` that would strand a pending deployment. */
  predicate RetryIsStranded(h: Host) {
    h.pending.Some? &&
    var t := h.pending.value;
    || (h.head != t.previous && h.head != t.target)
    || (h.head == t.target && t.previous != t.target && h.fallback.Missing?)
    || (h.fallback.Missing? && !h.venv.Built?)
  }

  /** The guards that would refuse a new deployment on a settled host. */
  predicate HostHasDrifted(h: Host) {
    h.pending.None? && ((h.deployed.Some? && h.deployed.value != h.head) || !h.venv.Built?)
  }

  /** No crash point strands a same-SHA retry or a later deployment, unless a late removal of the
      marker made a rollback undo a finished transition. */
  lemma NoCrashPointStrandsTheHost(run: Run, i: nat)
    requires run.Legal() && i < |run.hosts| && (run.hosts[i].lapse.Synced? || run.hosts[i].lapse.BegunLate?)
    ensures !RetryIsStranded(run.hosts[i]) && !HostHasDrifted(run.hosts[i])
    ensures run.hosts[i].pending.Some? ==> PreviousSurvives(run.hosts[i], run.hosts[i].pending.value.previous)
    ensures run.hosts[i].pending.Some? && run.hosts[i].lapse.Synced? ==>
              run.hosts[i].recovery == Some(run.hosts[i].pending.value.previous)
  {
    RunKeepsInvariant(run, i);
  }

  /** Only a late removal can lead to such an undo, and only a late marker to a lost orchestrator:
      a run without the one stays resumable, and without both it stays recoverable. */
  lemma {:induction false} OnlyLateMarkersLapse(run: Run, i: nat)
    requires run.Legal() && i < |run.hosts| && forall k :: 0 <= k < i ==> !run.acts[k].FinishLate?
    ensures Resumable(run.hosts[i]) && (run.hosts[i].lapse.Synced? || run.hosts[i].lapse.BegunLate?)
    ensures (forall k :: 0 <= k < i ==> !run.acts[k].BeginLate?) ==>
              run.hosts[i].lapse.Synced? && Recoverable(run.hosts[i])
  {
    RunKeepsInvariant(run, i);
    if i > 0 {
      OnlyLateMarkersLapse(run, i - 1);
      assert Enabled(run.hosts[i - 1], run.acts[i - 1]) && !run.acts[i - 1].FinishLate?;
    }
  }

  /** A transition ends only on a fully installed commit: finished on either of its two, or
      cancelled on the one it started from. */
  lemma TransitionsEndInstalled(run: Run, i: nat)
    requires run.Legal() && i < |run.acts| && !run.hosts[i].lapse.Stray?
    requires run.hosts[i].pending.Some? && run.hosts[i + 1].pending.None?
    ensures var t, h := run.hosts[i].pending.value, run.hosts[i + 1];
      && Installed(h) && (h.head == t.previous || h.head == t.target)
      && (run.acts[i].Finish? || run.acts[i].FinishLate? || (run.acts[i].Cancel? && h.head == t.previous))
  {
    RunKeepsInvariant(run, i);
    assert Enabled(run.hosts[i], run.acts[i]);
  }

  // ---------------------------------------------------------------- late syncs

  /** The three commands that change a marker. */
  predicate ChangesMarker(a: Action) {
    a.Begin? || a.RecordDeployed? || a.Finish?
  }

  /** What such a command leaves behind when it lands and is reported as failed. */
  function Late(a: Action): Action {
    match a
    case Begin(target) => BeginLate(target)
    case Finish => FinishLate
    case _ => a
  }

  /** What the code runs after that report, when nothing else fails: it drops the orchestrator of
      a transition it takes as not begun, rolls a cut-over back, and gives up a rollback. */
  function Handler(h: Host, a: Action): seq<Action> {
    if a.Begin? then [DropOrchestrator]
    else if h.pending.Some? && h.fallback.Built? then
      Rollback(h.pending.value.previous)
    else []
  }

  /** The host after the first `k` of these commands. */
  function After(h: Host, acts: seq<Action>, k: nat): Host
    requires k <= |acts|
  {
    if k == 0 then h else Apply(After(h, acts, k - 1), acts[k - 1])
  }

  /** The commands run in this order, and a crash behind any of them leaves a recoverable host. */
  ghost predicate RecoverableThroughout(h: Host, acts: seq<Action>) {
    forall k :: 0 <= k <= |acts| ==> Recoverable(After(h, acts, k))
  }

  ghost predicate Runs(h: Host, acts: seq<Action>) {
    forall k :: 0 <= k < |acts| ==> Enabled(After(h, acts, k), acts[k])
  }

  /** Exactly which late syncs can be followed by a crash that leaves the host unrecoverable: that
      of the pending marker, and its late removal behind a cut-over. The deployed marker may be
      late, and so may the removal behind a rollback. */
  lemma LateSyncsThatBreakRecovery(h: Host, a: Action)
    requires h.lapse.Synced? && Inv(h) && Enabled(h, a) && ChangesMarker(a)
    ensures Runs(Apply(h, Late(a)), Handler(h, a))
    ensures RecoverableThroughout(Apply(h, Late(a)), Handler(h, a))
        <==> a.RecordDeployed? || (a.Finish? && !h.fallback.Built?)
  {
    var late, acts := Apply(h, Late(a)), Handler(h, a);
    assert After(late, acts, 0) == late;
    if a.Begin? {
      assert !Recoverable(After(late, acts, 1));
    } else if !h.fallback.Built? {
      assert Recoverable(late);
    } else if a.Finish? {
      LateRollbackIsNot(late, h.pending.value.previous);
    } else {
      RollbackIsRecoverable(late, h.pending.value.previous);
    }
  }

  /** The rollback of a transition: seven commands, */
  function Rollback(p: Commit): seq<Action> {
    [Checkout(p), RemoveVenv, Restore, InstallOrchestrator, RecordDeployed(p), Finish, DropOrchestrator]
  }

  /** and the host after `k` of them. */
  function RolledBack(h: Host, p: Commit, k: nat): Host {
    var back := h.(head := if k < 1 then h.head else p,
                   venv := if k < 2 then h.venv else if k < 3 then Missing else h.fallback,
                   fallback := if k < 3 then h.fallback else Missing,
                   orchestrator := if k < 4 then h.orchestrator else p,
                   deployed := if k < 5 then h.deployed else Some(p),
                   recovery := if k < 7 then h.recovery else None);
    if k < 6 then back else Over(back)
  }

  lemma {:induction false} RollbackStates(h: Host, p: Commit, k: nat)
    requires k <= 7
    ensures After(h, Rollback(p), k) == RolledBack(h, p, k)
  {
    if k > 0 {
      RollbackStates(h, p, k - 1);
    }
  }

  lemma RollbackMayContinue(h: Host, p: Commit, k: nat)
    requires k < 7 && h.fallback == Built(p) && Inv(h)
    requires if h.lapse.Undoing? then !h.lapse.bare && h.lapse.undone.previous == p
             else h.lapse.Synced? && h.pending.Some? && h.pending.value.previous == p
    ensures Enabled(RolledBack(h, p, k), Rollback(p)[k])
  {
  }

  /** The rollback of a marked transition is recoverable throughout. */
  lemma RollbackIsRecoverable(h: Host, p: Commit)
    requires h.lapse.Synced? && Inv(h) && h.pending.Some? && h.pending.value.previous == p && h.fallback == Built(p)
    ensures Runs(h, Rollback(p)) && RecoverableThroughout(h, Rollback(p))
  {
    forall k | 0 <= k <= 7 ensures Recoverable(After(h, Rollback(p), k)) {
      RollbackStates(h, p, k);
    }
    forall k | 0 <= k < 7 ensures Enabled(After(h, Rollback(p), k), Rollback(p)[k]) {
      RollbackStates(h, p, k);
      RollbackMayContinue(h, p, k);
    }
  }

  /** Without the marker it is not, once the environment is removed. */
  lemma LateRollbackIsNot(h: Host, p: Commit)
    requires h.lapse.Undoing? && !h.lapse.bare && Inv(h) && h.lapse.undone.previous == p && h.fallback == Built(p)
    ensures Runs(h, Rollback(p)) && !RecoverableThroughout(h, Rollback(p))
  {
    forall k | 0 <= k < 7 ensures Enabled(After(h, Rollback(p), k), Rollback(p)[k]) {
      RollbackStates(h, p, k);
      RollbackMayContinue(h, p, k);
    }
    RollbackStates(h, p, 2);
    assert !Recoverable(After(h, Rollback(p), 2));
  }

  lemma Next(run: Run, a: Action) returns (later: Run)
    requires run.Legal() && Enabled(run.Last(), a)
    ensures later.Legal() && later.Last() == Apply(run.Last(), a)
  {
    ExtendingKeepsRunLegal(run, a);
    later := run.Extend(a);
  }

  /** A pending marker that lands late is left behind without its recovery orchestrator, */
  lemma LateSyncLosesRecovery(previous: Commit, target: Commit) returns (run: Run)
    ensures run.Legal() && run.Last().pending == Some(Transition(previous, target)) && run.Last().recovery.None?
  {
    run := Run([Host(previous, None, Some(previous), Built(previous), Missing, None, previous, Synced)], []);
    run := Next(run, KeepOrchestrator);
    run := Next(run, BeginLate(target));
    run := Next(run, DropOrchestrator);
  }

  lemma TransitionIsPossible(previous: Commit, target: Commit) returns (run: Run)
    ensures run.Legal() && run.Last() == Host(previous, Some(Transition(previous, target)), Some(previous), Missing,
                                              Built(previous), Some(previous), previous, Synced)
  {
    run := Run([Host(previous, None, Some(previous), Built(previous), Missing, None, previous, Synced)], []);
    run := Next(run, KeepOrchestrator);
    run := Next(run, Begin(target));
    run := Next(run, Preserve);
  }

  lemma FinishingLateIsPossible(previous: Commit, target: Commit) returns (run: Run)
    ensures run.Legal() && run.Last() == Host(target, None, Some(target), Built(target), Built(previous),
                                              Some(previous), target, Undoing(Transition(previous, target), false))
  {
    run := TransitionIsPossible(previous, target);
    run := Next(run, Checkout(target));
    run := Next(run, BuildVenv);
    run := Next(run, InstallOrchestrator);
    run := Next(run, RecordDeployed(target));
    run := Next(run, FinishLate);
  }

  /** a removal that lands late is followed by the rollback of a finished deployment, which a
      crash leaves drifted, so that the next deployment is refused, */
  lemma LateSyncDriftsTheHost(previous: Commit, target: Commit) returns (run: Run)
    requires previous != target
    ensures run.Legal() && HostHasDrifted(run.Last())
    ensures run.Last().deployed == Some(target) && run.Last().head == previous
  {
    run := FinishingLateIsPossible(previous, target);
    run := Next(run, Checkout(previous));
  }

  /** and if that deployment repeated the same commit, the next one is not refused: the crash has
      left the preserved environment as the only one, and it is deleted. */
  lemma LateSyncLosesEveryEnvironment(commit: Commit) returns (run: Run)
    ensures run.Legal() && run.Last().venv.Missing? && run.Last().fallback.Missing?
    ensures run.Last().pending.None? && run.Last().deployed == Some(commit) && run.Last().head == commit
  {
    run := FinishingLateIsPossible(commit, commit);
    run := Next(run, Checkout(commit));
    run := Next(run, RemoveVenv);
    run := Next(run, Settle);
    run := Next(run, ClearFallback);
  }
}
