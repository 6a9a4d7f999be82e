/** `pzctl deploy`: the commands of deploy_commit and rollback_deployment over one host. Every
    command with a durable effect is logged as an action of DeploymentProtocol. */
module Deployment {
  import opened Basics
  import opened DeploymentProtocol

  /** How a run of `pzctl deploy` ends. The guards that name a reason refuse before anything
      durable is changed. */
  datatype Exit =
    | Success | Failure | Interrupted
    | DirtyCheckout | OtherPending | NoBaseline
    | PendingDrift | NoFallback | RepositoryDrift | NoWatchdog

  /** Every answer of Git, Docker and systemd that is not itself a durable command. */
  datatype Surroundings = Surroundings(
    clean: bool,
    policyDisabled: bool,
    fetched: bool,
    passesPreflight: bool,
    quiesces: bool,
    venvBuilds: bool,
    servicesStart: bool,
    ready: bool,
    revokes: bool,
    rollbackQuiesces: bool,
    rollbackAuthorized: bool,
    previousStarts: bool,
    previousReady: bool,
    rollbackRevokes: bool)
  {
    predicate Prepared() {
      clean && policyDisabled && fetched && passesPreflight
    }

    predicate Proceeds() {
      Prepared() && quiesces
    }

    predicate TargetWorks() {
      venvBuilds && servicesStart && ready
    }

    predicate PreviousWorks() {
      rollbackQuiesces && rollbackAuthorized && previousStarts && previousReady
    }
  }

  /** What takes effect of a command, by what the adversary does to it. A marker change that
      fails late has landed; deleting and building directories can stop half-way. */
  function Landed(a: Action, f: Fault): Option<Action> {
    match f
    case Fine => Some(a)
    case CrashesAfter => Some(a)
    case FailsBefore => None
    case FailsAfter =>
      if ChangesMarker(a) || a.Checkout? || a.KeepOrchestrator? then Some(Late(a)) else HalfDone(a)
    case CrashesBefore => HalfDone(a)
  }

  function HalfDone(a: Action): Option<Action> {
    if a.RemoveVenv? || a.BuildVenv? then Some(SpoilVenv)
    else if a.ClearFallback? then Some(SpoilFallback)
    else None
  }

  function Effect(h: Host, a: Action, f: Fault): Host {
    if Landed(a, f).Some? then Apply(h, Landed(a, f).value) else h
  }

  lemma LandedIsEnabled(h: Host, a: Action, f: Fault)
    requires Enabled(h, a) && Landed(a, f).Some?
    ensures Enabled(h, Landed(a, f).value)
  {
  }

  /** The marker, or the lack of one, admits this target. */
  predicate Accepted(h: Host, target: Commit) {
    match h.pending
    case Some(t) => t.target == target
    case None => h.deployed.Some? || h.head == target
  }

  predicate IsRetry(h: Host, target: Commit) {
    h.pending.Some? && h.pending.value.target == target
  }

  predicate OnEitherSide(h: Host)
    requires h.pending.Some?
  {
    h.head == h.pending.value.previous || h.head == h.pending.value.target
  }

  /** The target is checked out and nothing is preserved to go back to. */
  predicate LacksFallback(h: Host)
    requires h.pending.Some?
  {
    h.head == h.pending.value.target && h.pending.value.previous != h.pending.value.target && h.fallback.Missing?
  }

  /** Marker and checkout allow a deployment of `target`, and there is something to deploy. */
  predicate PassesMarkers(h: Host, target: Commit) {
    if h.pending.Some? then IsRetry(h, target) && OnEitherSide(h) && !LacksFallback(h)
    else h.deployed != Some(target) && if h.deployed.Some? then h.deployed.value == h.head else h.head == target
  }

  /** The transition away from `previous` is in force, and its environment is preserved as far as
      anything is promised about it. */
  predicate Undoable(h: Host, previous: Commit) {
    && InForce(h).Some? && InForce(h).value.previous == previous
    && (Unprotected(h) || h.fallback == Built(previous))
  }

  class Deployer {
    var host: Host
    const faults: nat -> Fault
    var clock: nat
    ghost var run: Run

    ghost predicate Valid()
      reads this
    {
      run.Legal() && run.Last() == host && Inv(host)
    }

    /** From here on no command fails or is cut off, whatever happened before. */
    ghost predicate Reliable()
      reads this`clock
    {
      ReliableFrom(clock)
    }

    ghost predicate ReliableFrom(c: nat) {
      forall n :: n >= c ==> faults(n).Fine?
    }

    /** No command fails after it landed. */
    ghost predicate Syncs() {
      forall n :: !faults(n).FailsAfter?
    }

    /** Of the commands from `c` on, only one that records the deployment fails. */
    ghost predicate RecordingFails(c: nat) {
      if faults(c).Fine? then FailsAlone(c + 1) else FailsAlone(c)
    }

    ghost predicate FailsAlone(c: nat) {
      !faults(c).Fine? && !faults(c).Crashes() && ReliableFrom(c + 1)
    }

    constructor (host: Host, faults: nat -> Fault)
      requires Fresh(host)
      ensures Valid() && this.host == host && this.faults == faults
    {
      this.host, this.faults, clock, run := host, faults, 0, Run([host], []);
    }

    /** A new process finds whatever the last one left on the host. */
    constructor Open(host: Host, faults: nat -> Fault, ghost run: Run)
      requires run.Legal() && run.Last() == host
      ensures Valid() && this.host == host && this.faults == faults && this.run == run && clock == 0
    {
      this.host, this.faults, this.run, clock := host, faults, run, 0;
      RunKeepsInvariant(run, |run.acts|);
    }

    ghost method Log(a: Action, before: Host)
      requires run.Legal() && run.Last() == before && Step(before, a) == Some(host)
      modifies this`run
      ensures Valid()
    {
      ExtendingKeepsRunLegal(run, a);
      run := run.Extend(a);
    }

    /** Run one durable command. */
    method Perform(a: Action) returns (o: Outcome)
      requires Valid() && Step(host, a).Some?
      modifies this
      ensures Valid() && clock == old(clock) + 1
      ensures host == Effect(old(host), a, faults(old(clock)))
      ensures o == if faults(old(clock)).Fine? then Done else if faults(old(clock)).Crashes() then Crashed else Refused
    {
      var f := faults(clock);
      clock := clock + 1;
      var landed := Landed(a, f);
      if landed.Some? {
        LandedIsEnabled(host, a, f);
        ghost var before := host;
        host := Apply(host, landed.value);
        Log(landed.value, before);
      }
      o := if f.Fine? then Done else if f.Crashes() then Crashed else Refused;
    }

    /** record_deployed_commit. */
    method RecordDeployment(commit: Commit) returns (o: Outcome)
      requires Valid() && Step(host, RecordDeployed(commit)).Some?
      modifies this
      ensures Valid() && clock >= old(clock)
      ensures host == old(host).(pending := host.pending, deployed := host.deployed, lapse := host.lapse)
      ensures o.Done? ==> host == Over(old(host).(deployed := Some(commit)))
      ensures o.Refused? ==> InForce(host) == InForce(old(host))
      ensures o.Done? || o.Refused? || o.Crashed?
      ensures Unprotected(host) == Unprotected(old(host))
      ensures Syncs() && old(host).lapse.Synced? ==> host.lapse.Synced?
      ensures old(Reliable()) ==> o.Done?
      ensures RecordingFails(old(clock)) ==> o.Refused? && Reliable()
      // The removal of the marker lands and is reported as failed.
      ensures faults(old(clock)).Fine? && faults(old(clock) + 1).FailsAfter? ==>
                o.Refused? && clock == old(clock) + 2 && host.pending.None? && host.deployed == Some(commit)
    {
      o := Perform(RecordDeployed(commit));
      if o.Done? {
        o := Perform(Finish);
      }
    }

    /** install-host.sh: the environment unless it is preserved, pzctl, the services. */
    method InstallHost(preserveVenv: bool, venvBuilds: bool, servicesStart: bool) returns (o: Outcome)
      requires Valid() && InForce(host).Some? && (host.pending.None? ==> host.head == InForce(host).value.previous)
      requires if preserveVenv then Unprotected(host) || host.venv == Built(host.head)
               else host.pending.Some? && Undoable(host, host.pending.value.previous)
      modifies this
      ensures Valid() && clock >= old(clock)
      ensures host == old(host).(venv := host.venv, orchestrator := host.orchestrator)
      ensures o.Done? && (!preserveVenv || old(host).venv == Built(host.head)) ==> Installed(host)
      ensures o.Done? || o.Refused? || o.Crashed?
      ensures old(Reliable()) ==> !o.Crashed?
      ensures old(Reliable()) ==>
                (o.Done? <==> servicesStart && if preserveVenv then old(host).venv.Built? else venvBuilds)
      ensures !preserveVenv && venvBuilds && servicesStart && faults(old(clock)).Fine?
              && faults(old(clock) + 1).Fine? ==>
                o.Done? && clock == old(clock) + 2
    {
      if preserveVenv {
        if !host.venv.Built? {
          o := Refused;
          return;
        }
      } else {
        o := Perform(if venvBuilds then BuildVenv else SpoilVenv);
        if !o.Done? || !venvBuilds {
          o := if o.Done? then Refused else o;
          return;
        }
      }
      o := Perform(InstallOrchestrator);
      if o.Done? && !servicesStart {
        o := Refused;
      }
    }

    /** The preserved environment replaces the current one, if it exists. */
    method SwapEnvironments(previous: Commit) returns (o: Outcome)
      requires Valid() && Undoable(host, previous) && host.head == previous
      modifies this
      ensures Valid() && clock >= old(clock)
      ensures host == old(host).(venv := host.venv, fallback := host.fallback)
      ensures o.Done? ==> host == old(host).(venv := old(host).fallback, fallback := Missing)
      ensures faults(old(clock)).CrashesAfter? ==> o.Crashed? && host == old(host).(venv := Missing)
      ensures old(Reliable()) && !Unprotected(old(host)) ==> o.Done?
    {
      o := Perform(RemoveVenv);
      if o.Done? {
        if host.fallback.Missing? {
          o := Refused;
        } else {
          o := Perform(Restore);
        }
      }
    }

    /** The part of rollback_deployment that puts the old commit back in place. */
    method RestorePrevious(previous: Commit) returns (o: Outcome)
      requires Valid() && Undoable(host, previous)
      modifies this
      ensures Valid() && clock >= old(clock)
      ensures host == old(host).(head := host.head, venv := host.venv, fallback := host.fallback)
      ensures o.Done? ==> host == old(host).(head := previous, venv := old(host).fallback, fallback := Missing)
      ensures old(Reliable()) && !Unprotected(old(host)) ==> o.Done?
      ensures faults(old(clock)).Fine? && faults(old(clock) + 1).CrashesAfter? ==>
                o.Crashed? && host == old(host).(head := previous, venv := Missing)
      ensures faults(old(clock)).CrashesAfter? ==> o.Crashed? && host == old(host).(head := previous)
    {
      o := Perform(Checkout(previous));
      if o.Done? {
        o := SwapEnvironments(previous);
      }
    }

    /** rollback_deployment. */
    method RollbackDeployment(previous: Commit, env: Surroundings) returns (o: Outcome)
      requires Valid() && Undoable(host, previous)
      modifies this
      ensures Valid() && clock >= old(clock) && Unprotected(host) == Unprotected(old(host))
      ensures o.Done? ==> BackOn(previous, host)
      ensures old(Reliable()) && !Unprotected(old(host)) ==>
                !o.Crashed? && (env.PreviousWorks() ==> BackOn(previous, host))
                && (env.PreviousWorks() && env.rollbackRevokes <==> o.Done?)
      ensures old(Reliable()) && o.Done? ==> host.recovery.None?
      ensures Syncs() && old(host).lapse.Synced? ==> host.lapse.Synced?
      ensures env.rollbackQuiesces && faults(old(clock)).Fine? && faults(old(clock) + 1).CrashesAfter? ==>
                o.Crashed? && host == old(host).(head := previous, venv := Missing)
      ensures env.rollbackQuiesces && faults(old(clock)).CrashesAfter? ==>
                o.Crashed? && host == old(host).(head := previous)
    {
      if !env.rollbackQuiesces {
        o := Refused;
        return;
      }
      o := RestorePrevious(previous);
      if !o.Done? {
        return;
      }
      if !env.rollbackAuthorized {
        o := Refused;
        return;
      }
      o := InstallHost(true, false, env.previousStarts);
      if !o.Done? {
        return;
      }
      o := ConcludeRollback(previous, env);
    }

    /** The old commit is installed, recorded, and nothing is pending. */
    predicate BackOn(previous: Commit, h: Host) {
      && h.pending.None? && h.head == previous && h.deployed == Some(previous)
      && (Unprotected(h) || Installed(h))
    }

    /** The end of a rollback: readiness, the markers, the orchestrator. */
    method ConcludeRollback(previous: Commit, env: Surroundings) returns (o: Outcome)
      requires Valid() && Step(host, RecordDeployed(previous)).Some? && (Unprotected(host) || Installed(host))
      modifies this
      ensures Valid() && clock >= old(clock) && Unprotected(host) == Unprotected(old(host))
      ensures o.Done? ==> BackOn(previous, host)
      ensures old(Reliable()) ==>
                !o.Crashed? && (env.previousReady ==> BackOn(previous, host))
                && (env.previousReady && env.rollbackRevokes <==> o.Done?)
      ensures old(Reliable()) && o.Done? ==> host.recovery.None?
      ensures Syncs() && old(host).lapse.Synced? ==> host.lapse.Synced?
    {
      if !env.previousReady {
        o := Refused;
        return;
      }
      o := RecordDeployment(previous);
      if !o.Done? {
        return;
      }
      if !env.rollbackRevokes {
        o := Refused;
        return;
      }
      var ignored := Perform(DropOrchestrator);
      if ignored.Crashed? {
        o := Crashed;
      }
    }

    function Announced(h: Host, target: Commit): Host {
      h.(recovery := Some(h.orchestrator), pending := Some(Transition(h.head, target)))
    }

    /** The orchestrator first, then the marker; IoFailed means that not even a copy was made, */
    method WriteAnnouncement(target: Commit) returns (o: Outcome)
      requires Valid() && host.pending.None? && !host.lapse.Undoing?
      requires host.fallback.Missing? && (host.deployed.None? ==> target == host.head)
      modifies this
      ensures Valid() && clock > old(clock)
      ensures host == old(host) || host == old(host).(recovery := Some(host.orchestrator))
           || host == Announced(old(host), target)
           || host == Apply(old(host).(recovery := Some(host.orchestrator)), BeginLate(target))
      ensures o.Done? ==> host == Announced(old(host), target)
      ensures o.Refused? ==>
                && Step(host, DropOrchestrator).Some?
                && (host.pending.Some? <==> faults(old(clock)).Fine? && faults(old(clock) + 1).FailsAfter?)
                && (host.pending.Some? ==> host.lapse.BegunLate? || host.lapse.Stray?)
                && (host.pending.Some? ==> clock == old(clock) + 2)
      ensures faults(old(clock)).Fine? && faults(old(clock) + 1).FailsAfter? ==> o.Refused?
      ensures o.Done? || o.Refused? || o.IoFailed? || o.Crashed?
      ensures o.IoFailed? ==> host == old(host) && faults(clock - 1).FailsBefore? && clock == old(clock) + 1
      ensures old(Reliable()) ==> o.Done?
      ensures Syncs() ==> host.lapse == old(host).lapse
    {
      var installs := !faults(clock).FailsBefore?;
      o := Perform(KeepOrchestrator);
      if o.Done? {
        o := Perform(Begin(target));
      } else if o.Refused? && !installs {
        o := IoFailed;
      }
    }

    /** and any other failure drops the copy again. */
    method Announce(target: Commit) returns (o: Outcome)
      requires Valid() && host.pending.None? && !host.lapse.Undoing?
      requires host.fallback.Missing? && (host.deployed.None? ==> target == host.head)
      modifies this
      ensures Valid() && clock > old(clock)
      ensures host == old(host).(recovery := host.recovery, pending := host.pending, lapse := host.lapse)
      ensures o.Done? ==> host == Announced(old(host), target)
      ensures o.Done? || o.Refused? || o.Crashed?
      ensures old(Reliable()) ==> o.Done?
      // A failure withdraws the orchestrator, and leaves no marker unless that came late:
      ensures o.Refused? && faults(clock - 1).Fine? ==> host.recovery.None?
      ensures o.Refused? ==> (host.pending.Some? <==> faults(old(clock)).Fine? && faults(old(clock) + 1).FailsAfter?)
      ensures o.Refused? && host.pending.Some? ==> host.lapse.BegunLate? || host.lapse.Stray?
      ensures faults(old(clock)).Fine? && faults(old(clock) + 1).FailsAfter? && faults(old(clock) + 2).Fine? ==>
                && o.Refused? && host.pending == Some(Transition(host.head, target)) && host.recovery.None?
                && !Recoverable(host)
      ensures Syncs() ==> host.lapse == old(host).lapse
    {
      o := WriteAnnouncement(target);
      if o.Refused? {
        o := Perform(DropOrchestrator);
        o := if o.Crashed? then o else Refused;
      } else if o.IoFailed? {
        o := Refused;
      }
    }

    /** Commands before any interruption of the service: clear an old fallback, preserve the
        orchestrator, write the pending marker. */
    method BeginTransition(target: Commit) returns (o: Outcome)
      requires Valid() && host.pending.None? && !host.lapse.Undoing?
      requires host.deployed.None? ==> target == host.head
      modifies this
      ensures Valid() && clock > old(clock)
      ensures o.Done? ==> host == Announced(old(host).(fallback := Missing), target)
      ensures o.Done? || o.Refused? || o.Crashed?
      ensures host.venv == old(host).venv
      ensures !faults(old(clock)).FailsBefore? ==> !host.fallback.Built?
      ensures o.Refused? && !host.lapse.BegunLate? && !host.lapse.Stray? ==> host.pending.None?
      ensures o.Refused? && faults(clock - 1).Fine? ==> host.recovery.None?
      ensures old(Reliable()) ==> o.Done?
      ensures Syncs() ==> host.lapse == old(host).lapse
    {
      o := Perform(ClearFallback);
      if o.Done? {
        o := Announce(target);
      }
    }

    /** A fresh transition is cancelled when the running service cannot be stopped safely. */
    method CancelTransition() returns (o: Outcome)
      requires Valid() && host.pending.Some? && Step(host, Cancel).Some?
      modifies this
      ensures Valid() && clock >= old(clock) && (old(host).lapse.Synced? ==> host.lapse.Synced?)
      ensures host.venv == old(host).venv && host.fallback == old(host).fallback
      ensures o.Done? || o.Refused? ==> host == old(host) || host.pending.None?
      ensures old(Reliable()) ==> o.Done? && host == Over(old(host)).(recovery := None)
    {
      o := Perform(Cancel);
      if o.Done? {
        o := Perform(DropOrchestrator);
      }
    }

    /** Checkout, installation and readiness of the target. */
    method PutTarget(ghost previous: Commit, target: Commit, env: Surroundings) returns (o: Outcome)
      requires Valid() && host.pending == Some(Transition(previous, target)) && Undoable(host, previous)
      modifies this
      ensures Valid() && clock >= old(clock)
      ensures host == old(host).(head := host.head, venv := host.venv, orchestrator := host.orchestrator)
      ensures o.Done? || o.Refused? || o.Crashed?
      ensures o.Done? ==> host.head == target && Installed(host)
      ensures old(Reliable()) ==> !o.Crashed? && (o.Done? <==> env.TargetWorks())
      ensures env.TargetWorks() && faults(old(clock)).Fine? && faults(old(clock) + 1).Fine?
              && faults(old(clock) + 2).Fine? ==>
                o.Done? && clock == old(clock) + 3
    {
      o := Perform(Checkout(target));
      if o.Done? {
        o := InstallHost(false, env.venvBuilds, env.servicesStart);
      }
      if o.Done? && !env.ready {
        o := Refused;
      }
    }

    /** From the preserved environment to the recorded target. `recording` is the first command of
        recording it, if it got that far. */
    method InstallTarget(ghost previous: Commit, target: Commit, env: Surroundings)
      returns (o: Outcome, ghost recording: Option<nat>)
      requires Valid() && host.pending == Some(Transition(previous, target)) && Undoable(host, previous)
      modifies this
      ensures Valid() && clock >= old(clock) && Unprotected(host) == Unprotected(old(host))
      ensures o.Done? || o.Refused? || o.Crashed?
      ensures o.Done? ==> host.pending.None? && !host.lapse.Undoing? && host.head == target
                          && host.deployed == Some(target) && Installed(host)
      ensures o.Refused? ==> Undoable(host, previous)
      ensures old(Reliable()) ==> !o.Crashed? && (o.Done? <==> env.TargetWorks())
      ensures env.TargetWorks() && faults(old(clock)).Fine? && faults(old(clock) + 1).Fine?
              && faults(old(clock) + 2).Fine? ==>
                recording == Some(old(clock) + 3)
      ensures recording.Some? && RecordingFails(recording.value) ==> o.Refused? && Reliable()
      ensures recording.Some? && FinishesLate(recording.value) ==>
                && o.Refused? && clock == recording.value + 2
                && host.pending.None? && host.deployed == Some(target) && host.head == target
                && host.fallback == old(host).fallback
      ensures Syncs() && old(host).lapse.Synced? ==> host.lapse.Synced?
    {
      recording := None;
      o := PutTarget(previous, target, env);
      if o.Done? {
        recording := Some(clock);
        o := RecordDeployment(target);
      }
    }

    /** The deployment is recorded, and the removal of its marker comes late. */
    ghost predicate FinishesLate(c: nat) {
      faults(c).Fine? && faults(c + 1).FailsAfter?
    }

    /** The target, or back to the old commit. */
    method CutOver(previous: Commit, target: Commit, env: Surroundings) returns (o: Exit, ghost recording: Option<nat>)
      requires Valid() && host.pending == Some(Transition(previous, target)) && Undoable(host, previous)
      modifies this
      ensures Valid() && clock >= old(clock)
      ensures o.Success? || o.Failure? || o.Interrupted?
      ensures o.Success? ==>
                host.pending.None? && host.head == target && host.deployed == Some(target) && Installed(host)
      ensures old(Reliable()) && env.TargetWorks() && env.revokes ==>
                o.Success? && host.fallback.Missing? && host.recovery.None?
      ensures old(Reliable()) && !Unprotected(old(host)) && !env.TargetWorks() && env.PreviousWorks() ==>
                o.Failure? && BackOn(previous, host) && Installed(host)
      ensures env.TargetWorks() && faults(old(clock)).Fine? && faults(old(clock) + 1).Fine?
              && faults(old(clock) + 2).Fine? ==>
                recording == Some(old(clock) + 3)
      // A target that cannot be recorded is rolled back,
      ensures recording.Some? && RecordingFails(recording.value) && !Unprotected(old(host)) && env.PreviousWorks() ==>
                o.Failure? && BackOn(previous, host) && Installed(host)
      // also when its marker is gone by then, and a crash in that rollback leaves the host drifted.
      ensures recording.Some? && FinishesLate(recording.value) && faults(recording.value + 2).CrashesAfter?
              && env.rollbackQuiesces && previous != target ==>
                o.Interrupted? && HostHasDrifted(host) && host.deployed == Some(target) && host.head == previous
      // If the target was the same commit, the crash can leave its environment in the fallback alone.
      ensures recording.Some? && FinishesLate(recording.value) && faults(recording.value + 2).Fine?
              && faults(recording.value + 3).CrashesAfter? && env.rollbackQuiesces && previous == target ==>
                && o.Interrupted? && host.pending.None? && host.deployed == Some(host.head) && host.head == target
                && host.venv.Missing? && host.fallback == old(host).fallback
      ensures Syncs() && old(host).lapse.Synced? ==> host.lapse.Synced?
    {
      var done;
      done, recording := InstallTarget(previous, target, env);
      if done.Done? {
        o := Failure;
        if env.revokes {
          o := Retire();
        }
      } else {
        o := Interrupted;
        if !done.Crashed? {
          done := RollbackDeployment(previous, env);
          o := if done.Crashed? then Interrupted else Failure;
        }
      }
    }

    /** Drop what only an unfinished transition needs; failures are ignored. */
    method Retire() returns (o: Exit)
      requires Valid() && host.pending.None? && !host.lapse.Undoing?
      modifies this
      ensures Valid() && clock >= old(clock)
      ensures host == old(host).(fallback := host.fallback, recovery := host.recovery)
      ensures o.Success? || o.Interrupted?
      ensures old(Reliable()) ==> o.Success? && host.fallback.Missing? && host.recovery.None?
    {
      var done := Perform(ClearFallback);
      if !done.Crashed? {
        done := Perform(DropOrchestrator);
      }
      o := if done.Crashed? then Interrupted else Success;
    }

    /** A process knows only what is on the host. */
    method StartProcess()
      requires Valid()
      modifies this
      ensures Valid() && clock == old(clock)
      ensures host == Apply(old(host), Settle)
      ensures !Unprotected(host) <==> Resumable(old(host))
      ensures !host.lapse.Undoing? && (host.lapse.BegunLate? ==> host.pending.Some?)
    {
      ghost var before := host;
      host := Apply(host, Settle);
      Log(Settle, before);
    }

    /** deploy_commit. */
    method DeployCommit(target: Commit, env: Surroundings) returns (o: Exit)
      requires Valid()
      modifies this
      ensures Valid() && clock >= old(clock)
      // After a crash at any point, a retry is never stranded and a settled host never refused.
      ensures Resumable(old(host)) ==> !o.PendingDrift? && !o.NoFallback? && !o.RepositoryDrift? && !o.NoWatchdog?
      ensures o.PendingDrift? || o.NoFallback? || o.RepositoryDrift? || o.NoWatchdog? || o.DirtyCheckout?
              || o.OtherPending? || o.NoBaseline? ==>
                host == Apply(old(host), Settle)
      ensures o.OtherPending? <==> env.clean && env.policyDisabled && old(host).pending.Some?
                                   && old(host).pending.value.target != target
      ensures o.DirtyCheckout? <==> !env.clean
      ensures o.NoBaseline? <==> env.Prepared() && old(host).pending.None? && old(host).deployed.None?
                                 && old(host).head != target
      ensures o.RepositoryDrift? <==> env.Prepared() && old(host).pending.None? && old(host).deployed.Some?
                                      && old(host).deployed.value != old(host).head
      ensures o.PendingDrift? <==> env.clean && env.policyDisabled && IsRetry(old(host), target)
                                   && !OnEitherSide(old(host))
      ensures o.NoFallback? <==> env.clean && env.policyDisabled && IsRetry(old(host), target)
                                 && LacksFallback(old(host))
      ensures o.NoWatchdog? <==> env.Prepared() && PassesMarkers(old(host), target)
                                 && old(host).fallback.Missing? && !old(host).venv.Built?
      // So these refusals are what strands a retry, and what stops a deployment on a drifted host,
      // but for one whose only environment is the preserved one.
      ensures env.Prepared() && IsRetry(old(host), target) ==>
                (o.PendingDrift? || o.NoFallback? || o.NoWatchdog? <==> RetryIsStranded(old(host)))
      ensures env.Prepared() && Accepted(old(host), target) && old(host).pending.None?
              && old(host).deployed != Some(target) && old(host).fallback.Missing? ==>
                (o.RepositoryDrift? || o.NoWatchdog? <==> HostHasDrifted(old(host)))
      // There the preserved environment is deleted, and nothing is left.
      ensures env.Prepared() && PassesMarkers(old(host), target) && old(host).pending.None?
              && old(host).venv.Missing? && !old(host).fallback.Missing? && !faults(old(clock)).FailsBefore? ==>
                !o.Success? && host.venv.Missing? && !host.fallback.Built?
      ensures o.Success? ==> host.pending.None? && host.deployed == Some(target)
      ensures o.Success? && Resumable(old(host)) ==> Installed(host) && host.head == target
      // One well-behaved retry settles the host on the target,
      ensures old(Reliable()) && Resumable(old(host)) && Accepted(old(host), target)
              && env.Proceeds() && env.TargetWorks() && env.revokes ==>
                o.Success?
      // a target that cannot be installed is undone, unless nothing was there to undo,
      ensures old(Reliable()) && Resumable(old(host)) && Accepted(old(host), target)
              && old(host).deployed != Some(target)
              && env.Proceeds() && !env.TargetWorks() && env.PreviousWorks() ==>
                && o.Failure? && host.pending.None? && Installed(host)
      // and one for which the service cannot be stopped is withdrawn if it was not pending before.
      ensures old(Reliable()) && Resumable(old(host)) && Accepted(old(host), target)
              && old(host).deployed != Some(target)
              && env.Prepared() && !env.quiesces ==>
                && o.Failure? && host.head == old(host).head && host.deployed == old(host).deployed
                && if old(host).pending.None? then host.pending.None? && host.recovery.None?
                   else host.pending == old(host).pending
      ensures Syncs() && old(host).lapse.Synced? ==> host.lapse.Synced?
    {
      StartProcess();
      if !env.clean {
        o := DirtyCheckout;
        return;
      }
      if !env.policyDisabled {
        o := Failure;
        return;
      }
      var pendingExists := host.pending.Some?;
      var previous := if pendingExists then host.pending.value.previous else host.head;
      var guard := Guard(target, env, pendingExists, previous);
      if guard.Some? {
        o := guard.value;
        return;
      }
      if !pendingExists && host.deployed == Some(target) {
        o := if env.ready then Success else Failure;
        return;
      }
      if host.fallback.Missing? && !host.venv.Built? {
        o := NoWatchdog;
        return;
      }
      o := Deploy(previous, target, env, pendingExists);
    }

    /** The current environment is moved aside, unless an earlier attempt did so, then the cut-over. */
    method PreserveAndCutOver(previous: Commit, target: Commit, env: Surroundings) returns (o: Exit)
      requires Valid() && host.pending == Some(Transition(previous, target))
      modifies this
      ensures Valid() && clock >= old(clock)
      ensures o.Success? || o.Failure? || o.Interrupted?
      ensures o.Success? ==>
                host.pending.None? && host.head == target && host.deployed == Some(target) && Installed(host)
      ensures old(Reliable()) && !Unprotected(old(host)) && env.TargetWorks() && env.revokes ==>
                o.Success? && host.fallback.Missing? && host.recovery.None?
      ensures old(Reliable()) && !Unprotected(old(host)) && !env.TargetWorks() && env.PreviousWorks() ==>
                o.Failure? && host.pending.None? && Installed(host)
      ensures old(host).fallback.Missing? && old(host).venv.Missing? ==> o.Failure? && host == old(host)
      ensures Syncs() && old(host).lapse.Synced? ==> host.lapse.Synced?
    {
      var preserved := Done;
      if host.fallback.Missing? {
        preserved := Refused;
        if !host.venv.Missing? {
          preserved := Perform(Preserve);
        }
      }
      if preserved.Done? {
        ghost var recording;
        o, recording := CutOver(previous, target, env);
      } else {
        o := if preserved.Crashed? then Interrupted else Failure;
      }
    }

    /** The part of deploy_commit behind its guards. */
    method Deploy(previous: Commit, target: Commit, env: Surroundings, pendingExists: bool) returns (o: Exit)
      requires Valid() && pendingExists == host.pending.Some? && !host.lapse.Undoing?
      requires pendingExists ==> host.pending == Some(Transition(previous, target))
      requires !pendingExists ==> previous == host.head && (host.deployed.None? ==> target == host.head)
      modifies this
      ensures Valid() && clock >= old(clock)
      ensures o.Success? || o.Failure? || o.Interrupted?
      ensures o.Success? ==> host.pending.None? && host.deployed == Some(target)
      ensures o.Success? && !Unprotected(old(host)) ==> Installed(host) && host.head == target
      ensures old(Reliable()) && !Unprotected(old(host)) && env.quiesces && env.TargetWorks() && env.revokes ==>
                o.Success? && host.fallback.Missing? && host.recovery.None?
      ensures old(Reliable()) && !Unprotected(old(host)) && env.quiesces && !env.TargetWorks()
              && env.PreviousWorks() ==>
                && o.Failure? && host.pending.None? && Installed(host)
      ensures old(Reliable()) && !env.quiesces ==>
                && o.Failure? && host.head == old(host).head && host.deployed == old(host).deployed
                && if pendingExists then host.pending == old(host).pending
                   else host.pending.None? && host.recovery.None?
      ensures !pendingExists && old(host).venv.Missing? && !faults(old(clock)).FailsBefore? ==>
                !o.Success? && host.venv.Missing? && !host.fallback.Built?
      ensures Syncs() && old(host).lapse.Synced? ==> host.lapse.Synced?
    {
      if !pendingExists {
        var begun := BeginTransition(target);
        if !begun.Done? {
          o := if begun.Crashed? then Interrupted else Failure;
          return;
        }
      }
      if !env.quiesces {
        o := Failure;
        if !pendingExists {
          var cancelled := CancelTransition();
          o := if cancelled.Crashed? then Interrupted else Failure;
        }
        return;
      }
      o := PreserveAndCutOver(previous, target, env);
    }

    /** The checks on markers and checkout, before any durable command. */
    function Guard(target: Commit, env: Surroundings, pendingExists: bool, previous: Commit): Option<Exit>
      reads this
      requires pendingExists == host.pending.Some?
    {
      if pendingExists then
        if host.pending.value.target != target then Some(OtherPending)
        else if host.head != previous && host.head != target then Some(PendingDrift)
        else if host.head == target && previous != target && host.fallback.Missing? then Some(NoFallback)
        else if !env.fetched || !env.passesPreflight then Some(Failure)
        else None
      else if !env.fetched || !env.passesPreflight then Some(Failure)
      else if host.deployed.None? && previous != target then Some(NoBaseline)
      else if host.deployed.Some? && host.deployed.value != previous then Some(RepositoryDrift)
      else None
    }
  }

  /** One process: its argument, its answers, and the fate of its commands. */
  datatype Attempt = Attempt(target: Commit, env: Surroundings, faults: nat -> Fault)

  /** However many deployments failed or were cut off, and wherever: as long as no marker change
      was reported late the host stays recoverable, and the next well-behaved deployment of a
      commit it admits ends installed and recorded. */
  method GoodRetryAfterCrashes(host: Host, ghost run: Run, attempts: seq<Attempt>, last: Attempt)
    returns (found: Host, deployer: Deployer, o: Exit)
    requires run.Legal() && run.Last() == host
    requires last.env.Proceeds() && last.env.TargetWorks() && last.env.revokes && forall n :: last.faults(n).Fine?
    ensures deployer.Valid() && (attempts == [] ==> found == host)
    ensures host.lapse.Synced? && (forall i, n :: 0 <= i < |attempts| ==> !attempts[i].faults(n).FailsAfter?) ==>
              Recoverable(found)
    ensures Resumable(found) && Accepted(found, last.target) ==>
              && o.Success? && deployer.host.pending.None? && deployer.host.deployed == Some(last.target)
              && Installed(deployer.host) && deployer.host.head == last.target
  {
    found := host;
    ghost var log := run;
    ghost var synced := host.lapse.Synced?
                        && forall i, n :: 0 <= i < |attempts| ==> !attempts[i].faults(n).FailsAfter?;
    for i := 0 to |attempts|
      invariant log.Legal() && log.Last() == found && (i == 0 ==> found == host)
      invariant synced ==> found.lapse.Synced?
    {
      deployer := new Deployer.Open(found, attempts[i].faults, log);
      o := deployer.DeployCommit(attempts[i].target, attempts[i].env);
      found, log := deployer.host, deployer.run;
    }
    RunKeepsInvariant(log, |log.acts|);
    deployer := new Deployer.Open(found, last.faults, log);
    o := deployer.DeployCommit(last.target, last.env);
  }
}
