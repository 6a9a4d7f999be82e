/** The updater itself: the durable files of one installation root, and the operations that
    rewrite them one write at a time. Every write is logged as an action of ReleaseProtocol, so
    each operation is proved to produce a legal run whatever fails and wherever it crashes. */
module GameUpdating {
  import opened Basics
  import opened ReleaseProtocol

  /** How preparing a release's launcher ends: accepted, rejected as incompatible, refused by
      the generated wrapper's syntax check, or not written. */
  datatype LauncherAnswer = Accepts | Rejects | FailsSyntax | CannotWrite

  /** Configuration and every answer the outside world gives during one operation. */
  datatype Surroundings = Surroundings(
    deploymentPending: bool,
    manualPolicy: bool,
    modsBlock: bool,
    localEnvironment: bool,
    activeAnswer: LauncherAnswer,
    latest: Option<nat>,
    serverRunning: bool,
    spaceShort: bool,
    installs: bool,
    installed: Option<nat>,
    candidateAnswer: LauncherAnswer,
    worldHasState: bool,
    backupSucceeds: bool)
  {
    /** Steam, the candidate, the disk and the backup all behave. */
    predicate Cooperates() {
      && latest.Some? && !serverRunning && !spaceShort && installs && installed == latest
      && candidateAnswer.Accepts? && backupSucceeds && activeAnswer.Accepts?
    }

    /** The candidate arrives, and is found to be incompatible. */
    predicate DeliversIncompatible() {
      && latest.Some? && !serverRunning && !spaceShort && installs
      && (Preparation(candidateAnswer, installed).Incompatible?
          || (candidateAnswer.Accepts? && installed != latest))
    }

    predicate UpdatesAutomatically() {
      !deploymentPending && !manualPolicy && !modsBlock
    }

    /** Nothing decides before Steam is asked. */
    predicate AsksSteam() {
      UpdatesAutomatically() && activeAnswer.Accepts?
    }
  }

  function Preparation(answer: LauncherAnswer, build: Option<nat>): Outcome {
    match answer
    case Accepts => if build.Some? then Done else Incompatible
    case Rejects => Incompatible
    case FailsSyntax => Refused
    case CannotWrite => IoFailed
  }

  function WriteOutcome(f: Fault, error: Outcome): Outcome {
    if f.Fine? then Done else if f.Crashes() then Crashed else error
  }

  /** The record `_record_pre_world_failure` writes over a record read earlier. */
  function PreWorldFailure(state: Record, current: Option<nat>, candidate: Option<nat>, block: bool): Record {
    state.(state := FailedBeforeWorldOpen, currentBuild := current, candidateBuild := candidate,
           candidate := None, promoted := None, blockedBuild := if block then candidate else None)
  }

  /** Pointers and releases are untouched; only the record may differ. */
  predicate FilesKept(d: Disk, d': Disk) {
    d'.active == d.active && d'.previous == d.previous && d'.releases == d.releases
  }

  predicate PointersKept(d: Disk, d': Disk) {
    d'.active == d.active && d'.previous == d.previous
  }

  /** Nothing but the release directories may differ. */
  predicate OnlyReleases(d: Disk, d': Disk) {
    d' == d.(releases := d'.releases)
  }

  predicate IsStaging(s: State) {
    s.DownloadingCandidate? || s.PromotingCandidate?
  }

  /** Recovery would leave the selected release in use, with no candidate awaiting acceptance. */
  predicate KeepsRelease(d: Disk) {
    Settled(d.record.state) || (InFlight(d.record.state) && !Switched(d))
  }

  /** The newest build is newer than the installed one. */
  predicate IsNewer(current: Option<nat>, env: Surroundings) {
    env.latest.Some? && (current.Some? ==> current.value < env.latest.value)
  }

  /** The newest build is the installed one, or older. */
  predicate NothingNewer(current: Option<nat>, env: Surroundings) {
    env.latest.Some? && current.Some? && env.latest.value <= current.value
  }

  /** Nothing keeps the old fallback release from being discarded. */
  predicate CanUpdate(d: Disk) {
    d.active.None? || PreviousResolves(d)
  }

  /** The newest build is newer than the release in use and nothing blocks it. */
  predicate Offers(env: Surroundings, d: Disk) {
    && env.latest != ActiveBuild(d) && NotOlder(env.latest, ActiveBuild(d))
    && (d.active.None? || InFlight(d.record.state) || d.record.blockedBuild != env.latest)
  }

  /** An update would get as far as a candidate that is found to be incompatible. */
  predicate OffersIncompatible(env: Surroundings, d: Disk) {
    env.DeliversIncompatible() && IsNewer(ActiveBuild(d), env) && CanUpdate(d)
  }

  /** The directories that recovery has to delete. */
  function LeftCount(d: Disk): nat {
    if KeepsRelease(d) then StagingCount(d) else 0
  }

  /** How far a start got: the clock at which it reached the pointers, and the clock and the number
      of staging directories at which its closing recovery began. */
  datatype Trail = Trail(switch: Option<nat>, closing: Option<Closing>)

  datatype Closing = Closing(begun: nat, staged: nat)

  class GameUpdater {
    // The installation root.
    var disk: Disk
    // The source of unused directory names.
    var supply: Name

    // The adversary's choice for each durable write, counted by `clock`.
    const faults: nat -> Fault
    var clock: nat

    ghost var backedUp: bool
    ghost var worldless: bool
    ghost var launched: seq<nat>
    ghost var run: Run
    // How many directories nothing names any more, and how many deletions failed and were ignored.
    ghost var litter: int
    ghost var spared: nat
    // How many writes of the state record were not fine.
    ghost var unwritten: nat

    ghost function Now(): World
      reads this
    {
      World(disk, backedUp, worldless, supply, launched, litter)
    }

    ghost predicate Valid()
      reads this
    {
      run.Legal() && run.Last() == Now()
    }

    /** Whatever happened so far, the protocol's invariant holds. */
    lemma Fits()
      requires Valid()
      ensures DiskFits(Now())
    {
      RunKeepsInvariant(run, |run.acts|);
    }

    /** A settled world has nothing staged. */
    lemma NothingStaged()
      requires Valid() && Settled(disk.record.state)
      ensures disk.record.candidate.None? && disk.record.promoted.None? && StagingCount(disk) == 0
    {
      RunKeepsInvariant(run, |run.acts|);
    }

    /** Exactly a selected release has a build. */
    lemma SelectedHasBuild()
      requires Valid()
      ensures disk.active.Some? == InstalledBuild().Some?
    {
      RunKeepsInvariant(run, |run.acts|);
    }

    /** From here on no durable write fails or is cut off, whatever happened before. */
    ghost predicate Reliable()
      reads this`clock
    {
      ReliableFrom(clock)
    }

    ghost predicate ReliableFrom(c: nat) {
      forall n :: n >= c ==> faults(n).Fine?
    }

    ghost predicate Errs(n: nat) {
      faults(n).FailsBefore? || faults(n).FailsAfter?
    }

    /** One of the next `n` deletions fails. */
    ghost predicate DeletionFails(c: nat, n: nat)
      decreases n
    {
      n > 0 && if faults(c).Fine? then DeletionFails(c + 1, n - 1) else Errs(c)
    }

    /** One of the next `n` deletions fails, or the record behind them is not written. */
    ghost predicate WithdrawalFails(c: nat, n: nat)
      decreases n
    {
      if n == 0 then faults(c).FailsBefore?
      else if faults(c).Fine? then WithdrawalFails(c + 1, n - 1)
      else Errs(c)
    }

    /** A pointer is not replaced, and then the candidate cannot be deleted. */
    ghost predicate SwitchStrands(c: nat) {
      if faults(c).Fine? then faults(c + 1).FailsBefore? && Errs(c + 2) else Errs(c) && Errs(c + 1)
    }

    /** Of the writes from `c` on only a pointer fails, and the active one is not replaced, */
    ghost predicate SwitchFails(c: nat) {
      if faults(c).Fine? then faults(c + 1).FailsBefore? && ReliableFrom(c + 2)
      else !faults(c).Crashes() && ReliableFrom(c + 1)
    }

    /** or it is, and fails only then. */
    ghost predicate SwitchFailsLate(c: nat) {
      faults(c).Fine? && faults(c + 1).FailsAfter? && ReliableFrom(c + 2)
    }

    /** The directories lying about for no failed deletion. */
    ghost function Untidy(): int
      reads this`litter, this`spared
    {
      litter - spared
    }

    /** The world is saved, or there is none and no release either. */
    ghost predicate Secured()
      reads this
    {
      Now().Secured()
    }

    function InstalledBuild(): Option<nat>
      reads this
    {
      ActiveBuild(disk)
    }

    constructor (faults: nat -> Fault)
      ensures Valid() && this.faults == faults && Now() == FRESH_WORLD
    {
      this.faults := faults;
      disk, supply, clock := FRESH_WORLD.disk, 0, 0;
      backedUp, worldless, launched, run := false, false, [], Run([FRESH_WORLD], []);
      litter, spared, unwritten := 0, 0, 0;
    }

    /** A new process finds whatever the last one left on the disk. */
    constructor Open(disk: Disk, supply: Name, faults: nat -> Fault, ghost run: Run)
      requires run.Legal() && run.Last().disk == disk && run.Last().supply == supply
      ensures Valid() && this.disk == disk && this.supply == supply && this.faults == faults && this.run == run
    {
      this.disk, this.supply, this.faults, this.run, clock := disk, supply, faults, run, 0;
      backedUp, worldless, launched := run.Last().backedUp, run.Last().worldless, run.Last().launched;
      litter, spared, unwritten := run.Last().litter, 0, 0;
    }

    ghost method Log(a: Action, before: World)
      requires run.Legal() && run.Last() == before && Step(before, a) == Some(Now())
      modifies `run
      ensures Valid() && old(run).ExtendsTo(run)
    {
      ExtendingKeepsRunLegal(run, a);
      run := run.Extend(a);
    }

    // ------------------------------------------------------------ single durable writes

    /** StateStore.write: one atomic replace of the state record. */
    method WriteRecord(r: Record, ghost a: Action) returns (o: Outcome)
      requires Valid() && Step(Now(), a).Some?
      requires Step(Now(), a).value == WithRecord(Now(), r).(litter := Step(Now(), a).value.litter)
      modifies `disk, `clock, `run, `litter, `unwritten
      ensures Valid() && clock == old(clock) + 1
      ensures disk == if faults(old(clock)).Lands() then old(disk).(record := r) else old(disk)
      ensures o == WriteOutcome(faults(old(clock)), Refused)
      ensures unwritten == old(unwritten) + if o.Done? then 0 else 1
      ensures litter == if faults(old(clock)).Lands() then old(Step(Now(), a).value.litter) else old(litter)
    {
      ghost var before := Now();
      var f := faults(clock);
      clock := clock + 1;
      if f.Lands() {
        disk, litter := disk.(record := r), Step(before, a).value.litter;
        Log(a, before);
      }
      o := WriteOutcome(f, Refused);
      unwritten := unwritten + if o.Done? then 0 else 1;
    }

    /** ReleaseLayout.write_active. */
    method WriteActive(n: Name) returns (o: Outcome)
      requires Valid() && disk.record.state.Activating? && disk.record.candidate == Some(n) && disk.active != Some(n)
      requires Matches(disk, Some(n)) && disk.previous == disk.record.previous && Secured()
      modifies `disk, `clock, `run
      ensures Valid() && clock == old(clock) + 1
      ensures disk == if faults(old(clock)).Lands() then old(disk).(active := Some(n)) else old(disk)
      ensures o == WriteOutcome(faults(old(clock)), IoFailed)
    {
      ghost var before := Now();
      var f := faults(clock);
      clock := clock + 1;
      if f.Lands() {
        disk := disk.(active := Some(n));
        Log(Switch, before);
      }
      o := WriteOutcome(f, IoFailed);
    }

    /** ReleaseLayout.write_previous; writing None unlinks the pointer. */
    method WritePrevious(p: Option<Name>, ghost a: Action) returns (o: Outcome)
      requires Valid() && Step(Now(), a) == Some(Now().(disk := disk.(previous := p)))
      modifies `disk, `clock, `run
      ensures Valid() && clock == old(clock) + 1
      ensures disk == if faults(old(clock)).Lands() then old(disk).(previous := p) else old(disk)
      ensures o == WriteOutcome(faults(old(clock)), IoFailed)
    {
      ghost var before := Now();
      var f := faults(clock);
      clock := clock + 1;
      if f.Lands() {
        disk := disk.(previous := p);
        Log(a, before);
      }
      o := WriteOutcome(f, IoFailed);
    }

    /** shutil.rmtree: it may stop half-way, leaving a directory that is no longer a release. */
    method RemoveTree(n: Name) returns (o: Outcome)
      requires Valid() && Disposable(disk, n)
      modifies `disk, `clock, `run, `litter
      ensures Valid() && clock == old(clock) + 1
      ensures disk == old(disk).(releases := match faults(old(clock))
                                            case Fine => old(disk).releases - {n}
                                            case CrashesAfter => old(disk).releases - {n}
                                            case FailsBefore => old(disk).releases
                                            case _ => old(disk).releases[n := Release(None, false)])
      ensures o == WriteOutcome(faults(old(clock)), IoFailed)
      ensures litter == old(litter) - if n !in disk.releases && n in old(Orphans(disk)) then 1 else 0
      ensures InstalledBuild() == old(InstalledBuild())
    {
      ghost var before := Now();
      var f := faults(clock);
      clock := clock + 1;
      DisposableStep(before, n);
      if f.Fine? || f.CrashesAfter? {
        disk := disk.(releases := disk.releases - {n});
        litter := litter - if n in Orphans(before.disk) then 1 else 0;
        Log(Erase(n), before);
      } else if !f.FailsBefore? {
        disk := disk.(releases := disk.releases[n := Release(None, false)]);
        Log(Spoil(n), before);
      }
      o := WriteOutcome(f, IoFailed);
    }

    /** shutil.rmtree with ignore_errors, of a path that may be gone already. */
    method RemoveIgnoringErrors(n: Name) returns (o: Outcome)
      requires Valid() && (n in disk.releases ==> Disposable(disk, n))
      modifies `disk, `clock, `run, `litter, `spared
      ensures Valid() && clock == old(clock) + if n in old(disk).releases then 1 else 0
      ensures OnlyReleases(old(disk), disk)
      ensures disk.releases - {n} == old(disk).releases - {n} && disk.releases.Keys <= old(disk).releases.Keys
      ensures o.Done? || o.Crashed?
      ensures faults(old(clock)).Fine? ==> o.Done? && n !in disk.releases
      ensures spared == old(spared) + if o.Done? && n in disk.releases then 1 else 0
      ensures litter == old(litter) - if n !in disk.releases && n in old(Orphans(disk)) then 1 else 0
      ensures InstalledBuild() == old(InstalledBuild())
    {
      o := Done;
      if n in disk.releases {
        o := RemoveTree(n);
        if o.IoFailed? {
          o := Done;
          spared := spared + 1;
        }
      }
    }

    method FreshName() returns (n: Name)
      requires Valid()
      modifies `supply, `run
      ensures Valid() && clock >= old(clock)
      ensures n == old(supply) && supply == n + 1 && Unused(disk, n)
    {
      Fits();
      ghost var before := Now();
      n := supply;
      supply := supply + 1;
      Log(TakeName, before);
    }

    /** candidate.mkdir: nothing is created when it fails. */
    method MakeDirectory(n: Name) returns (o: Outcome)
      requires Valid() && Settled(disk.record.state) && disk.previous.None? && n < supply && Unused(disk, n)
      modifies `disk, `clock, `run, `backedUp, `worldless, `litter
      ensures Valid() && clock == old(clock) + 1
      ensures disk == old(disk) || disk == old(disk).(releases := old(disk).releases[n := Release(None, false)])
      ensures o.Done? ==> n in disk.releases
      ensures o.Done? || o.IoFailed? || o.Crashed?
      ensures o.IoFailed? ==> disk == old(disk)
      ensures faults(old(clock)).Fine? ==> o.Done?
      ensures litter == old(litter) + if disk == old(disk) then 0 else 1
    {
      ghost var before := Now();
      var f := faults(clock);
      clock := clock + 1;
      if f.Fine? || f.CrashesAfter? {
        disk := disk.(releases := disk.releases[n := Release(None, false)]);
        backedUp, worldless := false, false;
        litter := litter + 1;
        Log(Reserve(n), before);
      }
      o := WriteOutcome(f, IoFailed);
    }

    /** Steam and the launcher write into the candidate directory only. */
    method FillCandidate(content: Release) returns (o: Outcome)
      requires Valid() && disk.record.state.DownloadingCandidate? && Stands(disk, disk.record.candidate)
      modifies `disk, `clock, `run
      ensures Valid() && clock == old(clock) + 1
      ensures disk == old(disk.(releases := disk.releases[disk.record.candidate.value := content]))
              || (o.Crashed? && disk == old(disk))
      ensures o.Done? || o.Crashed?
      ensures old(Reliable()) ==> o.Done?
    {
      ghost var before := Now();
      var f := faults(clock);
      clock := clock + 1;
      if !f.CrashesBefore? {
        disk := disk.(releases := disk.releases[disk.record.candidate.value := content]);
        Log(Fill(content), before);
      }
      o := if f.Crashes() then Crashed else Done;
    }

    /** BackupManager.create returned an archive. */
    ghost method TakeBackup()
      requires Valid()
      modifies `backedUp, `run
      ensures Valid() && backedUp
    {
      ghost var before := Now();
      backedUp := true;
      Log(SaveWorld, before);
    }

    /** _world_has_state found nothing. */
    ghost method NoteEmptyWorld()
      requires Valid()
      modifies `worldless, `run
      ensures Valid() && worldless
    {
      ghost var before := Now();
      worldless := true;
      Log(FindNoWorld, before);
    }

    /** A failure record, while the old release is still selected. */
    method WriteFailure(failed: Record) returns (o: Outcome)
      requires Valid() && KeepsRelease(disk)
      requires failed.state.FailedBeforeWorldOpen? && failed.candidate.None? && failed.promoted.None?
      requires failed.currentBuild == InstalledBuild()
      modifies `disk, `clock, `run, `litter, `unwritten
      ensures unwritten == old(unwritten) + if o.Done? then 0 else 1
      ensures Valid() && clock == old(clock) + 1
      ensures disk == if faults(old(clock)).Lands() then old(disk).(record := failed) else old(disk)
      ensures o == WriteOutcome(faults(old(clock)), Refused)
      ensures litter == old(litter) + if faults(old(clock)).Lands() then StagingCount(old(disk)) else 0
    {
      o := WriteRecord(failed, Fail(failed));
    }

    // ------------------------------------------------------------ recovery

    /** One staging path of an interrupted download or promotion. */
    method EraseStaged(n: Option<Name>) returns (o: Outcome)
      requires Valid() && IsStaging(disk.record.state)
      requires n == disk.record.candidate || n == disk.record.promoted
      modifies `disk, `clock, `run, `litter
      ensures Valid() && clock >= old(clock)
      ensures OnlyReleases(old(disk), disk) && KeptOutsideStaging(old(disk), disk)
      ensures o.Done? ==> !Stands(disk, n)
      ensures o.Done? || o.Refused? || o.Crashed?
      ensures old(Reliable()) ==> o.Done?
      ensures o.Refused? <==> Stands(old(disk), n) && Errs(old(clock))
      ensures o.Done? <==> !Stands(old(disk), n) || faults(old(clock)).Fine?
      ensures clock == old(clock) + if Stands(old(disk), n) then 1 else 0
      ensures !Stands(old(disk), n) ==> disk == old(disk)
      ensures disk.releases.Keys <= old(disk).releases.Keys
      ensures litter <= old(litter)
    {
      Fits();
      o := Done;
      if n.Some? && n.value in disk.releases {
        o := RemoveTree(n.value);
        if o.IoFailed? {
          o := Refused;
        }
      }
    }

    method EraseBothStaged() returns (o: Outcome)
      requires Valid() && IsStaging(disk.record.state)
      modifies `disk, `clock, `run, `litter
      ensures Valid() && clock >= old(clock)
      ensures OnlyReleases(old(disk), disk) && KeptOutsideStaging(old(disk), disk)
      ensures o.Done? ==> StagingCount(disk) == 0
      ensures o.Done? || o.Refused? || o.Crashed?
      ensures old(Reliable()) ==> o.Done?
      ensures o.Refused? <==> DeletionFails(old(clock), StagingCount(old(disk)))
      ensures StagingCount(old(disk)) == 0 ==> o.Done? && disk == old(disk) && clock == old(clock)
      ensures WithdrawalFails(old(clock), StagingCount(old(disk))) <==>
                o.Refused? || (o.Done? && faults(clock).FailsBefore?)
      ensures litter <= old(litter)
    {
      Fits();
      assert StagingCount(disk) <= 1;
      o := EraseStaged(disk.record.candidate);
      if o.Done? {
        o := EraseStaged(disk.record.promoted);
      }
    }

    method RecoverInterrupted() returns (o: Outcome)
      requires Valid()
      modifies `disk, `clock, `run, `litter, `unwritten
      ensures unwritten >= old(unwritten)
      ensures Valid() && clock >= old(clock)
      ensures RecoveryAttempt(old(disk), disk, o.Done?)
      ensures old(Reliable()) ==> o.Done?
      ensures !old(disk.record.state).Activating? ==> !o.IoFailed?
      ensures !o.Incompatible?
      ensures unwritten == old(unwritten) && !o.Crashed? ==>
                (o.Done? <==> !DeletionFails(old(clock), LeftCount(old(disk))))
      // The record of a staged candidate stays, with no crash, exactly if a directory cannot be
      // deleted or the new record is not written.
      ensures IsStaging(old(disk).record.state) ==>
                (disk.record == old(disk).record && !o.Crashed? <==>
                   WithdrawalFails(old(clock), StagingCount(old(disk))))
      ensures IsStaging(old(disk).record.state) && StagingCount(old(disk)) == 0
              && faults(old(clock)).FailsBefore? ==>
                o.Refused? && disk == old(disk)
      ensures litter <= old(litter)
      ensures !InFlight(old(disk).record.state) ==> o.Done? && Now() == old(Now()) && clock == old(clock)
    {
      Fits();
      if !IsStaging(disk.record.state) {
        o := RecoverActivation();
        return;
      }
      o := EraseBothStaged();
      if o.Done? {
        o := WriteFailure(Abandoned(disk.record));
      }
    }

    /** The half of activation recovery that keeps the old release. */
    method AbandonActivation() returns (o: Outcome)
      requires Valid() && disk.record.state.Activating? && !Switched(disk)
      modifies `disk, `clock, `run, `litter, `unwritten
      ensures unwritten >= old(unwritten)
      ensures Valid() && clock >= old(clock)
      ensures RecoveryAttempt(old(disk), disk, o.Done?)
      ensures old(Reliable()) ==> o.Done?
      ensures !o.Incompatible?
      ensures o.IoFailed? <==> Stands(old(disk), old(disk).record.candidate) && Errs(old(clock))
      ensures unwritten == old(unwritten) && !o.Crashed? && !o.IoFailed? ==> o.Done?
      ensures litter <= old(litter)
    {
      Fits();
      if disk.record.candidate.Some? && disk.record.candidate.value in disk.releases {
        o := RemoveTree(disk.record.candidate.value);
        if !o.Done? {
          return;
        }
      }
      o := WriteFailure(Abandoned(disk.record));
    }

    method RecoverActivation() returns (o: Outcome)
      requires Valid() && !IsStaging(disk.record.state)
      modifies `disk, `clock, `run, `litter, `unwritten
      ensures unwritten >= old(unwritten)
      ensures Valid() && clock >= old(clock)
      ensures RecoveryAttempt(old(disk), disk, o.Done?)
      ensures old(Reliable()) ==> o.Done?
      ensures !old(disk.record.state).Activating? ==> o.Done?
      ensures !o.Incompatible?
      ensures o.IoFailed? <==> old(disk).record.state.Activating? && !Switched(old(disk))
                               && Stands(old(disk), old(disk).record.candidate) && Errs(old(clock))
      ensures unwritten == old(unwritten) && !o.Crashed? && !o.IoFailed? ==> o.Done?
      ensures litter <= old(litter)
      ensures !InFlight(old(disk).record.state) ==> o.Done? && Now() == old(Now()) && clock == old(clock)
    {
      Fits();
      if !disk.record.state.Activating? {
        o := Done;
        return;
      }
      if disk.active.Some? && disk.active == disk.record.candidate {
        o := WriteRecord(disk.record.(state := PendingReadiness, currentBuild := disk.record.candidateBuild), Select);
      } else if disk.active == disk.record.previous {
        o := AbandonActivation();
      } else {
        o := Refused;
      }
    }

    // ------------------------------------------------------------ staging

    /** GameUpdater._record_pre_world_failure, followed by raising `error`. `state` is the record
        as it was before the transaction, so later fields are dropped with it. */
    method RefuseAfterRecording(state: Record, current: Option<nat>, candidate: Option<nat>, block: bool,
                                error: Outcome)
      returns (o: Outcome)
      requires Valid() && error.IsUpdateError() && current == InstalledBuild()
      requires KeepsRelease(disk)
      modifies `disk, `clock, `run, `litter, `unwritten
      ensures unwritten >= old(unwritten)
      ensures Valid() && clock == old(clock) + 1
      ensures FilesKept(old(disk), disk)
      ensures disk.record == old(disk).record || disk.record == PreWorldFailure(state, current, candidate, block)
      ensures o == error || o.Refused? || o.Crashed?
      ensures unwritten == old(unwritten) ==>
                o == error && disk.record == PreWorldFailure(state, current, candidate, block)
      ensures old(Reliable()) ==> o == error && disk.record == PreWorldFailure(state, current, candidate, block)
      ensures litter <= old(litter) + StagingCount(old(disk))
    {
      var failed := PreWorldFailure(state, current, candidate, block);
      o := WriteFailure(failed);
      if o.Done? {
        o := error;
      }
    }

    /** ReleaseLayout.discard_old_previous. */
    method DiscardOldPrevious() returns (o: Outcome)
      requires Valid() && Settled(disk.record.state)
      modifies `disk, `clock, `run, `litter
      ensures Valid() && clock >= old(clock)
      ensures InstalledBuild() == old(InstalledBuild())
      ensures disk.active == old(disk).active && disk.record == old(disk).record
      ensures !PreviousResolves(old(disk)) ==> o.Refused? && disk == old(disk)
      ensures old(Reliable()) && PreviousResolves(old(disk)) ==> o.Done?
      ensures o.Done? ==> disk.previous.None?
      ensures !o.Incompatible?
      ensures faults(old(clock)).Fine? && old(disk).previous.None? ==>
                o.Done? && disk == old(disk) && clock == old(clock) + 1
      // The window that leaves the previous pointer dangling.
      ensures faults(old(clock)).CrashesAfter?
              && old(disk.previous.Some? && disk.previous != disk.active && disk.previous.value in disk.releases) ==>
                o.Crashed? && disk.previous == old(disk).previous && !PreviousResolves(disk)
      ensures litter <= old(litter)
    {
      if disk.previous.Some? && disk.previous.value !in disk.releases {
        o := Refused;
        return;
      }
      if disk.previous.Some? && disk.previous != disk.active {
        o := RemoveTree(disk.previous.value);
        if !o.Done? {
          return;
        }
      }
      o := WritePrevious(None, ForgetPrevious);
    }

    /** First part of `_stage_and_activate`: no server, no second fallback release, enough space. */
    method ClearTheWay(current: Option<nat>, latest: nat, env: Surroundings) returns (o: Outcome)
      requires Valid() && Settled(disk.record.state) && current == InstalledBuild()
      modifies `disk, `clock, `run, `litter, `unwritten
      ensures unwritten >= old(unwritten)
      ensures Valid() && clock >= old(clock) && Settled(disk.record.state)
      ensures InstalledBuild() == old(InstalledBuild()) && disk.active == old(disk).active
      ensures o.Done? ==> disk.previous.None? && disk.record == old(disk).record
      ensures o.Done? || o.Refused? || o.Crashed?
      ensures old(Reliable()) && !o.Done? ==>
                o.Refused? && disk.record == PreWorldFailure(old(disk).record, current, Some(latest), false)
      ensures old(Reliable()) ==>
                (o.Done? <==> !env.serverRunning && !env.spaceShort && CanUpdate(old(disk)))
      ensures env.serverRunning || !CanUpdate(old(disk)) ==>
                !o.Done? && disk.releases == old(disk).releases
      ensures !env.serverRunning && !env.spaceShort && old(disk).active.Some? && old(disk).previous.None?
              && faults(old(clock)).Fine? ==>
                o.Done? && disk == old(disk) && clock == old(clock) + 1
      ensures litter <= old(litter)
    {
      Fits();
      var state := disk.record;
      o := Refused;
      if !env.serverRunning {
        o := Done;
        if disk.active.Some? {
          o := DiscardOldPrevious();
        }
        if o.Crashed? || (o.Done? && !env.spaceShort) {
          return;
        }
      }
      o := RefuseAfterRecording(state, current, Some(latest), false, Refused);
    }

    /** The record that announces a download is written, but its error says that it was not. */
    ghost predicate LosesAnnouncement(c: nat) {
      faults(c).Fine? && faults(c + 1).Fine? && faults(c + 2).FailsAfter? && faults(c + 3).Fine?
    }

    /** After that: a downloading record without a directory. */
    ghost predicate AnnouncementIsLost(c: nat, o: Outcome)
      reads this
    {
      o.Refused? && disk.record.state.DownloadingCandidate? && StagingCount(disk) == 0 && clock == c + 4
    }

    /** The record that announces a download. */
    function Announced(state: Record, current: Option<nat>, latest: nat, candidate: Name): Record {
      state.(state := DownloadingCandidate, currentBuild := current, candidateBuild := Some(latest),
             candidate := Some(candidate))
    }

    /** The record that names a new directory; without it the directory goes again. */
    method AnnounceCandidate(current: Option<nat>, latest: nat, candidate: Name) returns (o: Outcome)
      requires Valid() && Settled(disk.record.state) && disk.previous.None?
      requires candidate < supply && candidate in Orphans(disk)
      requires current == InstalledBuild() && NotOlder(Some(latest), current)
      modifies `disk, `clock, `run, `litter, `spared, `unwritten
      ensures unwritten >= old(unwritten)
      ensures Valid() && clock >= old(clock) && PointersKept(old(disk), disk)
      ensures InstalledBuild() == old(InstalledBuild())
      ensures disk.record == old(disk).record || disk.record == Announced(old(disk).record, current, latest, candidate)
      ensures o.Done? ==>
                candidate in disk.releases && disk.record == Announced(old(disk).record, current, latest, candidate)
      ensures o.Done? || o.Refused? || o.Crashed?
      ensures old(Reliable()) ==> o.Done?
      ensures faults(old(clock)).FailsAfter? && faults(old(clock) + 1).Fine? ==>
                && o.Refused? && disk.record == Announced(old(disk).record, current, latest, candidate)
                && candidate !in disk.releases && clock == old(clock) + 2
      ensures Untidy() <= old(Untidy()) - if o.Crashed? then 0 else 1
    {
      Fits();
      o := WriteRecord(Announced(disk.record, current, latest, candidate), Announce(candidate, latest));
      if o.Refused? {
        o := RemoveIgnoringErrors(candidate);
        if o.Done? {
          o := Refused;
        }
      }
    }

    /** Second part: an empty directory under a new name, */
    method MakeCandidate(current: Option<nat>, latest: nat) returns (o: Outcome, candidate: Name)
      requires Valid() && Settled(disk.record.state) && disk.previous.None? && current == InstalledBuild()
      modifies `disk, `clock, `run, `supply, `backedUp, `worldless, `litter, `unwritten
      ensures unwritten >= old(unwritten)
      ensures Valid() && clock >= old(clock) && PointersKept(old(disk), disk)
      ensures InstalledBuild() == old(InstalledBuild())
      ensures candidate == old(supply) && supply == candidate + 1
      ensures Settled(disk.record.state) && (o.Done? || o.Refused? || o.Crashed?)
      ensures o.Done? ==> disk.record == old(disk).record && candidate in Orphans(disk)
      ensures faults(old(clock)).Fine? ==> o.Done? && clock == old(clock) + 1
      ensures litter <= old(litter) + if o.Refused? then 0 else 1
    {
      NothingStaged();
      candidate := FreshName();
      o := MakeDirectory(candidate);
      if o.IoFailed? {
        o := RefuseAfterRecording(disk.record, current, Some(latest), false, Refused);
      }
    }

    /** then the record that names it. */
    method ReserveCandidate(current: Option<nat>, latest: nat) returns (o: Outcome, candidate: Name)
      requires Valid() && Settled(disk.record.state) && disk.previous.None?
      requires current == InstalledBuild() && NotOlder(Some(latest), current)
      modifies `disk, `clock, `run, `supply, `backedUp, `worldless, `litter, `spared, `unwritten
      ensures unwritten >= old(unwritten)
      ensures Valid() && clock >= old(clock) && PointersKept(old(disk), disk)
      ensures InstalledBuild() == old(InstalledBuild())
      ensures candidate == old(supply) && supply == candidate + 1
      ensures o.Done? ==> candidate in disk.releases
                          && disk.record == Announced(old(disk).record, current, latest, candidate)
      ensures disk.record.state.DownloadingCandidate? || Settled(disk.record.state)
      ensures o.Done? || o.Refused? || o.Crashed?
      ensures old(Reliable()) ==> o.Done?
      ensures faults(old(clock)).Fine? && faults(old(clock) + 1).FailsAfter? && faults(old(clock) + 2).Fine? ==>
                && o.Refused? && disk.record == Announced(old(disk).record, current, latest, candidate)
                && candidate !in disk.releases && clock == old(clock) + 3
      ensures Untidy() <= old(Untidy()) + if o.Crashed? then 1 else 0
    {
      o, candidate := MakeCandidate(current, latest);
      if o.Done? {
        o := AnnounceCandidate(current, latest, candidate);
      }
    }

    /** Everything before the download. */
    method OpenCandidate(current: Option<nat>, latest: nat, env: Surroundings) returns (o: Outcome, candidate: Name)
      requires Valid() && Settled(disk.record.state) && current == InstalledBuild() && NotOlder(Some(latest), current)
      modifies `disk, `clock, `run, `supply, `backedUp, `worldless, `litter, `spared, `unwritten
      ensures unwritten >= old(unwritten)
      ensures Valid() && clock >= old(clock) && disk.active == old(disk).active
      ensures InstalledBuild() == old(InstalledBuild())
      ensures old(supply) <= supply
      ensures o.Done? ==> candidate in disk.releases
                          && disk.record == Announced(old(disk).record, current, latest, candidate)
      ensures disk.record.state.DownloadingCandidate? || Settled(disk.record.state)
      ensures o.Done? || o.Refused? || o.Crashed?
      ensures env.serverRunning ==> !o.Done?
      ensures old(Reliable()) && !o.Done? ==>
                o.Refused? && disk.record == PreWorldFailure(old(disk).record, current, Some(latest), false)
      ensures old(Reliable()) ==> (o.Done? <==> !env.serverRunning && !env.spaceShort && CanUpdate(old(disk)))
      ensures !env.serverRunning && !env.spaceShort && old(disk).active.Some? && old(disk).previous.None?
              && LosesAnnouncement(old(clock)) ==>
                AnnouncementIsLost(old(clock), o)
      ensures Untidy() <= old(Untidy()) + if o.Crashed? then 1 else 0
    {
      NothingStaged();
      candidate := 0;
      o := ClearTheWay(current, latest, env);
      if o.Done? {
        o, candidate := ReserveCandidate(current, latest);
      }
    }

    /** Throw the candidate away, record why, and raise. */
    method DropCandidate(state: Record, current: Option<nat>, latest: nat, block: bool, error: Outcome)
      returns (o: Outcome)
      requires Valid() && disk.record.state.DownloadingCandidate? && error.IsUpdateError()
      requires current == InstalledBuild()
      modifies `disk, `clock, `run, `litter, `spared, `unwritten
      ensures unwritten >= old(unwritten)
      ensures Valid() && clock >= old(clock)
      ensures PointersKept(old(disk), disk) && InstalledBuild() == old(InstalledBuild())
      ensures disk.record == old(disk).record || disk.record == PreWorldFailure(state, current, Some(latest), block)
      ensures o.IsUpdateError() || o.Crashed?
      ensures old(Reliable()) ==> o == error && disk.record == PreWorldFailure(state, current, Some(latest), block)
      ensures Untidy() <= old(Untidy())
    {
      Fits();
      o := RemoveIgnoringErrors(disk.record.candidate.value);
      if o.Done? {
        o := RefuseAfterRecording(state, current, Some(latest), block, error);
      }
    }

    /** The candidate was downloaded, has the promised build and meets the launcher contract. */
    predicate Passes(latest: nat, env: Surroundings) {
      env.installs && env.candidateAnswer.Accepts? && env.installed == Some(latest)
    }

    /** Third part: download, launcher contract, manifest check. */
    method VerifyCandidate(state: Record, current: Option<nat>, latest: nat, candidate: Name, env: Surroundings)
      returns (o: Outcome)
      requires Valid() && candidate in disk.releases
      requires disk.record == Announced(state, current, latest, candidate) && current == InstalledBuild()
      modifies `disk, `clock, `run, `litter, `spared, `unwritten
      ensures unwritten >= old(unwritten)
      ensures Valid() && clock >= old(clock) && PointersKept(old(disk), disk)
      ensures InstalledBuild() == old(InstalledBuild())
      ensures o.Done? ==> disk.record == old(disk).record && Matches(disk, Some(candidate))
      ensures disk.record == old(disk).record || (disk.record.state.FailedBeforeWorldOpen? && !o.Done?)
      ensures !o.IoFailed?
      ensures old(Reliable()) && !o.Done? ==>
                o.IsUpdateError() && disk.record == PreWorldFailure(state, current, Some(latest), o.Incompatible?)
      ensures old(Reliable()) ==> (o.Done? <==> Passes(latest, env))
      ensures old(Reliable()) && env.latest == Some(latest) && env.DeliversIncompatible() ==> o.Incompatible?
      ensures Untidy() <= old(Untidy())
    {
      Fits();
      o := FillCandidate(Release(env.installed, false));
      if !o.Done? {
        return;
      }
      var prepared := if env.installs then Preparation(env.candidateAnswer, env.installed) else Refused;
      if prepared.Done? {
        o := FillCandidate(Release(env.installed, true));
        if !o.Done? {
          return;
        }
        if env.installed != Some(latest) {
          prepared := Incompatible;
        }
      }
      if !prepared.Done? {
        var block := prepared.Incompatible?;
        o := DropCandidate(state, current, latest, block, if block then Incompatible else Refused);
      }
    }

    /** Fourth part: the verified backup of an existing world. */
    method FetchCandidate(state: Record, current: Option<nat>, latest: nat, candidate: Name, env: Surroundings)
      returns (o: Outcome)
      requires Valid() && candidate in disk.releases
      requires disk.record == Announced(state, current, latest, candidate) && current == InstalledBuild()
      modifies `disk, `clock, `run, `backedUp, `worldless, `litter, `spared, `unwritten
      ensures unwritten >= old(unwritten)
      ensures Valid() && clock >= old(clock) && PointersKept(old(disk), disk)
      ensures InstalledBuild() == old(InstalledBuild())
      ensures o.Done? ==> disk.record == old(disk).record && Matches(disk, Some(candidate)) && Secured()
      ensures o.Done? && (disk.active.Some? || env.worldHasState) ==> backedUp
      ensures disk.record == old(disk).record || (disk.record.state.FailedBeforeWorldOpen? && !o.Done?)
      ensures !o.IoFailed?
      ensures old(Reliable()) && !o.Done? ==>
                o.IsUpdateError() && disk.record == PreWorldFailure(state, current, Some(latest), o.Incompatible?)
      ensures old(Reliable()) ==>
                (o.Done? <==> Passes(latest, env) && (env.backupSucceeds || (disk.active.None? && !env.worldHasState)))
      ensures old(Reliable()) && env.latest == Some(latest) && env.DeliversIncompatible() ==> o.Incompatible?
      ensures Untidy() <= old(Untidy())
    {
      o := VerifyCandidate(state, current, latest, candidate, env);
      if !o.Done? {
        return;
      }
      if disk.active.Some? || env.worldHasState {
        if env.backupSucceeds {
          TakeBackup();
        } else {
          o := DropCandidate(state, current, latest, false, Refused);
        }
      } else {
        NoteEmptyWorld();
      }
    }

    // ------------------------------------------------------------ promotion and activation

    /** ReleaseLayout.promote_candidate. */
    method RenameCandidate(candidate: Name, final: Name) returns (o: Outcome)
      requires Valid() && disk.record.state.PromotingCandidate? && candidate in disk.releases && final !in disk.releases
      requires disk.record.candidate == Some(candidate) && disk.record.promoted == Some(final)
      modifies `disk, `clock, `run
      ensures Valid() && clock == old(clock) + 1
      ensures disk == if faults(old(clock)).Lands()
                      then old(disk).(releases :=
                             (old(disk).releases - {candidate})[final := old(disk).releases[candidate]])
                      else old(disk)
      ensures o == WriteOutcome(faults(old(clock)), IoFailed)
    {
      ghost var before := Now();
      var f := faults(clock);
      clock := clock + 1;
      if f.Lands() {
        disk := disk.(releases := (disk.releases - {candidate})[final := disk.releases[candidate]]);
        Log(Rename, before);
      }
      o := WriteOutcome(f, IoFailed);
    }

    function Promoting(state: Record, current: Option<nat>, latest: nat, candidate: Name, final: Name): Record
      reads this`disk
    {
      state.(state := PromotingCandidate, currentBuild := current, previousBuild := current,
             candidateBuild := Some(latest), previous := disk.active, candidate := Some(candidate),
             promoted := Some(final), worldOpened := false)
    }

    /** The handler around promotion: drop both directories, record why, raise. */
    method AbandonPromotion(state: Record, current: Option<nat>, latest: nat, candidate: Name, final: Name)
      returns (o: Outcome)
      requires Valid() && current == InstalledBuild()
      requires var r := disk.record;
        || (r.state.PromotingCandidate? && r.candidate == Some(candidate) && r.promoted == Some(final))
        || (r.state.Activating? && !Switched(disk) && r.candidate == Some(final) && candidate !in disk.releases)
      modifies `disk, `clock, `run, `litter, `spared, `unwritten
      ensures unwritten >= old(unwritten)
      ensures Valid() && clock >= old(clock) && PointersKept(old(disk), disk)
      ensures InstalledBuild() == old(InstalledBuild())
      ensures disk.record == old(disk).record || disk.record.state.FailedBeforeWorldOpen?
      ensures o.Refused? || o.Crashed?
      ensures unwritten == old(unwritten) && o.Refused? ==> disk.record.state.FailedBeforeWorldOpen?
      ensures Untidy() <= old(Untidy())
    {
      Fits();
      o := RemoveIgnoringErrors(candidate);
      if !o.Done? {
        return;
      }
      o := RemoveIgnoringErrors(final);
      if o.Done? {
        o := RefuseAfterRecording(state, current, Some(latest), false, Refused);
      }
    }

    /** Move the directory to its final name and arm the activation. */
    method MoveAndArm(promoting: Record, candidate: Name, final: Name) returns (o: Outcome)
      requires Valid() && disk.record == promoting && disk.record.state.PromotingCandidate?
      requires disk.record.candidate == Some(candidate) && disk.record.promoted == Some(final)
      requires Matches(disk, Some(candidate)) && final !in disk.releases
      modifies `disk, `clock, `run, `litter, `unwritten
      ensures unwritten >= old(unwritten)
      ensures Valid() && clock >= old(clock) && PointersKept(old(disk), disk)
      ensures InstalledBuild() == old(InstalledBuild())
      ensures disk.record == promoting
           || (disk.record == Armed(promoting) && Matches(disk, Some(final)) && candidate !in disk.releases)
      ensures o.Done? ==> disk.record == Armed(promoting)
      ensures o != Incompatible
      ensures old(Reliable()) ==> o.Done?
      ensures litter <= old(litter)
    {
      Fits();
      o := RenameCandidate(candidate, final);
      if o.Done? {
        o := WriteRecord(Armed(promoting), Arm);
      }
    }

    function Armed(promoting: Record): Record {
      promoting.(state := Activating, candidate := promoting.promoted, promoted := None)
    }

    /** Fifth part: record the final name, move the directory there, arm the activation. */
    method PromoteCandidate(state: Record, current: Option<nat>, latest: nat, candidate: Name) returns (o: Outcome)
      requires Valid() && Settled(state.state) && state.promoted.None?
      requires disk.record == Announced(state, current, latest, candidate) && current == InstalledBuild()
      requires Matches(disk, Some(candidate)) && Secured()
      modifies `disk, `clock, `run, `supply, `litter, `spared, `unwritten
      ensures unwritten >= old(unwritten)
      ensures Valid() && clock >= old(clock) && PointersKept(old(disk), disk)
      ensures InstalledBuild() == old(InstalledBuild())
      ensures o.Done? ==>
                && disk.record.state.Activating? && Matches(disk, disk.record.candidate)
                && old(supply) <= disk.record.candidate.value && disk.record.previous == disk.active
                && disk.record.candidateBuild == Some(latest) && disk.record.blockedBuild == state.blockedBuild
      ensures InFlight(disk.record.state) ==> !Switched(disk)
      ensures InFlight(disk.record.state) || disk.record.state.FailedBeforeWorldOpen?
      ensures o.Done? || o.Refused? || o.Crashed?
      ensures unwritten == old(unwritten) && o.Refused? ==> disk.record.state.FailedBeforeWorldOpen?
      ensures old(Reliable()) ==> o.Done?
      ensures Untidy() <= old(Untidy())
    {
      Fits();
      var final := FreshName();
      var promoting := Promoting(state, current, latest, candidate, final);
      o := WriteRecord(promoting, Promote(final));
      if !o.Done? {
        return;
      }
      o := MoveAndArm(promoting, candidate, final);
      if !o.Done? && !o.Crashed? {
        o := AbandonPromotion(state, current, latest, candidate, final);
      }
    }

    /** First the fallback pointer, then the active one. */
    method WritePointers() returns (o: Outcome)
      requires Valid() && disk.record.state.Activating? && !Switched(disk)
      requires Matches(disk, disk.record.candidate) && Secured()
      modifies `disk, `clock, `run
      ensures Valid() && clock >= old(clock)
      ensures disk.releases == old(disk).releases && disk.record == old(disk).record
      ensures disk.active == old(disk).active || disk.active == disk.record.candidate
      ensures o.Done? ==> disk.active == disk.record.candidate
      ensures o.Done? || o.IoFailed? || o.Crashed?
      ensures o.IoFailed? ==>
                if faults(old(clock)).Fine? then Errs(old(clock) + 1) && clock == old(clock) + 2
                else Errs(old(clock)) && clock == old(clock) + 1
      ensures o.IoFailed? ==>
                (disk.active != old(disk).active <==> faults(old(clock)).Fine? && faults(old(clock) + 1).FailsAfter?)
      ensures Errs(if faults(old(clock)).Fine? then old(clock) + 1 else old(clock)) ==> o.IoFailed?
      ensures old(Reliable()) ==> o.Done?
      ensures SwitchFails(old(clock)) ==> o.IoFailed? && disk.active == old(disk).active && Reliable()
      ensures SwitchFailsLate(old(clock)) ==> o.IoFailed? && disk.active != old(disk).active && Reliable()
    {
      Fits();
      o := WritePrevious(disk.active, KeepPrevious);
      if o.Done? {
        o := WriteActive(disk.record.candidate.value);
      }
    }

    /** The old release is selected again and nothing is left of the candidate. */
    predicate SwitchUndone(d: Disk, d': Disk) {
      d'.active == d.active && d'.record == Abandoned(d.record) && !Stands(d', d.record.candidate)
    }

    /** Both pointers, and activation recovery when either write fails. */
    method SwitchPointers() returns (o: Outcome)
      requires Valid() && disk.record.state.Activating? && !Switched(disk)
      requires Matches(disk, disk.record.candidate) && Secured()
      modifies `disk, `clock, `run, `litter, `unwritten
      ensures unwritten >= old(unwritten)
      ensures Valid() && clock >= old(clock)
      ensures o.Done? ==>
                && disk.active == old(disk).record.candidate && disk.previous == old(disk).record.previous
                && (disk.record == old(disk).record || disk.record == Activated(old(disk).record))
      ensures disk.active == old(disk).active ==>
                InstalledBuild() == old(InstalledBuild()) && !Selected(disk.record.state)
      ensures disk.active == old(disk).active
              || (disk.active == old(disk).record.candidate && !Settled(disk.record.state))
      ensures var s := disk.record.state; s.Activating? || s.PendingReadiness? || s.FailedBeforeWorldOpen?
      ensures !o.Incompatible?
      ensures o.IoFailed? <==> SwitchStrands(old(clock))
      ensures unwritten == old(unwritten) && o.Refused? ==> SwitchUndone(old(disk), disk)
      ensures old(Reliable()) ==> o.Done?
      // Recovery after a failed pointer write: the candidate is dropped, or stays if it was selected.
      ensures SwitchFails(old(clock)) ==> o.Refused? && SwitchUndone(old(disk), disk)
      ensures SwitchFailsLate(old(clock)) ==> o.Done? && Reliable()
      ensures litter <= old(litter)
    {
      Fits();
      o := WritePointers();
      Fits();
      if o.IoFailed? {
        o := RecoverActivation();
        if o.Done? && !disk.record.state.PendingReadiness? {
          o := Refused;
        }
      }
    }

    function Activated(r: Record): Record {
      r.(state := PendingReadiness, currentBuild := r.candidateBuild)
    }

    /** Last part: the pointers, then the record that awaits readiness. */
    method ActivateCandidate() returns (o: Outcome)
      requires Valid() && disk.record.state.Activating? && !Switched(disk)
      requires Matches(disk, disk.record.candidate) && Secured()
      modifies `disk, `clock, `run, `litter, `unwritten
      ensures unwritten >= old(unwritten)
      ensures Valid() && clock >= old(clock)
      ensures o.Done? ==>
                && disk.active == old(disk).record.candidate && disk.previous == old(disk).record.previous
                && disk.record == Activated(old(disk).record)
      ensures disk.active == old(disk).active ==>
                InstalledBuild() == old(InstalledBuild()) && !Selected(disk.record.state)
      ensures disk.active == old(disk).active
              || (disk.active == old(disk).record.candidate && !Settled(disk.record.state))
      ensures var s := disk.record.state; s.Activating? || s.PendingReadiness? || s.FailedBeforeWorldOpen?
      ensures !o.Incompatible?
      ensures o.IoFailed? <==> SwitchStrands(old(clock))
      ensures unwritten == old(unwritten) && o.Refused? ==> SwitchUndone(old(disk), disk)
      ensures old(Reliable()) ==> o.Done?
      ensures SwitchFails(old(clock)) ==> o.Refused? && SwitchUndone(old(disk), disk)
      ensures SwitchFailsLate(old(clock)) ==> o.Done?
      ensures litter <= old(litter)
    {
      var activating := disk.record;
      o := SwitchPointers();
      if o.Done? {
        o := WriteRecord(Activated(activating), if disk.record.state.Activating? then Select else Restate);
      }
    }

    // ------------------------------------------------------------ the public operations

    /** The selected release is a new one of this build, and the one before it is kept. */
    predicate FreshlySelected(firstNew: Name, before: Option<Name>, build: Option<nat>)
      reads `disk
    {
      && disk.active.Some? && firstNew <= disk.active.value
      && disk.record.candidateBuild == build && disk.previous == before
    }

    /** The pointers were reached, in vain and with the candidate left standing. */
    ghost predicate Strands(switch: Option<nat>) {
      switch.Some? && SwitchStrands(switch.value)
    }

    /** A staging attempt with these answers yields a candidate worth promoting. */
    predicate Stages(latest: nat, env: Surroundings)
      reads this
    {
      && !env.serverRunning && !env.spaceShort
      && CanUpdate(disk)
      && Passes(latest, env) && (env.backupSucceeds || (disk.active.None? && !env.worldHasState))
    }

    /** Everything before the promotion. */
    method StageCandidate(current: Option<nat>, latest: nat, env: Surroundings) returns (o: Outcome, candidate: Name)
      requires Valid() && Settled(disk.record.state) && current == InstalledBuild() && NotOlder(Some(latest), current)
      modifies `disk, `clock, `run, `supply, `backedUp, `worldless, `litter, `spared, `unwritten
      ensures unwritten >= old(unwritten)
      ensures Valid() && clock >= old(clock) && disk.active == old(disk).active
      ensures InstalledBuild() == old(InstalledBuild())
      ensures o.Done? ==>
                disk.record == Announced(old(disk).record, current, latest, candidate) && old(supply) <= supply
                          && Matches(disk, Some(candidate)) && Secured()
      ensures disk.record.state.DownloadingCandidate? || Settled(disk.record.state)
      ensures !o.IoFailed?
      ensures env.serverRunning ==> o.Refused? || o.Crashed?
      ensures old(Reliable()) && !o.Done? ==>
                && o.IsUpdateError()
                && disk.record == PreWorldFailure(old(disk).record, current, Some(latest), o.Incompatible?)
      ensures old(Reliable()) ==> (o.Done? <==> old(Stages(latest, env)))
      ensures old(Reliable()) && env.latest == Some(latest) && env.DeliversIncompatible() && CanUpdate(old(disk)) ==>
                o.Incompatible?
      ensures !env.serverRunning && !env.spaceShort && old(disk).active.Some? && old(disk).previous.None?
              && LosesAnnouncement(old(clock)) ==>
                AnnouncementIsLost(old(clock), o)
      ensures Untidy() <= old(Untidy()) + if o.Crashed? then 1 else 0
    {
      var state := disk.record;
      o, candidate := OpenCandidate(current, latest, env);
      if o.Done? {
        o := FetchCandidate(state, current, latest, candidate, env);
      }
    }

    /** GameUpdater._stage_and_activate. */
    method StageAndActivate(current: Option<nat>, latest: nat, env: Surroundings)
      returns (o: Outcome, ghost switch: Option<nat>)
      requires Valid() && Settled(disk.record.state) && current == InstalledBuild() && NotOlder(Some(latest), current)
      modifies `disk, `clock, `run, `supply, `backedUp, `worldless, `litter, `spared, `unwritten
      ensures unwritten >= old(unwritten)
      ensures Valid() && clock >= old(clock)
      ensures o.Done? ==>
                disk.record.state.PendingReadiness? && FreshlySelected(old(supply), old(disk).active, Some(latest))
      ensures disk.active == old(disk).active ==>
                InstalledBuild() == old(InstalledBuild()) && !Selected(disk.record.state)
      ensures disk.active == old(disk).active || disk.record.state.Activating? || disk.record.state.PendingReadiness?
      // Only a candidate that can neither be selected nor be deleted ends in an OSError, and an
      // UpdateError leaves the old release selected unless a record was not written.
      ensures o.IoFailed? <==> Strands(switch)
      ensures unwritten == old(unwritten) && o.IsUpdateError() ==>
                disk.active == old(disk).active && !disk.record.state.Activating?
      ensures old(Reliable()) && !o.Done? ==>
                && disk.active == old(disk).active && o.IsUpdateError()
                && disk.record == PreWorldFailure(old(disk).record, current, Some(latest), o.Incompatible?)
      ensures old(Reliable()) ==> (o.Done? <==> old(Stages(latest, env)))
      ensures env.serverRunning ==> o.Refused? || o.Crashed?
      ensures o.Done? ==> disk.record.blockedBuild == old(disk).record.blockedBuild
      // Whatever went wrong before: a candidate that got as far as the pointers is selected when
      // the active one fails after it landed, and gone when either fails before.
      ensures switch.None? ==> !o.Done? && disk.active == old(disk).active
      ensures switch.Some? && SwitchFailsLate(switch.value) ==> o.Done?
      ensures switch.Some? && SwitchFails(switch.value) ==>
                && o.Refused? && disk.active == old(disk).active && disk.record.state.FailedBeforeWorldOpen?
                && disk.record.candidate.None? && disk.record.promoted.None?
      ensures old(Reliable()) && env.latest == Some(latest) && env.DeliversIncompatible() && CanUpdate(old(disk)) ==>
                o.Incompatible?
      ensures !env.serverRunning && !env.spaceShort && old(disk).active.Some? && old(disk).previous.None?
              && LosesAnnouncement(old(clock)) ==>
                AnnouncementIsLost(old(clock), o)
      ensures Untidy() <= old(Untidy()) + if o.Crashed? then 1 else 0
    {
      NothingStaged();
      var state := disk.record;
      switch := None;
      var candidate;
      o, candidate := StageCandidate(current, latest, env);
      if !o.Done? {
        return;
      }
      o := PromoteCandidate(state, current, latest, candidate);
      if o.Done? {
        switch := Some(clock);
        o := ActivateCandidate();
      }
    }

    /** A record without a candidate, for the release in use. */
    method WriteSeen(seen: Record) returns (o: Outcome)
      requires Valid() && Settled(disk.record.state) && disk.active.Some?
      requires seen.state.Current? && seen.candidate.None? && seen.promoted.None?
      requires seen.currentBuild == InstalledBuild()
      modifies `disk, `clock, `run, `litter, `unwritten
      ensures unwritten == old(unwritten) + if o.Done? then 0 else 1
      ensures Valid() && clock == old(clock) + 1 && litter == old(litter)
      ensures disk == if faults(old(clock)).Lands() then old(disk).(record := seen) else old(disk)
      ensures o == WriteOutcome(faults(old(clock)), Refused)
    {
      o := WriteRecord(seen, Observe(seen));
    }

    /** The record that says there is nothing to update. */
    function Unchanged(state: Record, current: Option<nat>): Record {
      state.(state := Current, currentBuild := current, candidateBuild := None, blockedBuild := None)
    }

    /** The comparisons of `_check_and_update` that end without a candidate: */
    predicate Declines(latest: nat, current: Option<nat>, validate: bool, allowBlocked: bool)
      reads `disk
    {
      current.Some? && ((current == Some(latest) && !validate) || latest < current.value
                        || (disk.record.blockedBuild == Some(latest) && !allowBlocked))
    }

    /** nothing to do, an older build, or a blocked one. */
    method Decline(latest: nat, current: Option<nat>, validate: bool, allowBlocked: bool) returns (o: Outcome)
      requires Valid() && Settled(disk.record.state) && current == InstalledBuild()
      requires Declines(latest, current, validate, allowBlocked)
      modifies `disk, `clock, `run, `litter, `unwritten
      ensures unwritten >= old(unwritten)
      ensures Valid() && clock >= old(clock) && FilesKept(old(disk), disk) && Settled(disk.record.state)
      ensures current == Some(latest) && !validate ==>
                if o.Done? then disk.record == Unchanged(old(disk).record, current)
                else disk.record == old(disk).record || disk.record == Unchanged(old(disk).record, current)
      ensures latest < current.value ==>
                !o.Done? && (disk.record == old(disk).record
                             || disk.record == PreWorldFailure(old(disk).record, current, Some(latest), false))
      ensures (current != Some(latest) || validate) && current.value <= latest ==>
                o.Refused? && Now() == old(Now())
      ensures old(Reliable()) ==> (o.Done? <==> current == Some(latest) && !validate) && !o.Crashed?
      ensures !o.Done? ==> o.Refused? || o.Crashed?
      ensures old(Reliable()) && allowBlocked ==> disk.record.blockedBuild.None?
      ensures litter <= old(litter)
    {
      NothingStaged();
      SelectedHasBuild();
      if current == Some(latest) && !validate {
        o := WriteSeen(Unchanged(disk.record, current));
      } else if latest < current.value {
        o := RefuseAfterRecording(disk.record, current, Some(latest), false, Refused);
      } else {
        o := Refused;
      }
    }

    /** The block that an update leaves: a selected candidate keeps the old one until it is accepted,
        an incompatible one is blocked, and everything else forgets it. */
    function BlockAfter(before: Record, after: State, env: Surroundings, o: Outcome): Option<nat> {
      if o.Done? && after.PendingReadiness? then before.blockedBuild
      else if o.Incompatible? then env.latest
      else None
    }

    /** `_check_and_update` once Steam has answered. */
    method UpdateTo(latest: nat, current: Option<nat>, env: Surroundings, validate: bool, allowBlocked: bool)
      returns (o: Outcome, ghost switch: Option<nat>)
      requires Valid() && Settled(disk.record.state) && current == InstalledBuild()
      requires current.Some? == disk.active.Some?
      requires env.latest == Some(latest)
      modifies `disk, `clock, `run, `supply, `backedUp, `worldless, `litter, `spared, `unwritten
      ensures unwritten >= old(unwritten)
      ensures Valid() && clock >= old(clock)
      ensures o.Done? ==>
                if disk.record.state.PendingReadiness?
                then FreshlySelected(old(supply), old(disk).active, Some(latest))
                else disk.active == old(disk).active && disk.active.Some? && disk.record.state.Current?
      ensures disk.active == old(disk).active ==>
                InstalledBuild() == old(InstalledBuild()) && !Selected(disk.record.state)
      ensures disk.active == old(disk).active || disk.record.state.Activating? || disk.record.state.PendingReadiness?
      ensures o.IoFailed? <==> Strands(switch)
      ensures unwritten == old(unwritten) && o.IsUpdateError() ==>
                disk.active == old(disk).active && !disk.record.state.Activating?
      ensures old(Reliable()) && !o.Done? ==>
                disk.active == old(disk).active && o.IsUpdateError() && Settled(disk.record.state)
      ensures current == Some(latest) && !validate ==>
                FilesKept(old(disk), disk)
                && (disk.record == old(disk).record || disk.record == Unchanged(old(disk).record, current))
      ensures current.Some? && latest < current.value ==>
                !o.Done? && FilesKept(old(disk), disk)
                && (disk.record == old(disk).record
                    || disk.record == PreWorldFailure(old(disk).record, current, Some(latest), false))
      ensures old(Reliable()) && OffersIncompatible(env, old(disk)) ==>
                disk.active == old(disk).active && Settled(disk.record.state) && disk.record.blockedBuild == env.latest
      ensures BlockApplies(old(disk).record, current, env) && !allowBlocked ==> o.Refused? && Now() == old(Now())
      ensures old(Reliable()) && (current.None? || current.value < latest || (validate && current.value == latest))
              && (allowBlocked || current.None? || old(disk).record.blockedBuild != Some(latest)) ==>
                (o.Done? && disk.record.state.PendingReadiness? <==> old(Stages(latest, env)))
      ensures !env.serverRunning && !env.spaceShort && old(disk).active.Some? && old(disk).previous.None?
              && IsNewer(current, env) && (allowBlocked || old(disk).record.blockedBuild != env.latest)
              && LosesAnnouncement(old(clock)) ==>
                AnnouncementIsLost(old(clock), o)
      ensures old(Reliable()) && allowBlocked ==>
                disk.record.blockedBuild == BlockAfter(old(disk).record, disk.record.state, env, o)
      ensures env.serverRunning && IsNewer(current, env) ==> o.Refused? || o.Crashed?
      ensures Untidy() <= old(Untidy()) + if o.Crashed? then 1 else 0
    {
      switch := None;
      if Declines(latest, current, validate, allowBlocked) {
        o := Decline(latest, current, validate, allowBlocked);
      } else {
        o, switch := StageAndActivate(current, latest, env);
      }
    }

    /** GameUpdater._check_and_update. */
    method CheckAndUpdate(current: Option<nat>, env: Surroundings, validate: bool, allowBlocked: bool)
      returns (o: Outcome, ghost switch: Option<nat>)
      requires Valid() && Settled(disk.record.state) && current == InstalledBuild()
      requires current.Some? == disk.active.Some?
      modifies `disk, `clock, `run, `supply, `backedUp, `worldless, `litter, `spared, `unwritten
      ensures unwritten >= old(unwritten)
      ensures Valid() && clock >= old(clock)
      ensures o.Done? ==>
                if disk.record.state.PendingReadiness?
                then FreshlySelected(old(supply), old(disk).active, env.latest)
                else disk.active == old(disk).active && disk.active.Some? && disk.record.state.Current?
      ensures disk.active == old(disk).active ==>
                InstalledBuild() == old(InstalledBuild()) && !Selected(disk.record.state)
      ensures disk.active == old(disk).active || disk.record.state.Activating? || disk.record.state.PendingReadiness?
      ensures o.IoFailed? <==> Strands(switch)
      ensures unwritten == old(unwritten) && o.IsUpdateError() ==>
                disk.active == old(disk).active && !disk.record.state.Activating?
      ensures old(Reliable()) && !o.Done? ==>
                disk.active == old(disk).active && o.IsUpdateError() && Settled(disk.record.state)
      ensures env.latest.None? ==> FilesKept(old(disk), disk) && Settled(disk.record.state)
      ensures old(Reliable()) && env.latest.None? ==> disk.record.blockedBuild.None? && o.Refused?
      ensures env.latest.Some? && current.Some? && env.latest.value < current.value ==>
                !o.Done? && FilesKept(old(disk), disk)
      ensures NothingNewer(current, env) && !validate ==> FilesKept(old(disk), disk) && Settled(disk.record.state)
      ensures old(Reliable()) && OffersIncompatible(env, old(disk)) ==>
                disk.active == old(disk).active && Settled(disk.record.state) && disk.record.blockedBuild == env.latest
      ensures BlockApplies(old(disk).record, current, env) && !allowBlocked ==> o.Refused? && Now() == old(Now())
      ensures old(Reliable()) && env.Cooperates() && (validate || current != env.latest)
              && NotOlder(env.latest, current)
              && (allowBlocked || current.None? || old(disk).record.blockedBuild != env.latest) ==>
                (o.Done? && disk.record.state.PendingReadiness? <==> CanUpdate(old(disk)))
      ensures !env.serverRunning && !env.spaceShort && old(disk).active.Some? && old(disk).previous.None?
              && IsNewer(current, env) && (allowBlocked || old(disk).record.blockedBuild != env.latest)
              && LosesAnnouncement(old(clock)) ==>
                AnnouncementIsLost(old(clock), o)
      ensures old(Reliable()) && allowBlocked ==>
                disk.record.blockedBuild == BlockAfter(old(disk).record, disk.record.state, env, o)
      ensures env.serverRunning && IsNewer(current, env) ==> o.Refused? || o.Crashed?
      ensures Untidy() <= old(Untidy()) + if o.Crashed? then 1 else 0
    {
      NothingStaged();
      switch := None;
      if env.latest.Some? {
        o, switch := UpdateTo(env.latest.value, current, env, validate, allowBlocked);
      } else {
        o := RefuseAfterRecording(disk.record, current, None, false, Refused);
      }
    }

    /** The newest build is newer than the installed one and was rejected before. */
    predicate BlockApplies(state: Record, current: Option<nat>, env: Surroundings) {
      current.Some? && env.latest.Some? && state.blockedBuild == env.latest && current.value < env.latest.value
    }

    /** A build newer than the installed one is blocked. */
    predicate HasBlock(state: Record, current: Option<nat>) {
      current.Some? && state.blockedBuild.Some? && current.value < state.blockedBuild.value
    }

    /** Such a build is all that a start can learn of from Steam. */
    predicate BlockHolds(state: Record, current: Option<nat>, env: Surroundings) {
      HasBlock(state, current) && if env.latest.None? then !env.AsksSteam() else env.latest == state.blockedBuild
    }

    function Observed(state: Record, current: Option<nat>): Record {
      state.(state := Current, currentBuild := current, candidateBuild := None)
    }

    /** GameUpdater._write_observation; every caller has an active release. */
    method WriteObservation() returns (o: Outcome)
      requires Valid() && Settled(disk.record.state) && disk.active.Some?
      modifies `disk, `clock, `run, `litter, `unwritten
      ensures unwritten == old(unwritten) + if o.Done? then 0 else 1
      ensures Valid() && clock >= old(clock) && FilesKept(old(disk), disk)
      ensures disk.record == old(disk).record || disk.record == Observed(old(disk).record, InstalledBuild())
      ensures o.Done? ==> disk.record == Observed(old(disk).record, InstalledBuild())
      ensures o.Done? || o.Refused? || o.Crashed?
      ensures old(Reliable()) ==> o.Done?
      ensures Settled(disk.record.state)
      ensures litter <= old(litter)
    {
      Fits();
      o := WriteSeen(Observed(disk.record, InstalledBuild()));
    }

    /** The announcement is lost and so is the record that would withdraw it. */
    ghost predicate LosesWithdrawal(env: Surroundings)
      reads this
    {
      && !env.serverRunning && !env.spaceShort && disk.active.Some? && disk.previous.None?
      && IsNewer(InstalledBuild(), env) && disk.record.blockedBuild != env.latest
      && LosesAnnouncement(clock) && faults(clock + 4).FailsBefore?
    }

    /** The closing recovery could not withdraw what was staged. */
    ghost predicate ClosingFailed(closing: Option<Closing>) {
      closing.Some? && WithdrawalFails(closing.value.begun, closing.value.staged)
    }

    /** The handler: what was left half-done is withdrawn, and if the release selected before is
        still the one to use, the error is survived. */
    method KeepSelected(selected: Option<Name>, raised: Outcome) returns (o: Outcome, ghost closing: Option<Closing>)
      requires Valid() && raised.IsUpdateError()
      modifies `disk, `clock, `run, `litter, `unwritten
      ensures unwritten >= old(unwritten)
      ensures Valid() && clock >= old(clock) && PointersKept(old(disk), disk)
      ensures o.Done? ==> selected.Some? && disk.active == selected && !disk.record.state.Activating?
                          && !Selected(disk.record.state)
      ensures closing == if IsStaging(old(disk).record.state)
                         then Some(Closing(old(clock), StagingCount(old(disk)))) else None
      ensures o.Done? && InFlight(disk.record.state) <==>
                selected.Some? && disk.active == selected && ClosingFailed(closing)
      ensures selected.Some? && disk.active == selected && !Selected(old(disk).record.state)
              && !old(disk).record.state.Activating? ==>
                o.Done? || o.Crashed?
      ensures old(Reliable()) && !Selected(old(disk).record.state) && !old(disk).record.state.Activating? ==>
                Settled(disk.record.state) && (o.Done? <==> selected.Some? && disk.active == selected)
      ensures Settled(old(disk).record.state) ==> Now() == old(Now())
      ensures Settled(old(disk).record.state) && selected.Some? && disk.active == selected ==> o.Done?
      ensures old(disk).record.state.DownloadingCandidate? && StagingCount(old(disk)) == 0
              && faults(old(clock)).FailsBefore? && selected.Some? && disk.active == selected ==>
                o.Done? && disk == old(disk)
      ensures !WorldTouched(old(disk).record.state) ==> !WorldTouched(disk.record.state)
      ensures litter <= old(litter)
    {
      closing := None;
      var failed := disk.record.state;
      if IsStaging(failed) {
        closing := Some(Closing(clock, StagingCount(disk)));
        o := RecoverInterrupted();
        if o.Crashed? {
          return;
        }
        if o.Done? {
          failed := disk.record.state;
        }
      }
      var kept := selected.Some? && disk.active == selected;
      o := if kept && !failed.Activating? && !Selected(failed) then Done else raised;
    }

    /** The automatic update of `prepare_start`, which never overrides a block. */
    method TryUpdate(env: Surroundings) returns (o: Outcome, ghost switch: Option<nat>)
      requires Valid() && Settled(disk.record.state) && InstalledBuild().Some? == disk.active.Some?
      modifies `disk, `clock, `run, `supply, `backedUp, `worldless, `litter, `spared, `unwritten
      ensures unwritten >= old(unwritten)
      ensures Valid() && clock >= old(clock) && !WorldTouched(disk.record.state)
      ensures o.Done? ==>
                if disk.record.state.PendingReadiness?
                then FreshlySelected(old(supply), old(disk).active, env.latest)
                else disk.active == old(disk).active && disk.active.Some? && disk.record.state.Current?
      ensures disk.active == old(disk).active ==> !Selected(disk.record.state)
      ensures disk.active == old(disk).active || disk.record.state.Activating? || disk.record.state.PendingReadiness?
      ensures o.IoFailed? <==> Strands(switch)
      ensures unwritten == old(unwritten) && o.IsUpdateError() ==>
                disk.active == old(disk).active && !disk.record.state.Activating?
      ensures old(Reliable()) && !o.Done? ==>
                disk.active == old(disk).active && o.IsUpdateError() && Settled(disk.record.state)
      ensures env.latest.None? || NothingNewer(old(InstalledBuild()), env) ==>
                FilesKept(old(disk), disk) && Settled(disk.record.state)
      ensures old(Reliable()) && env.latest.None? ==> disk.record.blockedBuild.None?
      ensures old(Reliable()) && OffersIncompatible(env, old(disk)) ==>
                disk.active == old(disk).active && Settled(disk.record.state) && disk.record.blockedBuild == env.latest
      ensures BlockApplies(old(disk).record, old(InstalledBuild()), env) ==> o.Refused? && Now() == old(Now())
      ensures old(Reliable()) && env.Cooperates() && Offers(env, old(disk)) ==>
                (o.Done? && disk.record.state.PendingReadiness? <==> CanUpdate(old(disk)))
      ensures old(LosesWithdrawal(env)) ==> AnnouncementIsLost(old(clock), o)
      ensures Untidy() <= old(Untidy()) + if o.Crashed? then 1 else 0
    {
      o, switch := CheckAndUpdate(InstalledBuild(), env, false, false);
    }

    /** The automatic update of `prepare_start` with its handler: an UpdateError that left the
        known-good release selected is reported and survived. */
    method UpdateOrKeep(env: Surroundings) returns (o: Outcome, ghost trail: Trail)
      requires Valid() && Settled(disk.record.state) && InstalledBuild().Some? == disk.active.Some?
      modifies `disk, `clock, `run, `supply, `backedUp, `worldless, `litter, `spared, `unwritten
      ensures unwritten >= old(unwritten)
      ensures Valid() && clock >= old(clock)
      ensures o.Done? ==> disk.active.Some? && !disk.record.state.Activating?
      ensures o.Done? && disk.active == old(disk).active ==> !Selected(disk.record.state)
      ensures o.Done? && disk.active != old(disk).active ==>
                disk.record.state.PendingReadiness? && FreshlySelected(old(supply), old(disk).active, env.latest)
      // A normal return leaves a staging record exactly if the closing recovery cannot withdraw it,
      ensures o.Done? && InFlight(disk.record.state) <==> old(disk).active.Some? && ClosingFailed(trail.closing)
      ensures old(Reliable()) && o.Done? ==> !InFlight(disk.record.state)
      // which two writes that fail can bring about.
      ensures old(LosesWithdrawal(env)) ==> o.Done? && disk.record.state.DownloadingCandidate?
      // With a release to keep and its record writes working, no failure but one prevents a return.
      ensures unwritten == old(unwritten) && !o.Crashed? && old(disk).active.Some? ==>
                (o.Done? <==> !Strands(trail.switch))
      ensures old(Reliable()) && old(disk).active.Some? ==> o.Done?
      ensures old(Reliable()) && OffersIncompatible(env, old(disk)) ==>
                disk.active == old(disk).active && Settled(disk.record.state) && disk.record.blockedBuild == env.latest
      ensures NothingNewer(old(InstalledBuild()), env) ==> FilesKept(old(disk), disk) && Settled(disk.record.state)
      ensures BlockApplies(old(disk).record, old(InstalledBuild()), env) ==> o.Done? && Now() == old(Now())
      ensures old(Reliable()) && env.latest.None? ==>
                disk.record.blockedBuild.None? && FilesKept(old(disk), disk) && Settled(disk.record.state)
      ensures old(Reliable()) && env.Cooperates() && Offers(env, old(disk)) ==>
                (o.Done? && disk.record.state.PendingReadiness? <==> CanUpdate(old(disk)))
      ensures !WorldTouched(disk.record.state)
      ensures Untidy() <= old(Untidy()) + if o.Crashed? then 1 else 0
    {
      var selected := disk.active;
      ghost var switch, closing;
      var raised;
      raised, switch := TryUpdate(env);
      closing := None;
      if raised.IsUpdateError() {
        o, closing := KeepSelected(selected, raised);
      } else {
        o := raised;
      }
      trail := Trail(switch, closing);
    }

    /** The reasons to start the current release without asking Steam. */
    method KeepByPolicy(env: Surroundings) returns (o: Outcome, decided: bool)
      requires Valid() && Settled(disk.record.state)
      modifies `disk, `clock, `run, `litter, `unwritten
      ensures unwritten >= old(unwritten)
      ensures Valid() && clock >= old(clock) && Settled(disk.record.state) && FilesKept(old(disk), disk)
      ensures disk.record == old(disk).record || disk.record == Observed(old(disk).record, InstalledBuild())
      ensures !decided ==> Now() == old(Now()) && clock == old(clock) && !env.deploymentPending
      ensures decided && o.Done? ==> disk.active.Some?
      // What is observed is recorded, unless a manual policy preserves a recorded failure.
      ensures decided && o.Done? ==>
                disk.record == if !env.deploymentPending && env.manualPolicy
                                  && old(disk).record.state.FailedBeforeWorldOpen?
                               then old(disk).record
                               else Observed(old(disk).record, InstalledBuild())
      ensures decided <==> env.deploymentPending
                           || (disk.active.Some? && (env.manualPolicy || env.modsBlock
                                                || !Preparation(env.activeAnswer, InstalledBuild()).Done?))
      ensures unwritten == old(unwritten) && !o.Crashed? && disk.active.Some? && env.activeAnswer.Accepts? ==> o.Done?
      ensures old(Reliable()) && decided ==>
                (o.Done? <==> disk.active.Some? && (env.deploymentPending
                                               || Preparation(env.activeAnswer, InstalledBuild()).Done?))
      ensures litter <= old(litter)
    {
      SelectedHasBuild();
      o := Done;
      decided := true;
      if env.deploymentPending {
        if disk.active.None? {
          o := Refused;
          return;
        }
        o := WriteObservation();
        return;
      }
      if disk.active.Some? {
        o := Preparation(env.activeAnswer, InstalledBuild());
        if !o.Done? {
          return;
        }
        if env.manualPolicy {
          if !disk.record.state.FailedBeforeWorldOpen? {
            o := WriteObservation();
          }
          return;
        }
        if env.modsBlock {
          o := WriteObservation();
          return;
        }
      }
      decided := false;
    }

    /** A start without a candidate: the policies and the update decide. */
    method StartSettled(env: Surroundings) returns (o: Outcome, ghost trail: Trail)
      requires Valid() && Settled(disk.record.state)
      modifies `disk, `clock, `run, `supply, `backedUp, `worldless, `litter, `spared, `unwritten
      ensures unwritten >= old(unwritten)
      ensures Valid() && clock >= old(clock)
      ensures o.Done? ==> disk.active.Some? && !disk.record.state.Activating?
      ensures o.Done? && disk.active == old(disk).active ==> !Selected(disk.record.state)
      ensures o.Done? && disk.active != old(disk).active ==>
                disk.record.state.PendingReadiness? && FreshlySelected(old(supply), old(disk).active, env.latest)
      ensures o.Done? && InFlight(disk.record.state) <==> old(disk).active.Some? && ClosingFailed(trail.closing)
      ensures old(Reliable()) && o.Done? ==> !InFlight(disk.record.state)
      ensures env.AsksSteam() && old(LosesWithdrawal(env)) ==>
                o.Done? && disk.record.state.DownloadingCandidate?
      ensures unwritten == old(unwritten) && !o.Crashed? && old(disk).active.Some? && env.activeAnswer.Accepts? ==>
                (o.Done? <==> !Strands(trail.switch))
      ensures old(Reliable()) && old(disk).active.Some? && env.activeAnswer.Accepts? ==> o.Done?
      ensures old(Reliable()) && OffersIncompatible(env, old(disk)) && env.AsksSteam() ==>
                disk.active == old(disk).active && Settled(disk.record.state) && disk.record.blockedBuild == env.latest
      ensures NothingNewer(old(InstalledBuild()), env) ==> FilesKept(old(disk), disk) && Settled(disk.record.state)
      ensures BlockHolds(old(disk).record, old(InstalledBuild()), env) ==>
                disk.active == old(disk).active && disk.releases == old(disk).releases && Settled(disk.record.state)
                && disk.record.blockedBuild == old(disk).record.blockedBuild
      ensures old(Reliable()) && env.latest.None? && env.AsksSteam() ==>
                disk.record.blockedBuild.None? && FilesKept(old(disk), disk) && Settled(disk.record.state)
      ensures old(Reliable()) && env.Cooperates() && env.UpdatesAutomatically() && Offers(env, old(disk)) ==>
                (o.Done? && disk.record.state.PendingReadiness? <==> CanUpdate(old(disk)))
      ensures !WorldTouched(disk.record.state)
      ensures Untidy() <= old(Untidy()) + if o.Crashed? then 1 else 0
    {
      SelectedHasBuild();
      trail := Trail(None, None);
      var decided;
      o, decided := KeepByPolicy(env);
      if !decided {
        o, trail := UpdateOrKeep(env);
      }
    }

    /** The part of `prepare_start` after recovery: a candidate past activation is resumed as it
        is, and otherwise the policies and the update decide. */
    method StartRecovered(env: Surroundings) returns (o: Outcome, ghost trail: Trail)
      requires Valid() && !InFlight(disk.record.state)
      modifies `disk, `clock, `run, `supply, `backedUp, `worldless, `litter, `spared, `unwritten
      ensures unwritten >= old(unwritten)
      ensures Valid() && clock >= old(clock)
      ensures o.Done? ==> disk.active.Some? && !disk.record.state.Activating?
      ensures o.Done? && disk.active == old(disk).active && Settled(old(disk).record.state) ==>
                !Selected(disk.record.state)
      ensures o.Done? && disk.active != old(disk).active ==>
                disk.record.state.PendingReadiness? && FreshlySelected(old(supply), old(disk).active, env.latest)
      ensures Selected(old(disk).record.state) ==> Now() == old(Now())
      ensures o.Done? && InFlight(disk.record.state) <==> old(disk).active.Some? && ClosingFailed(trail.closing)
      ensures old(Reliable()) && o.Done? ==> !InFlight(disk.record.state)
      ensures Settled(old(disk).record.state) && env.AsksSteam() && old(LosesWithdrawal(env)) ==>
                o.Done? && disk.record.state.DownloadingCandidate?
      ensures unwritten == old(unwritten) && !o.Crashed? && old(disk).active.Some? && env.activeAnswer.Accepts? ==>
                (o.Done? <==> !Strands(trail.switch))
      ensures old(Reliable()) && old(disk).active.Some? && env.activeAnswer.Accepts? ==> o.Done?
      ensures old(Reliable()) && Settled(old(disk).record.state) && OffersIncompatible(env, old(disk))
              && env.AsksSteam() ==>
                disk.active == old(disk).active && Settled(disk.record.state) && disk.record.blockedBuild == env.latest
      ensures Settled(old(disk).record.state) && NothingNewer(old(InstalledBuild()), env) ==>
                FilesKept(old(disk), disk) && Settled(disk.record.state)
      ensures Settled(old(disk).record.state) && BlockHolds(old(disk).record, old(InstalledBuild()), env) ==>
                disk.active == old(disk).active && disk.releases == old(disk).releases && Settled(disk.record.state)
                && disk.record.blockedBuild == old(disk).record.blockedBuild
      ensures old(Reliable()) && Settled(old(disk).record.state) && env.latest.None? && env.AsksSteam() ==>
                disk.record.blockedBuild.None? && FilesKept(old(disk), disk) && Settled(disk.record.state)
      ensures old(Reliable()) && Settled(old(disk).record.state) && env.Cooperates() && env.UpdatesAutomatically()
              && Offers(env, old(disk)) ==>
                (o.Done? && disk.record.state.PendingReadiness? <==> CanUpdate(old(disk)))
      ensures !WorldTouched(old(disk).record.state) ==> !WorldTouched(disk.record.state)
      ensures Untidy() <= old(Untidy()) + if o.Crashed? then 1 else 0
    {
      trail := Trail(None, None);
      if Selected(disk.record.state) {
        SelectedHasBuild();
        o := if disk.active.None? then Refused else Preparation(env.activeAnswer, InstalledBuild());
      } else {
        o, trail := StartSettled(env);
      }
    }

    /** What a completed recovery leaves of a world whose release it keeps. */
    lemma RecoveryKeepsRelease(w: World, d: Disk)
      requires DiskFits(w) && RecoveryAttempt(w.disk, d, true) && KeepsRelease(w.disk)
      ensures Settled(d.record.state) && ActiveBuild(d) == ActiveBuild(w.disk)
      ensures PreviousResolves(d) <==> PreviousResolves(w.disk)
      ensures if Settled(w.disk.record.state) then d == w.disk else d.record.blockedBuild.None?
    {
    }

    /** How every operation begins: with the recovery of what the last one left. */
    method Recover() returns (o: Outcome)
      requires Valid()
      modifies `disk, `clock, `run, `litter, `unwritten
      ensures unwritten >= old(unwritten)
      ensures Valid() && clock >= old(clock) && PointersKept(old(disk), disk)
      ensures !o.Incompatible?
      ensures unwritten == old(unwritten) && !o.Crashed? ==>
                (o.Done? <==> !DeletionFails(old(clock), LeftCount(old(disk))))
      ensures old(Reliable()) ==> o.Done?
      ensures !InFlight(old(disk).record.state) ==> o.Done? && Now() == old(Now()) && clock == old(clock)
      ensures o.Done? ==> !InFlight(disk.record.state)
      ensures KeepsRelease(old(disk)) ==> KeepsRelease(disk)
      ensures KeepsRelease(old(disk)) && o.Done? ==>
                && Settled(disk.record.state) && InstalledBuild() == old(InstalledBuild())
                && (PreviousResolves(disk) <==> PreviousResolves(old(disk)))
                && (InFlight(old(disk).record.state) ==> disk.record.blockedBuild.None?)
      ensures old(disk).record.state.Activating? && Switched(old(disk)) ==>
                (disk == old(disk) && !o.Done?) || disk == old(disk).(record := Activated(old(disk).record))
      ensures !WorldTouched(old(disk).record.state) ==> !WorldTouched(disk.record.state)
      ensures litter <= old(litter)
    {
      Fits();
      ghost var before := Now();
      o := RecoverInterrupted();
      if KeepsRelease(before.disk) && o.Done? {
        RecoveryKeepsRelease(before, disk);
      }
    }

    /** GameUpdater.prepare_start. */
    method PrepareStart(env: Surroundings) returns (o: Outcome, ghost trail: Trail)
      requires Valid()
      modifies `disk, `clock, `run, `supply, `backedUp, `worldless, `litter, `spared, `unwritten
      ensures unwritten >= old(unwritten)
      ensures Valid() && clock >= old(clock)
      // A normal return: some release is selected, the old one or a fresh verified candidate.
      ensures o.Done? ==> disk.active.Some? && !disk.record.state.Activating?
      ensures o.Done? && disk.active != old(disk).active ==>
                disk.record.state.PendingReadiness? && FreshlySelected(old(supply), old(disk).active, env.latest)
      ensures KeepsRelease(old(disk)) && o.Done? && disk.active == old(disk).active ==> !Selected(disk.record.state)
      // It leaves an interrupted transaction exactly if the closing recovery cannot withdraw it,
      ensures o.Done? && InFlight(disk.record.state) <==> old(disk).active.Some? && ClosingFailed(trail.closing)
      ensures old(Reliable()) && o.Done? ==> !InFlight(disk.record.state)
      // which two writes that fail can bring about.
      ensures Settled(old(disk).record.state) && env.AsksSteam() && old(LosesWithdrawal(env)) ==>
                o.Done? && disk.record.state.DownloadingCandidate?
      // With a release to fall back on and record writes that work, no answer and no failure prevents
      // a start, except for a directory that recovery cannot delete: one of an interrupted
      // transaction, or that of a candidate whose pointer could not be written.
      ensures unwritten == old(unwritten) && !o.Crashed? && old(disk).active.Some? && env.activeAnswer.Accepts? ==>
                (o.Done? <==> !DeletionFails(old(clock), LeftCount(old(disk))) && !Strands(trail.switch))
      ensures old(Reliable()) && old(disk).active.Some? && env.activeAnswer.Accepts? ==> o.Done?
      // A candidate past activation is resumed as it is.
      ensures Selected(old(disk).record.state) ==> Now() == old(Now())
      ensures old(Reliable()) && old(disk.record.state.Activating? && Switched(disk)) ==>
                disk.active == old(disk).active && disk.record == Activated(old(disk).record)
      // A candidate that turns out incompatible is blocked.
      ensures old(Reliable()) && Settled(old(disk).record.state) && OffersIncompatible(env, old(disk))
              && env.AsksSteam() ==>
                disk.active == old(disk).active && Settled(disk.record.state) && disk.record.blockedBuild == env.latest
      // Without a newer build no pointer and no directory changes.
      ensures Settled(old(disk).record.state) && NothingNewer(old(InstalledBuild()), env) ==>
                FilesKept(old(disk), disk) && Settled(disk.record.state)
      // A rejected build is not fetched again, whatever fails, and as long as nothing newer is known
      // its block is dropped exactly by a query that fails.
      ensures Settled(old(disk).record.state) && BlockHolds(old(disk).record, old(InstalledBuild()), env) ==>
                disk.active == old(disk).active && disk.releases == old(disk).releases && Settled(disk.record.state)
                && disk.record.blockedBuild == old(disk).record.blockedBuild
      ensures old(Reliable()) && Settled(old(disk).record.state) && HasBlock(old(disk).record, old(InstalledBuild()))
              && (env.latest.None? || env.latest == old(disk).record.blockedBuild) ==>
                (disk.record.blockedBuild == old(disk).record.blockedBuild
                 <==> env.latest.Some? || !env.UpdatesAutomatically() || !env.activeAnswer.Accepts?)
      ensures old(Reliable()) && KeepsRelease(old(disk)) && env.latest.None? && env.AsksSteam() ==>
                disk.record.blockedBuild.None? && Settled(disk.record.state)
                && (Settled(old(disk).record.state) ==> FilesKept(old(disk), disk))
      // Recoverability, exactly.
      ensures old(Reliable()) && KeepsRelease(old(disk)) && env.Cooperates() && env.UpdatesAutomatically()
              && Offers(env, old(disk)) ==>
                (o.Done? && disk.record.state.PendingReadiness? <==> CanUpdate(old(disk)))
      ensures !WorldTouched(old(disk).record.state) ==> !WorldTouched(disk.record.state)
      ensures Untidy() <= old(Untidy()) + if o.Crashed? then 1 else 0
    {
      trail := Trail(None, None);
      o := Recover();
      if o.Done? {
        o, trail := StartRecovered(env);
      }
    }

    /** GameUpdater.explicit_update: the same transaction on request, with a block overridden. */
    method ExplicitUpdate(env: Surroundings, validate: bool) returns (o: Outcome)
      requires Valid()
      modifies `disk, `clock, `run, `supply, `backedUp, `worldless, `litter, `spared, `unwritten
      ensures unwritten >= old(unwritten)
      ensures Valid() && clock >= old(clock)
      ensures Selected(old(disk.record.state)) ==> !o.Done? && Now() == old(Now())
      // The launcher check of the release in use comes first and changes nothing.
      ensures Settled(old(disk).record.state) && !env.deploymentPending && old(disk).active.Some?
              && !env.activeAnswer.Accepts? ==>
                o == Preparation(env.activeAnswer, old(InstalledBuild())) && Now() == old(Now())
      // A block is overridden, and forgotten unless the candidate is selected or rejected again;
      // it does not even survive an update that is refused because a server runs.
      ensures old(Reliable()) && Settled(old(disk).record.state) && !env.deploymentPending
              && (old(disk).active.None? || env.activeAnswer.Accepts?) ==>
                disk.record.blockedBuild == BlockAfter(old(disk).record, disk.record.state, env, o)
      ensures old(Reliable()) && Settled(old(disk).record.state) && !env.deploymentPending && env.serverRunning
              && (old(disk).active.None? || env.activeAnswer.Accepts?) && IsNewer(old(InstalledBuild()), env) ==>
                o.Refused? && disk.record.blockedBuild.None? && disk.active == old(disk).active
      ensures env.deploymentPending ==> !o.Done? && disk.active == old(disk).active
      ensures o.Done? ==> disk.active.Some? && (disk.record.state.PendingReadiness? || disk.record.state.Current?)
      ensures disk.active != old(disk).active ==>
                !env.deploymentPending && (disk.record.state.Activating? || disk.record.state.PendingReadiness?)
      ensures old(Reliable()) && KeepsRelease(old(disk)) && !env.deploymentPending && env.Cooperates()
              && (validate || old(InstalledBuild()) != env.latest) && NotOlder(env.latest, old(InstalledBuild())) ==>
                (o.Done? && disk.record.state.PendingReadiness? <==> CanUpdate(old(disk)))
      ensures Untidy() <= old(Untidy()) + if o.Crashed? then 1 else 0
    {
      SelectedHasBuild();
      o := Recover();
      if !o.Done? {
        return;
      }
      if env.deploymentPending || !Settled(disk.record.state) {
        o := Refused;
        return;
      }
      if disk.active.Some? {
        o := Preparation(env.activeAnswer, InstalledBuild());
        if !o.Done? {
          return;
        }
      }
      ghost var switch;
      o, switch := CheckAndUpdate(InstalledBuild(), env, validate, true);
    }

    /** GameUpdater._verify_candidate_active. */
    predicate CandidateIsActive()
      reads this
    {
      disk.record.candidate.Some? && disk.record.candidateBuild.Some? && disk.active == disk.record.candidate
      && InstalledBuild() == disk.record.candidateBuild
    }

    /** GameUpdater.mark_world_opened. */
    method MarkWorldOpened() returns (o: Outcome, marked: bool)
      requires Valid()
      modifies `disk, `clock, `run, `litter, `unwritten
      ensures unwritten >= old(unwritten)
      ensures Valid() && clock >= old(clock) && FilesKept(old(disk), disk)
      ensures disk.record == old(disk).record
              || disk.record == old(disk).record.(state := StartingCandidate, worldOpened := true)
      ensures o.Done? ==>
                (marked <==> old(disk).record.state.PendingReadiness? || old(disk).record.state.StartingCandidate?)
      ensures o.Done? && marked ==> disk.record.state.StartingCandidate? && disk.record.worldOpened
      ensures !marked ==> disk.record == old(disk).record || !o.Done?
      ensures !old(disk).record.state.PendingReadiness? && !old(disk).record.state.StartingCandidate? ==>
                o.Done? && Now() == old(Now())
      ensures unwritten == old(unwritten) && !o.Crashed? ==> o.Done?
      ensures old(Reliable()) ==> o.Done?
      ensures litter <= old(litter)
    {
      Fits();
      marked := false;
      if !disk.record.state.PendingReadiness? && !disk.record.state.StartingCandidate? {
        o := Done;
        return;
      }
      if !CandidateIsActive() {
        o := Refused;
        return;
      }
      o := WriteRecord(disk.record.(state := StartingCandidate, worldOpened := true), OpenWorld);
      marked := o.Done?;
    }

    /** The readiness of a touched candidate, with its acceptance on a local host. */
    method WriteReady(env: Surroundings) returns (o: Outcome)
      requires Valid() && (disk.record.state.StartingCandidate? || disk.record.state.RuntimeReady?)
      modifies `disk, `clock, `run, `litter, `unwritten
      ensures unwritten == old(unwritten) + if o.Done? then 0 else 1
      ensures Valid() && clock == old(clock) + 1 && litter == old(litter)
      ensures var next := if env.localEnvironment then Accepted(old(disk).record)
                          else old(disk).record.(state := RuntimeReady);
        disk == if faults(old(clock)).Lands() then old(disk).(record := next) else old(disk)
      ensures o == WriteOutcome(faults(old(clock)), Refused)
    {
      if env.localEnvironment {
        o := WriteRecord(Accepted(disk.record.(state := RuntimeReady)), AcceptLocally);
      } else {
        o := WriteRecord(disk.record.(state := RuntimeReady), MarkReady);
      }
    }

    /** GameUpdater.mark_runtime_ready; acceptance follows at once on a local host. */
    method MarkRuntimeReady(env: Surroundings) returns (o: Outcome)
      requires Valid()
      modifies `disk, `clock, `run, `litter, `unwritten
      ensures unwritten >= old(unwritten)
      ensures Valid() && clock >= old(clock) && FilesKept(old(disk), disk)
      ensures old(disk).record.state.PendingReadiness? ==> o.Refused? && Now() == old(Now())
      ensures old(disk).record.state.StartingCandidate? || old(disk).record.state.RuntimeReady? ==>
                var next := if env.localEnvironment then Accepted(old(disk).record)
                            else old(disk).record.(state := RuntimeReady);
                (disk.record == old(disk).record || disk.record == next) && (o.Done? ==> disk.record == next)
      ensures !Selected(old(disk).record.state) || old(disk).record.state.FailedAfterWorldOpen? ==>
                disk.record == old(disk).record
      ensures old(Reliable()) ==> o.Done? || old(disk).record.state.PendingReadiness?
      ensures litter <= old(litter)
    {
      Fits();
      if disk.record.state.Current? {
        o := WriteRecord(disk.record, Restate);
        return;
      }
      var state := disk.record.state;
      if !state.PendingReadiness? && !state.StartingCandidate? && !state.RuntimeReady? {
        o := Done;
        return;
      }
      if !disk.record.worldOpened || !CandidateIsActive() {
        o := Refused;
        return;
      }
      o := WriteReady(env);
    }

    /** GameUpdater.accept. */
    method AcceptRelease() returns (o: Outcome)
      requires Valid()
      modifies `disk, `clock, `run, `litter, `unwritten
      ensures unwritten >= old(unwritten)
      ensures Valid() && clock >= old(clock) && FilesKept(old(disk), disk)
      ensures disk.record == old(disk).record
              || (old(disk).record.state.RuntimeReady? && disk.record == Accepted(old(disk).record))
      ensures o.Done? && old(disk).record.state.RuntimeReady? ==>
                disk.record.state.Current? && disk.record.currentBuild == InstalledBuild()
      ensures old(Reliable()) ==> o.Done?
      ensures litter <= old(litter)
    {
      Fits();
      if !disk.record.state.RuntimeReady? {
        o := Done;
        return;
      }
      if !disk.record.worldOpened || !CandidateIsActive() {
        o := Refused;
        return;
      }
      o := WriteRecord(Accepted(disk.record), Accept);
    }

    /** GameUpdater.fail_readiness. */
    method FailReadinessOf() returns (o: Outcome)
      requires Valid()
      modifies `disk, `clock, `run, `litter, `unwritten
      ensures unwritten >= old(unwritten)
      ensures Valid() && clock >= old(clock) && FilesKept(old(disk), disk)
      ensures old(disk).record.state.PendingReadiness? ==> o.Refused? && Now() == old(Now())
      ensures var s := old(disk).record.state;
        if s.StartingCandidate? || s.RuntimeReady? then
          && (disk.record == old(disk).record || disk.record == old(disk).record.(state := FailedAfterWorldOpen))
          && (o.Done? ==> disk.record.state.FailedAfterWorldOpen?)
        else
          disk.record == old(disk).record
      ensures old(Reliable()) ==> o.Done? || old(disk).record.state.PendingReadiness?
      ensures litter <= old(litter)
    {
      Fits();
      var state := disk.record.state;
      if !state.PendingReadiness? && !state.StartingCandidate? && !state.RuntimeReady? {
        o := Done;
        return;
      }
      if !disk.record.worldOpened || !CandidateIsActive() {
        o := Refused;
        return;
      }
      o := WriteRecord(disk.record.(state := FailedAfterWorldOpen), FailReadiness);
    }

    /** The account is the number of orphans. */
    lemma LitterIsOrphaned()
      requires Valid()
      ensures litter == |Orphans(disk)|
    {
      LitterCountsOrphans(run, |run.acts|);
    }

    /** The start script is run from the selected release. */
    ghost method LaunchActive()
      requires Valid() && Step(Now(), Launch).Some?
      modifies `launched, `run
      ensures Valid() && clock >= old(clock) && InstalledBuild().Some?
      ensures launched == old(launched) + [InstalledBuild().value]
    {
      Fits();
      ghost var before := Now();
      launched := launched + [if InstalledBuild().Some? then InstalledBuild().value else 0];
      Log(Launch, before);
    }

    /** The world-open mark of a candidate, then the launch. */
    method OpenAndLaunch() returns (o: Outcome)
      requires Valid() && disk.active.Some? && !disk.record.state.Activating?
      modifies this
      ensures unwritten >= old(unwritten)
      ensures Valid() && clock >= old(clock) && FilesKept(old(disk), disk) && spared == old(spared)
      ensures litter <= old(litter)
      ensures if o.Done?
              then InstalledBuild().Some? && launched == old(launched) + [InstalledBuild().value]
              else launched == old(launched)
      ensures o.Done? ==> LaunchesFit(Now())
      ensures o.Done? ==> !disk.record.state.PendingReadiness? && !disk.record.state.Activating?
      ensures unwritten == old(unwritten) && !o.Crashed? ==> o.Done?
      ensures old(Reliable()) ==> o.Done?
      ensures !Selected(old(disk).record.state) ==> o.Done? && disk == old(disk)
    {
      var marked;
      o, marked := MarkWorldOpened();
      if o.Done? {
        LaunchActive();
        LaunchesFitNow();
      }
    }

    /** One container start: prepare a release, mark the world as opened, launch. */
    method StartContainer(env: Surroundings) returns (o: Outcome, ghost trail: Trail)
      requires Valid()
      modifies this
      ensures unwritten >= old(unwritten)
      ensures Valid() && clock >= old(clock)
      ensures if o.Done?
              then InstalledBuild().Some? && launched == old(launched) + [InstalledBuild().value]
              else launched == old(launched)
      ensures o.Done? ==> LaunchesFit(Now())
      ensures o.Done? ==> !disk.record.state.PendingReadiness? && !disk.record.state.Activating?
      ensures unwritten == old(unwritten) && !o.Crashed? && old(disk).active.Some? && env.activeAnswer.Accepts? ==>
                (o.Done? <==> !DeletionFails(old(clock), LeftCount(old(disk))) && !Strands(trail.switch))
      ensures old(Reliable()) && old(disk).active.Some? && env.activeAnswer.Accepts? ==> o.Done?
      ensures Settled(old(disk).record.state) && BlockHolds(old(disk).record, old(InstalledBuild()), env) ==>
                disk.active == old(disk).active && disk.releases == old(disk).releases && Settled(disk.record.state)
                && disk.record.blockedBuild == old(disk).record.blockedBuild
      ensures Untidy() <= old(Untidy()) + if o.Crashed? then 1 else 0
    {
      o, trail := PrepareStart(env);
      if o.Done? {
        o := OpenAndLaunch();
      }
    }

    lemma LaunchesFitNow()
      requires Valid()
      ensures LaunchesFit(Now())
    {
      RunKeepsInvariant(run, |run.acts|);
    }
  }

  /** What can happen while a rejected build stays blocked. */
  datatype Event = Start(env: Surroundings) | Ready(env: Surroundings)

  /** A rejected build is not fetched again: while Steam is not asked or still offers it, any
      number of container starts and readiness reports, whatever write fails or is cut off,
      leave the pointer, the directories and the block as they are. */
  method RejectedBuildStaysBlocked(updater: GameUpdater, rejected: nat, events: seq<Event>)
    requires updater.Valid() && Settled(updater.disk.record.state) && updater.disk.record.blockedBuild == Some(rejected)
    requires updater.InstalledBuild().Some? && updater.InstalledBuild().value < rejected
    requires forall i :: 0 <= i < |events| && events[i].Start? ==>
      var env := events[i].env; env.latest == Some(rejected) || (env.latest.None? && !env.AsksSteam())
    modifies updater
    ensures updater.Valid() && updater.disk.active == old(updater.disk).active
    ensures updater.disk.releases == old(updater.disk).releases
    ensures Settled(updater.disk.record.state) && updater.disk.record.blockedBuild == Some(rejected)
  {
    var n := 0;
    while n < |events|
      invariant updater.Valid() && updater.disk.active == old(updater.disk).active
      invariant updater.disk.releases == old(updater.disk).releases
      invariant Settled(updater.disk.record.state) && updater.disk.record.blockedBuild == Some(rejected)
    {
      var o;
      ghost var trail;
      match events[n] {
        case Start(env) => o, trail := updater.StartContainer(env);
        case Ready(env) => o := updater.MarkRuntimeReady(env);
      }
      n := n + 1;
    }
  }

  /** A block does not survive an unrelated failure: after one failed metadata query, the next
      automatic start fetches the rejected build again (and here selects it). */
  method MetadataFailureForgetsBlock(updater: GameUpdater, rejected: nat, offline: Surroundings, online: Surroundings)
    requires updater.Valid() && updater.Reliable() && Settled(updater.disk.record.state)
    requires updater.InstalledBuild().Some? && updater.InstalledBuild().value < rejected
    requires updater.disk.record.blockedBuild == Some(rejected) && PreviousResolves(updater.disk)
    requires offline.AsksSteam() && offline.latest.None?
    requires online.UpdatesAutomatically() && online.Cooperates() && online.latest == Some(rejected)
    modifies updater
    ensures updater.Valid() && updater.disk.record.state.PendingReadiness? && updater.InstalledBuild() == Some(rejected)
  {
    var o, trail := updater.PrepareStart(offline);
    o, trail := updater.PrepareStart(online);
    updater.Fits();
  }

  /** A start whose announcement fails after it landed and whose closing record fails before it
      is written ends normally, and the server is launched on a downloading record. */
  method LaunchesWhileDownloading(updater: GameUpdater, env: Surroundings)
    requires updater.Valid() && Settled(updater.disk.record.state) && env.AsksSteam()
    requires updater.LosesWithdrawal(env)
    modifies updater
    ensures updater.Valid() && updater.disk.record.state.DownloadingCandidate?
    ensures updater.InstalledBuild().Some?
    ensures updater.launched == old(updater.launched) + [updater.InstalledBuild().value]
  {
    var o, trail := updater.PrepareStart(env);
    o := updater.OpenAndLaunch();
  }

  /** A start adds no directory that nothing names, but for deletions whose failure it ignores and
      for one that it was about to name or to delete when it was cut off. */
  method StartAddsNoOrphans(updater: GameUpdater, env: Surroundings) returns (o: Outcome)
    requires updater.Valid()
    modifies updater
    ensures updater.Valid()
    ensures |Orphans(updater.disk)| <= |old(Orphans(updater.disk))| + (updater.spared - old(updater.spared))
                                       + if o.Crashed? then 1 else 0
  {
    updater.LitterIsOrphaned();
    ghost var trail;
    o, trail := updater.PrepareStart(env);
    updater.LitterIsOrphaned();
  }

  /** One process: its configuration and answers, and the fate of its writes. */
  datatype Process = Process(env: Surroundings, faults: nat -> Fault)

  /** However many starts failed or were cut off, and wherever: the next one whose writes succeed
      selects the build on offer if and only if there is no release yet or the previous pointer
      is absent or resolves, and it finishes an activation that was past its pointer. */
  method GoodStartAfterCrashes(disk: Disk, supply: Name, ghost run: Run, starts: seq<Process>, last: Process)
    returns (found: Disk, updater: GameUpdater, o: Outcome)
    requires run.Legal() && run.Last().disk == disk && run.Last().supply == supply && !WorldTouched(disk.record.state)
    requires last.env.UpdatesAutomatically() && last.env.Cooperates()
    requires forall n :: last.faults(n).Fine?
    ensures updater.Valid() && !WorldTouched(found.record.state) && (starts == [] ==> found == disk)
    ensures KeepsRelease(found) && Offers(last.env, found) ==>
              (o.Done? && updater.disk.record.state.PendingReadiness? <==> CanUpdate(found))
    ensures !KeepsRelease(found) ==>
              o.Done? && updater.disk.record.state.PendingReadiness? && updater.disk.active == found.active
  {
    found := disk;
    var names := supply;
    ghost var log := run;
    for i := 0 to |starts|
      invariant log.Legal() && log.Last().disk == found && log.Last().supply == names
      invariant !WorldTouched(found.record.state) && (i == 0 ==> found == disk)
    {
      updater := new GameUpdater.Open(found, names, starts[i].faults, log);
      ghost var trail;
      o, trail := updater.PrepareStart(starts[i].env);
      found, names, log := updater.disk, updater.supply, updater.run;
    }
    updater := new GameUpdater.Open(found, names, last.faults, log);
    updater.Fits();
    ghost var trail;
    o, trail := updater.PrepareStart(last.env);
  }
}
