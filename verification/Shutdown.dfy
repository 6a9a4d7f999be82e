/** The guarded shutdown: an ordered chain of effects that any doubt breaks off. */
module Shutdown {
  import opened Basics
  import opened Outside
  import opened Rcon
  import opened Service

  datatype ShutdownOutcome = Completed | DryRun | Aborted

  predicate AllowsShutdown(e: Effect, allowPlayers: bool) {
    e.Asked? && e.observation.Known? && (allowPlayers || e.observation.count == 0)
  }

  /** The chain up to the poweroff command: eligible host, no players, confirmed save, no
      players, clean stop of one container, a second look at that very container, and the
      host still eligible. */
  predicate ReadyToPowerOff(did: seq<Effect>, allowPlayers: bool, id: string) {
    && |did| == 11
    && did[0] == EligibilityRead(true)
    && AllowsShutdown(did[1], allowPlayers)
    && did[2] == SaveRequested(true)
    && AllowsShutdown(did[3], allowPlayers)
    && CleanStop(did[4..8], id)
    && ConfirmedStop(did[8..10], id)
    && did[10] == EligibilityRead(true)
  }

  ghost predicate GuardedPowerOff(did: seq<Effect>, allowPlayers: bool) {
    |did| == 12 && did[11] == PowerOffCommanded(true) && exists id :: ReadyToPowerOff(did[..11], allowPlayers, id)
  }

  /** Every poweroff command stands right behind a complete chain, and nothing is restarted. */
  ghost predicate PowerOffOnlyWhenReady(did: seq<Effect>, allowPlayers: bool) {
    forall i :: 0 <= i < |did| && Disrupts(did[i]) ==>
      did[i].PowerOffCommanded? && i == 11 && exists id :: ReadyToPowerOff(did[..11], allowPlayers, id)
  }

  /** A start is commanded right after the poweroff that was refused or could not be scheduled. */
  predicate RecoveryStarts(did: seq<Effect>) {
    if did != [] && did[0] == EligibilityRead(true)
    then |did| > 2 && did[1] == PowerOffCommanded(false) && did[2].StartCommanded?
    else |did| > 1 && did[0] == EligibilityRead(false) && did[1].StartCommanded?
  }

  /** A container was stopped cleanly and was then confirmed to be stopped. */
  ghost predicate ShowsStop(did: seq<Effect>) {
    |did| == 6 && exists id :: CleanStop(did[..4], id) && ConfirmedStop(did[4..], id)
  }

  class ShutdownCoordinator {
    const env: Environment
    const players: RconSession
    const admin: RconSession
    const service: DockerComposeService
    const stopTimeout: real
    const settle: real

    constructor (env: Environment, players: RconSession, admin: RconSession, service: DockerComposeService,
                 stopTimeout: real, settle: real)
      ensures this.env == env && this.players == players && this.admin == admin && this.service == service
      ensures this.stopTimeout == stopTimeout && this.settle == settle
    {
      this.env, this.players, this.admin, this.service := env, players, admin, service;
      this.stopTimeout, this.settle := stopTimeout, settle;
    }

    predicate Valid() {
      && players.env == env && admin.env == env && service.env == env
      && players.Valid() && admin.Valid() && stopTimeout >= 0.0 && settle >= 0.0
    }

    /** SystemdPowerController.eligible. */
    method ReadEligibility() returns (eligible: bool)
      modifies env
      ensures env.log == old(env.log) + [EligibilityRead(eligible)] && old(env.now) <= env.now
    {
      var a := env.Ask(0.0);
      eligible := a.yes;
      env.Log(EligibilityRead(eligible));
    }

    /** SystemdPowerController.shutdown: eligibility is read once more. */
    method PowerOffHost() returns (scheduled: bool, ghost did: seq<Effect>)
      modifies env
      ensures env.log == old(env.log) + did && old(env.now) <= env.now
      ensures did == [EligibilityRead(false)] || did == [EligibilityRead(true), PowerOffCommanded(scheduled)]
      ensures scheduled ==> |did| == 2
    {
      scheduled := false;
      var eligible := ReadEligibility();
      did := [EligibilityRead(eligible)];
      if eligible {
        var a := env.Ask(30.0);
        scheduled := a.yes;
        env.Log(PowerOffCommanded(scheduled));
        did := did + [PowerOffCommanded(scheduled)];
      }
    }

    /** ShutdownCoordinator._players_allow_shutdown. */
    method PlayersAllowShutdown(allowPlayers: bool) returns (allowed: bool, ghost observation: Observation)
      requires Valid()
      modifies env
      ensures env.log == old(env.log) + [Asked(observation)] && old(env.now) <= env.now
      ensures allowed <==> AllowsShutdown(Asked(observation), allowPlayers)
    {
      var seen := players.Query();
      observation := seen;
      allowed := seen.Known? && (seen.count == 0 || allowPlayers);
    }

    method RequestSave() returns (confirmed: bool)
      requires Valid()
      modifies env
      ensures env.log == old(env.log) + [SaveRequested(confirmed)] && old(env.now) <= env.now
    {
      confirmed := admin.Save();
    }

    /** Everything before the service is stopped. */
    method SaveWithoutPlayers(allowPlayers: bool) returns (saved: bool, ghost did: seq<Effect>)
      requires Valid()
      modifies env
      ensures env.log == old(env.log) + did && Undisturbed(did) && old(env.now) <= env.now
      ensures |did| <= 4
      ensures saved <==> |did| == 4 && did[0] == EligibilityRead(true) && AllowsShutdown(did[1], allowPlayers)
                         && did[2] == SaveRequested(true) && AllowsShutdown(did[3], allowPlayers)
    {
      saved := false;
      var eligible := ReadEligibility();
      did := [EligibilityRead(eligible)];
      if !eligible {
        return;
      }
      ghost var observation;
      saved, observation := PlayersAllowShutdown(allowPlayers);
      did := did + [Asked(observation)];
      if !saved {
        return;
      }
      saved := RequestSave();
      did := did + [SaveRequested(saved)];
      if !saved {
        return;
      }
      env.Sleep(settle);
      saved, observation := PlayersAllowShutdown(allowPlayers);
      did := did + [Asked(observation)];
    }

    /** The stop and its independent confirmation. */
    method StopVerified() returns (stopped: bool, ghost did: seq<Effect>, ghost id: string)
      requires Valid()
      modifies env, service`verified
      ensures env.log == old(env.log) + did && Undisturbed(did) && old(env.now) <= env.now
      ensures stopped ==> |did| == 6 && CleanStop(did[..4], id) && ConfirmedStop(did[4..], id)
      ensures |did| <= 6 && (!stopped ==> !ShowsStop(did))
    {
      id := "";
      stopped, did := service.GracefulStop(stopTimeout);
      if stopped {
        id := service.verified.value;
        ghost var more;
        stopped, more := service.IsStopped();
        did := did + more;
      }
    }

    /** The last step, and the recovery start when the poweroff could not be scheduled. */
    method PowerOffOrRecover() returns (scheduled: bool, ghost did: seq<Effect>)
      requires Valid()
      modifies env
      ensures env.log == old(env.log) + did && old(env.now) <= env.now
      ensures scheduled <==> did == [EligibilityRead(true), PowerOffCommanded(true)]
      ensures forall i :: 0 <= i < |did| && Disrupts(did[i]) ==>
                did[i].PowerOffCommanded? && i == 1 && did[0] == EligibilityRead(true)
      ensures did != [] && (!scheduled ==> RecoveryStarts(did))
    {
      scheduled, did := PowerOffHost();
      if !scheduled {
        var started;
        ghost var more;
        started, more := service.Start();
        assert (did + more)[|did|] == more[0] && (did + more)[0] == did[0];
        did := did + more;
      }
    }

    lemma ChainIsReady(save: seq<Effect>, stop: seq<Effect>, allowPlayers: bool, id: string)
      requires |save| == 4 && save[0] == EligibilityRead(true) && AllowsShutdown(save[1], allowPlayers)
      requires save[2] == SaveRequested(true) && AllowsShutdown(save[3], allowPlayers)
      requires |stop| == 6 && CleanStop(stop[..4], id) && ConfirmedStop(stop[4..], id)
      ensures ReadyToPowerOff(save + stop + [EligibilityRead(true)], allowPlayers, id)
    {
      var did := save + stop + [EligibilityRead(true)];
      assert did[4..8] == stop[..4] && did[8..10] == stop[4..];
    }

    /** How a poweroff attempt ends a chain that is ready for it, */
    lemma ChainEnds(before: seq<Effect>, last: seq<Effect>, scheduled: bool, allowPlayers: bool, id: string)
      requires |before| == 10 && Undisturbed(before)
      requires ReadyToPowerOff(before + [EligibilityRead(true)], allowPlayers, id)
      requires scheduled <==> last == [EligibilityRead(true), PowerOffCommanded(true)]
      requires forall i :: 0 <= i < |last| && Disrupts(last[i]) ==>
        last[i].PowerOffCommanded? && i == 1 && last[0] == EligibilityRead(true)
      requires last != []
      ensures scheduled <==> GuardedPowerOff(before + last, allowPlayers)
      ensures PowerOffOnlyWhenReady(before + last, allowPlayers)
    {
      var did := before + last;
      assert last[0] == EligibilityRead(true) ==> did[..11] == before + [EligibilityRead(true)];
    }

    /** and that nothing is powered off without one. */
    lemma QuietEnds(did: seq<Effect>, allowPlayers: bool)
      requires Undisturbed(did)
      ensures !GuardedPowerOff(did, allowPlayers) && PowerOffOnlyWhenReady(did, allowPlayers)
    {
      assert |did| == 12 ==> !Disrupts(did[11]);
    }

    lemma Regroup(a: seq<Effect>, b: seq<Effect>, c: seq<Effect>)
      ensures a + b + c == a + (b + c) && (b + c)[..|b|] == b && (b + c)[|b|..] == c
    {
    }

    /** The verified stop and the poweroff, after everything that precedes them. */
    method StopAndPowerOff(allowPlayers: bool, ghost save: seq<Effect>)
      returns (completed: bool, ghost did: seq<Effect>)
      requires Valid() && |save| == 4 && Undisturbed(save)
      requires save[0] == EligibilityRead(true) && AllowsShutdown(save[1], allowPlayers)
      requires save[2] == SaveRequested(true) && AllowsShutdown(save[3], allowPlayers)
      modifies env, service`verified
      ensures env.log == old(env.log) + did && old(env.now) <= env.now
      ensures completed <==> GuardedPowerOff(save + did, allowPlayers)
      ensures PowerOffOnlyWhenReady(save + did, allowPlayers)
      ensures |did| >= 6 && ShowsStop(did[..6]) && !completed ==> RecoveryStarts(did[6..])
    {
      completed := false;
      ghost var last, id;
      var stopped;
      stopped, did, id := StopVerified();
      if stopped {
        ChainIsReady(save, did, allowPlayers, id);
        completed, last := PowerOffOrRecover();
        ChainEnds(save + did, last, completed, allowPlayers, id);
        Regroup(save, did, last);
        Regroup(old(env.log), did, last);
        did := did + last;
      } else {
        QuietEnds(save + did, allowPlayers);
        assert |did| == 6 ==> did[..6] == did;
      }
    }

    /** ShutdownCoordinator.execute. */
    method Execute(dryRun: bool, allowPlayers: bool) returns (outcome: ShutdownOutcome, ghost did: seq<Effect>)
      requires Valid()
      modifies env, service`verified
      ensures env.log == old(env.log) + did && old(env.now) <= env.now
      ensures outcome.DryRun? <==> dryRun
      ensures dryRun ==> did == []
      ensures !dryRun ==> (outcome.Completed? <==> GuardedPowerOff(did, allowPlayers))
      ensures PowerOffOnlyWhenReady(did, allowPlayers)
      // What got past the verified stop either powers off or starts the service again.
      ensures |did| >= 10 && ShowsStop(did[4..10]) && !outcome.Completed? ==> RecoveryStarts(did[10..])
    {
      did := [];
      if dryRun {
        outcome := DryRun;
        return;
      }
      outcome := Aborted;
      var saved;
      saved, did := SaveWithoutPlayers(allowPlayers);
      if saved {
        ghost var save := did;
        var completed;
        completed, did := StopAndPowerOff(allowPlayers, save);
        assert |did| >= 6 ==> (save + did)[4..10] == did[..6] && (save + did)[10..] == did[6..];
        did := save + did;
        if completed {
          outcome := Completed;
        }
      }
    }
  }
}
