/** The watchdog engine: two timers and a flag, proved to react to its whole history as
    WatchdogHistory demands. */
module Engine {
  import opened Basics
  import opened Outside
  import opened Rcon
  import opened Service
  import opened Shutdown
  import opened WatchdogHistory

  class WatchdogEngine {
    const env: Environment
    const players: RconSession
    const service: DockerComposeService
    const shutdown: ShutdownCoordinator
    const policy: Policy

    var emptySince: Option<real>
    var managementFailureSince: Option<real>
    var dryRunReported: bool

    // Every tick so far, and the ticks at which the two timers were started.
    ghost var ticks: seq<Tick>
    ghost var emptyFrom: nat
    ghost var outageFrom: nat

    constructor (env: Environment, players: RconSession, service: DockerComposeService, shutdown: ShutdownCoordinator,
                 policy: Policy)
      requires policy.Valid() && players.Valid() && shutdown.Valid()
      requires players.env == env && service.env == env && shutdown.env == env && shutdown.service == service
      ensures Valid() && ticks == []
      ensures this.env == env && this.players == players && this.service == service && this.shutdown == shutdown
      ensures this.policy == policy
    {
      this.env, this.players, this.service, this.shutdown, this.policy := env, players, service, shutdown, policy;
      emptySince, managementFailureSince, dryRunReported := None, None, false;
      ticks, emptyFrom, outageFrom := [], 0, 0;
    }

    predicate Wired() {
      && policy.Valid() && players.Valid() && shutdown.Valid()
      && players.env == env && service.env == env && shutdown.env == env && shutdown.service == service
    }

    ghost function Memory(): Timers
      reads this
    {
      Timers(emptySince, dryRunReported, managementFailureSince)
    }

    ghost predicate Valid()
      reads this
    {
      Wired() && Sound(policy, players, ticks, emptyFrom, outageFrom, Memory())
    }

    /** The idle and the outage timer never run together. */
    lemma TimersExcludeEachOther()
      requires Valid()
      ensures emptySince.None? || managementFailureSince.None?
    {
      assert ticks != [] ==> !StaysEmpty(ticks[|ticks| - 1]) || !StaysDown(ticks[|ticks| - 1]);
    }

    method AskPlayers() returns (observation: Observation, ghost answer: nat)
      requires Wired()
      modifies env
      ensures players.Answers(answer, observation)
      ensures env.log == old(env.log) + [Asked(observation)]
      ensures old(env.now) <= env.now <= old(env.now) + players.Longest()
    {
      observation := players.Query();
      answer := if env.clock > 0 then env.clock - 1 else 0;
    }

    method ResetEmpty()
      modifies this`emptySince, this`dryRunReported
      ensures emptySince.None? && !dryRunReported
    {
      emptySince, dryRunReported := None, false;
    }

    /** The loop of WatchdogEngine._final_shutdown_validation. */
    method FinalChecks() returns (passed: bool, ghost checks: seq<Check>)
      requires Wired()
      modifies env
      ensures env.log == old(env.log) + Asks(checks) && Undisturbed(Asks(checks))
      ensures old(env.now) <= env.now && ChecksSpaced(policy, old(env.now), checks)
      ensures if passed then ChecksPass(policy, checks) else ChecksFail(policy, checks)
      ensures ChecksSaySo(players, checks)
    {
      passed, checks := true, [];
      var check := 2;
      while check <= policy.finalChecks
        invariant 2 <= check <= policy.finalChecks + 1 && |checks| == check - 2
        invariant forall i :: 0 <= i < |checks| ==> Empty(checks[i].observation)
        invariant ChecksSpaced(policy, old(env.now), checks) && ChecksSaySo(players, checks)
        invariant env.log == old(env.log) + Asks(checks) && Undisturbed(Asks(checks))
        invariant old(env.now) <= env.now && SeenBefore(old(env.now), checks, |checks|) <= env.now
      {
        env.Sleep(policy.finalDelay);
        var observation;
        ghost var answer;
        observation, answer := AskPlayers();
        ghost var made := Check(observation, env.now, answer);
        OneMoreCheck(policy, old(env.now), checks, made);
        OneMoreAnswer(players, checks, made);
        OneMoreAsk(checks, made);
        checks := checks + [made];
        if observation.Unknown? || observation.count > 0 {
          passed := false;
          return;
        }
        check := check + 1;
      }
    }

    /** WatchdogEngine._final_shutdown_validation. */
    method FinalShutdownValidation() returns (ghost checks: seq<Check>, ghost reaction: Reaction)
      requires Wired()
      modifies env, service`verified, this`emptySince, this`dryRunReported
      ensures old(env.now) <= env.now && ChecksSpaced(policy, old(env.now), checks) && ChecksSaySo(players, checks)
      ensures Undisturbed(Asks(checks))
      ensures env.log == old(env.log) + Asks(checks) + if reaction.Nothing? then [] else reaction.did
      ensures if reaction.ShutDown? then ChecksPass(policy, checks) else reaction.Nothing? && ChecksFail(policy, checks)
      ensures reaction.ShutDown? ==> ShutdownIsGuarded(policy, reaction)
      ensures if reaction.ShutDown? && reaction.outcome.DryRun?
              then emptySince == old(emptySince) && dryRunReported
              else emptySince.None? && !dryRunReported
    {
      reaction := Nothing;
      var passed;
      passed, checks := FinalChecks();
      if !passed {
        ResetEmpty();
        return;
      }
      var outcome;
      ghost var did;
      outcome, did := shutdown.Execute(policy.dryRun, false);
      reaction := ShutDown(outcome, did);
      if outcome.DryRun? {
        dryRunReported := true;
        return;
      }
      ResetEmpty();
    }

    /** WatchdogEngine._handle_empty. */
    method HandleEmpty(now: real) returns (ghost checks: seq<Check>, ghost reaction: Reaction)
      requires Wired()
      modifies env, service`verified, this`emptySince, this`dryRunReported
      ensures old(env.now) <= env.now && ChecksSpaced(policy, old(env.now), checks) && ChecksSaySo(players, checks)
      ensures Undisturbed(Asks(checks))
      ensures env.log == old(env.log) + Asks(checks) + if reaction.Nothing? then [] else reaction.did
      ensures EmptyHandled(policy, old(Memory()), now, checks, reaction, Memory())
    {
      checks, reaction := [], Nothing;
      if emptySince.None? {
        emptySince, dryRunReported := Some(now), false;
        return;
      }
      var elapsed := if now - emptySince.value > 0.0 then now - emptySince.value else 0.0;
      if elapsed < policy.idle || dryRunReported {
        return;
      }
      checks, reaction := FinalShutdownValidation();
    }

    /** WatchdogEngine._handle_unknown. */
    method HandleUnknown(now: real) returns (ghost health: Health, ghost asked: seq<Effect>, ghost reaction: Reaction)
      requires Wired()
      modifies env, this`emptySince, this`dryRunReported, this`managementFailureSince
      ensures old(env.now) <= env.now && UnknownHandled(policy, old(Memory()), now, health, reaction, Memory())
      ensures env.log == old(env.log) + asked + (if reaction.Nothing? then [] else reaction.did) && Undisturbed(asked)
      ensures Shows(asked, health)
      ensures reaction.Restarted? ==> reaction.did != [] && reaction.did[0].RestartCommanded?
                                      && Undisturbed(reaction.did[1..])
    {
      ResetEmpty();
      reaction := Nothing;
      var seen;
      ghost var did;
      seen, asked := service.HealthCheck();
      health := seen;
      if !seen.Unhealthy? && !seen.Stopped? {
        managementFailureSince := None;
        return;
      }
      if managementFailureSince.None? {
        managementFailureSince := Some(now);
        return;
      }
      if now - managementFailureSince.value < policy.outage {
        return;
      }
      var recovered;
      recovered, did := service.Restart();
      reaction := Restarted(recovered, did);
      managementFailureSince := None;
      ResetEmpty();
    }

    lemma LogIsRegrouped(base: seq<Effect>, first: seq<Effect>, asked: seq<Effect>, did: seq<Effect>)
      ensures base + first + asked + did == base + (first + asked + did)
      ensures did == [] ==> first + asked + did == first + asked
    {
    }

    /** An unknown observation, with the tick it makes. */
    method ReactToUnknown(now: real, ghost began: real, ghost answer: nat, ghost base: seq<Effect>)
      returns (ghost t: Tick)
      requires Wired() && began <= env.now <= began + players.Longest()
      requires env.log == base + [Asked(Unknown)]
      modifies env, this`emptySince, this`dryRunReported, this`managementFailureSince
      ensures old(env.now) <= env.now && t.at == now && t.began == began
      ensures EngineStep(policy, players.Longest(), old(Memory()), t, Memory())
      ensures DoesAsTold(t) && SaysSo(players, t) && env.log == base + t.Did()
    {
      ghost var before, seen := Memory(), env.now;
      ghost var health, asked, reaction := HandleUnknown(now);
      t := WatchdogHistory.Tick(now, began, seen, answer, Unknown, Some(health), [], [Asked(Unknown)] + asked,
                                reaction);
      LogIsRegrouped(base, [Asked(Unknown)], asked, if reaction.Nothing? then [] else reaction.did);
      UnknownStep(policy, players.Longest(), before, t, Memory());
    }

    /** An empty observation, with the tick it makes. */
    method ReactToEmpty(now: real, ghost began: real, ghost answer: nat, ghost base: seq<Effect>)
      returns (ghost t: Tick)
      requires Wired() && began <= env.now <= began + players.Longest()
      requires env.log == base + [Asked(Known(0))] && players.Answers(answer, Known(0))
      modifies env, service`verified, this`emptySince, this`dryRunReported, this`managementFailureSince
      ensures old(env.now) <= env.now && t.at == now && t.began == began
      ensures EngineStep(policy, players.Longest(), old(Memory()), t, Memory())
      ensures DoesAsTold(t) && SaysSo(players, t) && env.log == base + t.Did()
    {
      ghost var before, seen := Memory(), env.now;
      managementFailureSince := None;
      ghost var checks, reaction := HandleEmpty(now);
      t := WatchdogHistory.Tick(now, began, seen, answer, Known(0), None, checks, [Asked(Known(0))] + Asks(checks),
                                reaction);
      LogIsRegrouped(base, [Asked(Known(0))], Asks(checks), if reaction.Nothing? then [] else reaction.did);
      EmptyStep(policy, players.Longest(), before, t, Memory());
    }

    /** One tick without the bookkeeping of the history. */
    method React(now: real) returns (ghost t: Tick)
      requires Wired()
      modifies env, service`verified, this`emptySince, this`dryRunReported, this`managementFailureSince
      ensures old(env.now) <= env.now && t.at == now && t.began == old(env.now)
      ensures EngineStep(policy, players.Longest(), old(Memory()), t, Memory())
      ensures DoesAsTold(t) && SaysSo(players, t) && env.log == old(env.log) + t.Did()
    {
      ghost var before, base, began := Memory(), env.log, env.now;
      var observation;
      ghost var answer;
      observation, answer := AskPlayers();
      if observation.Unknown? {
        t := ReactToUnknown(now, began, answer, base);
      } else if observation.count > 0 {
        t := WatchdogHistory.Tick(now, began, env.now, answer, observation, None, [], [Asked(observation)], Nothing);
        managementFailureSince := None;
        ResetEmpty();
        PlayersStep(policy, players.Longest(), before, t, Memory());
      } else {
        t := ReactToEmpty(now, began, answer, base);
      }
    }

    /** Enter a tick into the history. */
    ghost method Remember(t: WatchdogHistory.Tick, before: Timers)
      requires Wired() && Sound(policy, players, ticks, emptyFrom, outageFrom, before)
      requires EngineStep(policy, players.Longest(), before, t, Memory()) && DoesAsTold(t) && SaysSo(players, t)
      modifies this`ticks, this`emptyFrom, this`outageFrom
      ensures Valid() && ticks == old(ticks) + [t]
    {
      ghost var past, pastEmpty, pastOutage := ticks, emptyFrom, outageFrom;
      emptyFrom := if before.emptySince.None? then |ticks| else emptyFrom;
      outageFrom := if before.outageSince.None? then |ticks| else outageFrom;
      ticks := ticks + [t];
      StepKeepsSound(policy, players, past, pastEmpty, pastOutage, before, t, ticks, emptyFrom, outageFrom, Memory());
    }

    /** WatchdogEngine.tick. */
    method Tick(now: real) returns (ghost t: WatchdogHistory.Tick)
      requires Valid()
      modifies this, env, service`verified
      ensures Valid() && ticks == old(ticks) + [t]
      ensures old(env.now) <= env.now && t.at == now && t.began == old(env.now)
      ensures env.log == old(env.log) + t.Did()
    {
      ghost var before := Memory();
      t := React(now);
      Remember(t, before);
    }
  }

  /** One turn of the loop of run_watchdog. */
  method Poll(engine: WatchdogEngine, interval: real, ghost base: seq<Effect>)
    requires engine.Valid() && interval >= 0.0 && Polled(engine.ticks, engine.env.now)
    requires engine.env.log == base + AllDid(engine.ticks)
    modifies engine, engine.env, engine.service`verified
    ensures engine.Valid() && |engine.ticks| == |old(engine.ticks)| + 1 && old(engine.ticks) <= engine.ticks
    ensures Polled(engine.ticks, engine.env.now)
    ensures engine.env.log == base + AllDid(engine.ticks)
  {
    ghost var past := engine.ticks;
    ghost var t := engine.Tick(engine.env.now);
    engine.env.Sleep(interval);
    OneMoreTick(base, past, t);
    OneMorePoll(past, t, engine.env.now);
  }

  /** The loop of run_watchdog, for any number of polls of a fresh engine: a poweroff or a restart
      command in the log has been earned. */
  method RunWatchdog(engine: WatchdogEngine, polls: nat, interval: real)
    requires engine.Valid() && engine.ticks == [] && interval >= 0.0
    modifies engine, engine.env, engine.service`verified
    ensures engine.Valid() && |engine.ticks| == polls && Polled(engine.ticks, engine.env.now)
    ensures engine.env.log == old(engine.env.log) + AllDid(engine.ticks)
    ensures DisruptionsEarned(engine.policy, engine.players.Longest(), engine.ticks)
    ensures engine.players.ParsesListings() ==> SpansAnnounced(engine.policy, engine.players, engine.ticks)
  {
    var poll := 0;
    while poll < polls
      invariant engine.Valid() && 0 <= poll <= polls && |engine.ticks| == poll
      invariant Polled(engine.ticks, engine.env.now)
      invariant engine.env.log == old(engine.env.log) + AllDid(engine.ticks)
    {
      Poll(engine, interval, old(engine.env.log));
      poll := poll + 1;
    }
    AllDisruptionsAreEarned(engine.policy, engine.players.Longest(), engine.ticks);
    if engine.players.ParsesListings() {
      IdleSpansAreAnnounced(engine.policy, engine.players, engine.ticks);
    }
  }
}
