/** What the watchdog may conclude from its whole history of ticks, stated over that history
    and not over the two timers the engine keeps. */
module WatchdogHistory {
  import opened Basics
  import opened Outside
  import opened Rcon
  import opened Service
  import opened Shutdown

  datatype Policy = Policy(idle: real, outage: real, finalChecks: nat, finalDelay: real, dryRun: bool) {
    predicate Valid() {
      idle > 0.0 && outage > 0.0 && finalChecks >= 2 && finalDelay > 0.0
    }
  }

  /** One final check: what was seen, when the answer was in, and which one decided. */
  datatype Check = Check(observation: Observation, seen: real, answer: nat)

  /** What the tick did about it, with everything the watchdog did from there on. */
  datatype Reaction =
    | Nothing
    | Restarted(recovered: bool, did: seq<Effect>)
    | ShutDown(outcome: ShutdownOutcome, did: seq<Effect>)

  /** One call of `tick(at)`. `began` and `seen` are clock readings around the player query,
      `answer` is the answer that decided it, and `asked` everything done before the reaction. */
  datatype Tick = Tick(
    at: real,
    began: real,
    seen: real,
    answer: nat,
    observation: Observation,
    health: Option<Health>,
    checks: seq<Check>,
    asked: seq<Effect>,
    reaction: Reaction)
  {
    function Did(): seq<Effect> {
      if reaction.Nothing? then asked else asked + reaction.did
    }
  }

  /** What a tick saw of the players was said by the answers it names. */
  predicate SaysSo(players: RconSession, t: Tick) {
    && players.Answers(t.answer, t.observation)
    && ChecksSaySo(players, t.checks)
  }

  predicate ChecksSaySo(players: RconSession, checks: seq<Check>) {
    forall i :: 0 <= i < |checks| ==> players.Answers(checks[i].answer, checks[i].observation)
  }

  predicate Truthful(players: RconSession, ticks: seq<Tick>) {
    forall k :: 0 <= k < |ticks| ==> SaysSo(players, ticks[k])
  }

  lemma OneMoreTruth(players: RconSession, ticks: seq<Tick>, t: Tick)
    requires Truthful(players, ticks) && SaysSo(players, t)
    ensures Truthful(players, ticks + [t])
  {
  }

  lemma OneMoreAnswer(players: RconSession, checks: seq<Check>, c: Check)
    requires ChecksSaySo(players, checks) && players.Answers(c.answer, c.observation)
    ensures ChecksSaySo(players, checks + [c])
  {
  }

  predicate Empty(o: Observation) {
    o == Known(0)
  }

  /** The tick ended the empty interval it belongs to: its final checks failed, or a shutdown
      was attempted for real. */
  predicate EndsInterval(t: Tick) {
    t.checks != [] && !(t.reaction.ShutDown? && t.reaction.outcome.DryRun?)
  }

  predicate StaysEmpty(t: Tick) {
    Empty(t.observation) && !EndsInterval(t)
  }

  predicate SeenDown(t: Tick) {
    t.observation.Unknown? && (t.health == Some(Unhealthy) || t.health == Some(Stopped))
  }

  predicate StaysDown(t: Tick) {
    SeenDown(t) && !t.reaction.Restarted?
  }

  /** From tick `j` on nobody was seen and nothing was undecided, and not from any earlier tick. */
  predicate OpenInterval(past: seq<Tick>, j: nat) {
    && j < |past| && (forall i :: j <= i < |past| ==> StaysEmpty(past[i]))
    && (j > 0 ==> !StaysEmpty(past[j - 1]))
  }

  predicate OpenOutage(past: seq<Tick>, j: nat) {
    && j < |past| && (forall i :: j <= i < |past| ==> StaysDown(past[i]))
    && (j > 0 ==> !StaysDown(past[j - 1]))
  }

  predicate Reported(past: seq<Tick>, j: nat) {
    exists i :: j <= i < |past| && past[i].reaction.ShutDown?
  }

  /** The empty interval that is open has lasted long enough and was not reported yet. */
  ghost predicate ShutdownDue(p: Policy, past: seq<Tick>, at: real) {
    exists j: nat :: OpenInterval(past, j) && at - past[j].at >= p.idle && !Reported(past, j)
  }

  ghost predicate RestartDue(p: Policy, past: seq<Tick>, at: real) {
    exists j: nat :: OpenOutage(past, j) && at - past[j].at >= p.outage
  }

  /** All final checks were made and saw nobody. */
  predicate ChecksPass(p: Policy, checks: seq<Check>) {
    |checks| == p.finalChecks - 1 && forall i :: 0 <= i < |checks| ==> Empty(checks[i].observation)
  }

  /** Final checks stop at the first that is not empty. */
  predicate ChecksFail(p: Policy, checks: seq<Check>) {
    && 0 < |checks| < p.finalChecks && !Empty(checks[|checks| - 1].observation)
    && forall i :: 0 <= i < |checks| - 1 ==> Empty(checks[i].observation)
  }

  /** When the answer before the n-th final check was in. */
  function SeenBefore(from: real, checks: seq<Check>, n: nat): real
    requires n <= |checks|
  {
    if n == 0 then from else checks[n - 1].seen
  }

  /** Each final check waits out its delay. */
  predicate ChecksSpaced(p: Policy, from: real, checks: seq<Check>) {
    forall i :: 0 <= i < |checks| ==> checks[i].seen >= SeenBefore(from, checks, i) + p.finalDelay
  }

  lemma OneMoreCheck(p: Policy, from: real, checks: seq<Check>, c: Check)
    requires ChecksSpaced(p, from, checks) && c.seen >= SeenBefore(from, checks, |checks|) + p.finalDelay
    ensures ChecksSpaced(p, from, checks + [c])
  {
    var longer := checks + [c];
    forall i | 0 <= i < |longer| ensures longer[i].seen >= SeenBefore(from, longer, i) + p.finalDelay {
      assert SeenBefore(from, longer, i) == SeenBefore(from, checks, i);
    }
  }

  /** What one shutdown call did is right: a dry run when and only when the policy says so, and
      otherwise no poweroff but at the end of the complete chain. */
  ghost predicate ShutdownIsGuarded(p: Policy, reaction: Reaction)
    requires reaction.ShutDown?
  {
    && (reaction.outcome.DryRun? <==> p.dryRun)
    && (p.dryRun ==> reaction.did == [])
    && (!p.dryRun ==> (reaction.outcome.Completed? <==> GuardedPowerOff(reaction.did, false)))
    && PowerOffOnlyWhenReady(reaction.did, false)
  }

  /** The effects of a tick are those of its observation, its checks and its reaction. */
  predicate DoesAsTold(t: Tick) {
    && t.asked != [] && t.asked[0] == Asked(t.observation)
    && (t.observation.Known? ==> t.asked[1..] == Asks(t.checks))
    && (t.health.Some? ==> Shows(t.asked[1..], t.health.value))
    && Undisturbed(t.asked)
    && (t.reaction.Restarted? ==> t.reaction.did != [] && t.reaction.did[0].RestartCommanded?
                                   && Undisturbed(t.reaction.did[1..]))
  }

  function Asks(checks: seq<Check>): seq<Effect> {
    if checks == [] then [] else Asks(checks[..|checks| - 1]) + [Asked(checks[|checks| - 1].observation)]
  }

  lemma OneMoreAsk(checks: seq<Check>, c: Check)
    requires Undisturbed(Asks(checks))
    ensures Asks(checks + [c]) == Asks(checks) + [Asked(c.observation)] && Undisturbed(Asks(checks + [c]))
  {
    assert (checks + [c])[..|checks|] == checks;
  }

  /** A tick is justified by the history before it, in both directions. */
  ghost predicate Justified(p: Policy, longestQuery: real, past: seq<Tick>, t: Tick) {
    && t.began <= t.seen <= t.began + longestQuery
    && ChecksSpaced(p, t.seen, t.checks)
    && (t.health.Some? <==> t.observation.Unknown?)
    && (t.checks != [] <==> Empty(t.observation) && ShutdownDue(p, past, t.at))
    && (t.reaction.ShutDown? <==> t.checks != [] && ChecksPass(p, t.checks))
    && (t.checks != [] && !t.reaction.ShutDown? ==> ChecksFail(p, t.checks))
    && (t.reaction.ShutDown? ==> ShutdownIsGuarded(p, t.reaction))
    && (t.reaction.Restarted? <==> SeenDown(t) && RestartDue(p, past, t.at))
  }

  /** Every tick did what its record says. */
  predicate Faithful(ticks: seq<Tick>) {
    forall k :: 0 <= k < |ticks| ==> DoesAsTold(ticks[k])
  }

  ghost predicate Proper(p: Policy, longestQuery: real, ticks: seq<Tick>) {
    forall k {:trigger ticks[k]} :: 0 <= k < |ticks| ==> Justified(p, longestQuery, ticks[..k], ticks[k])
  }

  lemma OpenIntervalIsUnique(past: seq<Tick>, i: nat, j: nat)
    requires OpenInterval(past, i) && OpenInterval(past, j)
    ensures i == j
  {
  }

  lemma OpenOutageIsUnique(past: seq<Tick>, i: nat, j: nat)
    requires OpenOutage(past, i) && OpenOutage(past, j)
    ensures i == j
  {
  }

  // ---------------------------------------------------------------- timers

  /** What the engine remembers between ticks. */
  datatype Timers = Timers(emptySince: Option<real>, reported: bool, outageSince: Option<real>)

  /** An idle timer and its report flag agree with the history: the timer holds the tick time at
      which the open empty interval began, and runs exactly while one is open. */
  ghost predicate EmptyTimerFits(ticks: seq<Tick>, from: nat, m: Timers) {
    match m.emptySince
    case Some(start) => OpenInterval(ticks, from) && start == ticks[from].at && (m.reported <==> Reported(ticks, from))
    case None => (ticks != [] ==> !StaysEmpty(ticks[|ticks| - 1])) && !m.reported
  }

  ghost predicate OutageTimerFits(ticks: seq<Tick>, from: nat, m: Timers) {
    match m.outageSince
    case Some(start) => OpenOutage(ticks, from) && start == ticks[from].at
    case None => ticks != [] ==> !StaysDown(ticks[|ticks| - 1])
  }

  /** One tick as the engine takes it, in terms of the timers before and after alone. */
  ghost predicate EngineStep(p: Policy, longestQuery: real, m: Timers, t: Tick, m': Timers) {
    && t.began <= t.seen <= t.began + longestQuery
    && ChecksSpaced(p, t.seen, t.checks)
    && (t.health.Some? <==> t.observation.Unknown?)
    && (t.checks != [] <==>
          Empty(t.observation) && m.emptySince.Some? && t.at - m.emptySince.value >= p.idle && !m.reported)
    && (t.reaction.ShutDown? <==> t.checks != [] && ChecksPass(p, t.checks))
    && (t.checks != [] && !t.reaction.ShutDown? ==> ChecksFail(p, t.checks))
    && (t.reaction.ShutDown? ==> ShutdownIsGuarded(p, t.reaction))
    && (t.reaction.Restarted? <==> SeenDown(t) && m.outageSince.Some? && t.at - m.outageSince.value >= p.outage)
    && (if !StaysEmpty(t) then m'.emptySince.None? && !m'.reported
        else if m.emptySince.None? then m'.emptySince == Some(t.at) && !m'.reported
        else m'.emptySince == m.emptySince && m'.reported == (m.reported || t.reaction.ShutDown?))
    && m'.outageSince == (if !StaysDown(t) then None else if m.outageSince.None? then Some(t.at) else m.outageSince)
  }

  /** How an empty observation is handled, in terms of the timers before and after. */
  ghost predicate EmptyHandled(p: Policy, m: Timers, at: real, checks: seq<Check>, reaction: Reaction, m': Timers) {
    && (checks != [] <==> m.emptySince.Some? && at - m.emptySince.value >= p.idle && !m.reported)
    && (if reaction.ShutDown? then checks != [] && ChecksPass(p, checks) && ShutdownIsGuarded(p, reaction)
        else reaction.Nothing? && (checks != [] ==> ChecksFail(p, checks)))
    && (if m.emptySince.None? then m'.emptySince == Some(at) && !m'.reported
        else if checks == [] then m'.emptySince == m.emptySince && m'.reported == m.reported
        else if reaction.ShutDown? && reaction.outcome.DryRun? then m'.emptySince == m.emptySince && m'.reported
        else m'.emptySince.None? && !m'.reported)
    && m'.outageSince == m.outageSince
  }

  /** How an unknown observation is handled. */
  ghost predicate UnknownHandled(p: Policy, m: Timers, at: real, health: Health, reaction: Reaction, m': Timers) {
    var down := health.Unhealthy? || health.Stopped?;
    && (reaction.Restarted? <==> down && m.outageSince.Some? && at - m.outageSince.value >= p.outage)
    && (reaction.Restarted? || reaction.Nothing?)
    && m'.outageSince == (if !down || reaction.Restarted? then None
                          else if m.outageSince.None? then Some(at)
                          else m.outageSince)
    && m'.emptySince.None? && !m'.reported
  }

  lemma UnknownStep(p: Policy, longestQuery: real, m: Timers, t: Tick, m': Timers)
    requires t.began <= t.seen <= t.began + longestQuery
    requires t.observation.Unknown? && t.checks == [] && t.health.Some?
    requires UnknownHandled(p, m, t.at, t.health.value, t.reaction, m')
    ensures EngineStep(p, longestQuery, m, t, m')
  {
  }

  lemma EmptyStep(p: Policy, longestQuery: real, m: Timers, t: Tick, m': Timers)
    requires t.began <= t.seen <= t.began + longestQuery && ChecksSpaced(p, t.seen, t.checks)
    requires Empty(t.observation) && t.health.None?
    requires EmptyHandled(p, m.(outageSince := None), t.at, t.checks, t.reaction, m')
    requires t.asked == [Asked(t.observation)] + Asks(t.checks) && Undisturbed(Asks(t.checks))
    ensures EngineStep(p, longestQuery, m, t, m') && DoesAsTold(t)
  {
    assert t.asked[1..] == Asks(t.checks);
  }

  lemma PlayersStep(p: Policy, longestQuery: real, m: Timers, t: Tick, m': Timers)
    requires t.began <= t.seen <= t.began + longestQuery && t.checks == []
    requires t.observation.Known? && t.observation.count > 0 && t.health.None?
    requires m' == Timers(None, false, None) && t.reaction.Nothing? && t.asked == [Asked(t.observation)]
    ensures EngineStep(p, longestQuery, m, t, m') && DoesAsTold(t)
  {
    assert t.asked[1..] == Asks(t.checks);
  }

  /** A fitting idle timer decides whether a shutdown is due. */
  lemma IdleTimerDecides(p: Policy, ticks: seq<Tick>, from: nat, m: Timers, at: real)
    requires EmptyTimerFits(ticks, from, m)
    ensures ShutdownDue(p, ticks, at) <==>
              m.emptySince.Some? && at - m.emptySince.value >= p.idle && !m.reported
  {
    forall j: nat | OpenInterval(ticks, j) ensures m.emptySince.Some? && j == from {
      assert StaysEmpty(ticks[|ticks| - 1]);
      if m.emptySince.Some? {
        OpenIntervalIsUnique(ticks, j, from);
      }
    }
  }

  lemma OutageTimerDecides(p: Policy, ticks: seq<Tick>, from: nat, m: Timers, at: real)
    requires OutageTimerFits(ticks, from, m)
    ensures RestartDue(p, ticks, at) <==> m.outageSince.Some? && at - m.outageSince.value >= p.outage
  {
    forall j: nat | OpenOutage(ticks, j) ensures m.outageSince.Some? && j == from {
      assert StaysDown(ticks[|ticks| - 1]);
      if m.outageSince.Some? {
        OpenOutageIsUnique(ticks, j, from);
      }
    }
  }

  /** The timers started, kept or cleared by one step still fit. */
  lemma EmptyTimerAdvances(p: Policy, longestQuery: real, ticks: seq<Tick>, from: nat, m: Timers, t: Tick, m': Timers)
    requires EmptyTimerFits(ticks, from, m) && EngineStep(p, longestQuery, m, t, m')
    ensures EmptyTimerFits(ticks + [t], if m.emptySince.None? then |ticks| else from, m')
  {
    var longer := ticks + [t];
    if StaysEmpty(t) && m.emptySince.Some? {
      assert longer[|ticks|] == t;
      if Reported(ticks, from) {
        var i :| from <= i < |ticks| && ticks[i].reaction.ShutDown?;
        assert longer[i].reaction.ShutDown?;
      }
      if Reported(longer, from) && !t.reaction.ShutDown? {
        var i :| from <= i < |longer| && longer[i].reaction.ShutDown?;
        assert ticks[i].reaction.ShutDown?;
      }
    }
  }

  lemma OutageTimerAdvances(p: Policy, longestQuery: real, ticks: seq<Tick>, from: nat, m: Timers, t: Tick, m': Timers)
    requires OutageTimerFits(ticks, from, m) && EngineStep(p, longestQuery, m, t, m')
    ensures OutageTimerFits(ticks + [t], if m.outageSince.None? then |ticks| else from, m')
  {
  }

  /** The two timers and the flag decide as the whole history would: a step taken with fitting
      timers is justified, and so is the history it completes. */
  lemma StepIsJustified(p: Policy, longestQuery: real, ticks: seq<Tick>, emptyFrom: nat, outageFrom: nat,
                        m: Timers, t: Tick, m': Timers)
    requires Proper(p, longestQuery, ticks) && EngineStep(p, longestQuery, m, t, m')
    requires EmptyTimerFits(ticks, emptyFrom, m) && OutageTimerFits(ticks, outageFrom, m)
    ensures Proper(p, longestQuery, ticks + [t])
  {
    IdleTimerDecides(p, ticks, emptyFrom, m, t.at);
    OutageTimerDecides(p, ticks, outageFrom, m, t.at);
    assert Justified(p, longestQuery, ticks, t);
    var longer := ticks + [t];
    forall k | 0 <= k < |longer| ensures Justified(p, longestQuery, longer[..k], longer[k]) {
      if k < |ticks| {
        assert longer[..k] == ticks[..k];
      } else {
        assert longer[..k] == ticks;
      }
    }
  }

  /** Everything the engine keeps true, for the engine to state in one word. */
  ghost predicate Settled(p: Policy, longestQuery: real, ticks: seq<Tick>, emptyFrom: nat, outageFrom: nat, m: Timers) {
    && Proper(p, longestQuery, ticks) && Faithful(ticks)
    && EmptyTimerFits(ticks, emptyFrom, m) && OutageTimerFits(ticks, outageFrom, m)
  }

  lemma StepKeepsSettled(p: Policy, longestQuery: real, ticks: seq<Tick>, emptyFrom: nat, outageFrom: nat,
                         m: Timers, t: Tick, m': Timers)
    requires Settled(p, longestQuery, ticks, emptyFrom, outageFrom, m)
    requires EngineStep(p, longestQuery, m, t, m') && DoesAsTold(t)
    ensures Settled(p, longestQuery, ticks + [t], if m.emptySince.None? then |ticks| else emptyFrom,
                    if m.outageSince.None? then |ticks| else outageFrom, m')
  {
    StepIsJustified(p, longestQuery, ticks, emptyFrom, outageFrom, m, t, m');
    EmptyTimerAdvances(p, longestQuery, ticks, emptyFrom, m, t, m');
    OutageTimerAdvances(p, longestQuery, ticks, outageFrom, m, t, m');
  }

  /** And what it saw of the players was said. */
  ghost predicate Sound(p: Policy, players: RconSession, ticks: seq<Tick>, emptyFrom: nat, outageFrom: nat, m: Timers) {
    Settled(p, players.Longest(), ticks, emptyFrom, outageFrom, m) && Truthful(players, ticks)
  }

  lemma StepKeepsSound(p: Policy, players: RconSession, ticks: seq<Tick>, emptyFrom: nat, outageFrom: nat,
                       m: Timers, t: Tick, longer: seq<Tick>, emptyFrom': nat, outageFrom': nat, m': Timers)
    requires Sound(p, players, ticks, emptyFrom, outageFrom, m)
    requires EngineStep(p, players.Longest(), m, t, m') && DoesAsTold(t) && SaysSo(players, t)
    requires longer == ticks + [t] && emptyFrom' == (if m.emptySince.None? then |ticks| else emptyFrom)
    requires outageFrom' == if m.outageSince.None? then |ticks| else outageFrom
    ensures Sound(p, players, longer, emptyFrom', outageFrom', m')
  {
    StepKeepsSettled(p, players.Longest(), ticks, emptyFrom, outageFrom, m, t, m');
    OneMoreTruth(players, ticks, t);
  }

  // ---------------------------------------------------------------- what follows

  /** Ticks are called as run_watchdog does: with the clock read just before. */
  predicate ReadsClock(ticks: seq<Tick>) {
    forall k :: 0 <= k < |ticks| ==> ticks[k].at == ticks[k].began
  }

  predicate Monotone(ticks: seq<Tick>) {
    forall i, j :: 0 <= i < j < |ticks| ==> ticks[i].at <= ticks[j].at
  }

  lemma {:induction false} ChecksTakeTime(p: Policy, from: real, checks: seq<Check>, n: nat)
    requires ChecksSpaced(p, from, checks) && n < |checks|
    ensures checks[n].seen >= from + Pauses(n + 1, p.finalDelay)
  {
    assert checks[n].seen >= SeenBefore(from, checks, n) + p.finalDelay;
    if n == 0 {
      assert Pauses(1, p.finalDelay) == Pauses(0, p.finalDelay) + p.finalDelay;
    } else {
      ChecksTakeTime(p, from, checks, n - 1);
    }
  }

  lemma ChecksTakeAll(p: Policy, from: real, checks: seq<Check>)
    requires p.Valid() && ChecksPass(p, checks) && ChecksSpaced(p, from, checks)
    ensures checks[p.finalChecks - 2].seen >= from + (p.finalChecks - 1) as real * p.finalDelay
  {
    ChecksTakeTime(p, from, checks, p.finalChecks - 2);
    PausesMultiply(p.finalChecks - 1, p.finalDelay);
  }

  /** The end-to-end idle bound. A shutdown call stands at the end of an unbroken row of
      confirmed empty ticks whose tick times span the idle timeout; counted from the moment the
      first of these answers was in to the last final check, nobody was seen for at least the
      idle timeout, less the longest query, plus the final checks' pauses. */
  lemma ShutdownFollowsIdleInterval(p: Policy, longestQuery: real, ticks: seq<Tick>, k: nat)
    requires p.Valid() && Proper(p, longestQuery, ticks) && ReadsClock(ticks)
    requires k < |ticks| && ticks[k].reaction.ShutDown?
    ensures IdleBehind(p, longestQuery, ticks, k)
  {
    var j := IntervalBehind(p, longestQuery, ticks, k);
    assert Justified(p, longestQuery, ticks[..j], ticks[j]);
    assert Justified(p, longestQuery, ticks[..k], ticks[k]);
    SpanIsLong(p, longestQuery, ticks, j, k);
  }

  ghost predicate IdleBehind(p: Policy, longestQuery: real, ticks: seq<Tick>, k: nat)
    requires p.Valid() && k < |ticks|
  {
    exists j :: 0 <= j < k && IdleSpan(p, longestQuery, ticks, j, k)
  }

  /** Nobody was seen from tick `j` to the last final check of tick `k`, and each time an answer
      announced zero players and listed none. */
  predicate AnnouncedEmpty(players: RconSession, ticks: seq<Tick>, j: nat, k: nat)
    requires k < |ticks|
  {
    && (forall i :: j <= i <= k ==> players.Announces(ticks[i].answer, 0))
    && (forall i :: 0 <= i < |ticks[k].checks| ==> players.Announces(ticks[k].checks[i].answer, 0))
  }

  lemma IdleSpanWasAnnounced(p: Policy, players: RconSession, ticks: seq<Tick>, j: nat, k: nat)
    requires p.Valid() && players.ParsesListings() && Truthful(players, ticks)
    requires j <= k < |ticks| && IdleSpan(p, players.Longest(), ticks, j, k)
    ensures AnnouncedEmpty(players, ticks, j, k)
  {
    forall i | j <= i <= k ensures players.Announces(ticks[i].answer, 0) {
      assert SaysSo(players, ticks[i]);
      players.CountWasAnswered(ticks[i].answer, 0);
    }
    forall i | 0 <= i < |ticks[k].checks| ensures players.Announces(ticks[k].checks[i].answer, 0) {
      assert SaysSo(players, ticks[k]);
      players.CountWasAnswered(ticks[k].checks[i].answer, 0);
    }
  }

  /** So it is with every idle interval of a history. */
  ghost predicate SpansAnnounced(p: Policy, players: RconSession, ticks: seq<Tick>)
    requires p.Valid()
  {
    forall j, k :: 0 <= j <= k < |ticks| && IdleSpan(p, players.Longest(), ticks, j, k) ==>
      AnnouncedEmpty(players, ticks, j, k)
  }

  lemma IdleSpansAreAnnounced(p: Policy, players: RconSession, ticks: seq<Tick>)
    requires p.Valid() && players.ParsesListings() && Truthful(players, ticks)
    ensures SpansAnnounced(p, players, ticks)
  {
    forall j, k | 0 <= j <= k < |ticks| && IdleSpan(p, players.Longest(), ticks, j, k)
      ensures AnnouncedEmpty(players, ticks, j, k)
    {
      IdleSpanWasAnnounced(p, players, ticks, j, k);
    }
  }

  lemma IntervalBehind(p: Policy, longestQuery: real, ticks: seq<Tick>, k: nat) returns (j: nat)
    requires k < |ticks| && Justified(p, longestQuery, ticks[..k], ticks[k]) && ticks[k].reaction.ShutDown?
    ensures j < k && ticks[k].at - ticks[j].at >= p.idle && !Reported(ticks[..k], j)
    ensures (j > 0 ==> !StaysEmpty(ticks[j - 1])) && forall i :: j <= i < k ==> StaysEmpty(ticks[i])
    ensures forall i :: j <= i <= k ==> Empty(ticks[i].observation)
  {
    var past := ticks[..k];
    j :| OpenInterval(past, j) && ticks[k].at - past[j].at >= p.idle && !Reported(past, j);
    forall i | j <= i < k ensures StaysEmpty(ticks[i]) {
      assert past[i] == ticks[i];
    }
    assert j > 0 ==> past[j - 1] == ticks[j - 1];
  }

  lemma SpanIsLong(p: Policy, longestQuery: real, ticks: seq<Tick>, j: nat, k: nat)
    requires p.Valid() && j <= k < |ticks| && forall i :: j <= i <= k ==> Empty(ticks[i].observation)
    requires ChecksPass(p, ticks[k].checks) && ChecksSpaced(p, ticks[k].seen, ticks[k].checks)
    requires ticks[k].at - ticks[j].at >= p.idle && ticks[k].at <= ticks[k].seen
    requires ticks[j].seen <= ticks[j].at + longestQuery
    ensures IdleSpan(p, longestQuery, ticks, j, k)
  {
    var paused := (p.finalChecks - 1) as real * p.finalDelay;
    ChecksTakeAll(p, ticks[k].seen, ticks[k].checks);
    TimesAdd(ticks[j].at, ticks[j].seen, ticks[k].at, ticks[k].seen, ticks[k].checks[p.finalChecks - 2].seen,
             p.idle, longestQuery, paused);
  }

  lemma TimesAdd(at0: real, seen0: real, at1: real, seen1: real, last: real, idle: real, longest: real, paused: real)
    requires at1 - at0 >= idle && at1 <= seen1 && seen0 <= at0 + longest && last >= seen1 + paused
    ensures last - seen0 >= idle - longest + paused
  {
  }

  predicate IdleSpan(p: Policy, longestQuery: real, ticks: seq<Tick>, j: nat, k: nat)
    requires p.Valid() && j <= k < |ticks|
  {
    && (forall i :: j <= i <= k ==> Empty(ticks[i].observation))
    && ChecksPass(p, ticks[k].checks)
    && ticks[k].at - ticks[j].at >= p.idle
    && ticks[k].checks[p.finalChecks - 2].seen - ticks[j].seen
         >= p.idle - longestQuery + (p.finalChecks - 1) as real * p.finalDelay
  }

  /** Two shutdown calls, dry or real, in one history: behind the second lies a full idle interval
      of its own, begun after the first and after a break, in which nothing was reported. So an
      empty interval is reported at most once. */
  lemma ShutdownsNeedFreshIntervals(p: Policy, longestQuery: real, ticks: seq<Tick>, i: nat, k: nat)
    requires p.Valid() && Proper(p, longestQuery, ticks) && i < k < |ticks|
    requires ticks[i].reaction.ShutDown? && ticks[k].reaction.ShutDown?
    ensures exists j :: i < j < k && FreshInterval(p, ticks, j, k)
  {
    assert Justified(p, longestQuery, ticks[..k], ticks[k]);
    var j := IntervalBehind(p, longestQuery, ticks, k);
    assert ticks[..k][i] == ticks[i];
    forall m | j <= m < k ensures !ticks[m].reaction.ShutDown? {
      assert ticks[..k][m] == ticks[m];
    }
    assert FreshInterval(p, ticks, j, k);
  }

  /** From `j` to `k` nobody was seen and nothing reported, and the tick before `j` was a break. */
  predicate FreshInterval(p: Policy, ticks: seq<Tick>, j: nat, k: nat)
    requires j < k < |ticks|
  {
    && ticks[k].at - ticks[j].at >= p.idle
    && (j > 0 ==> !StaysEmpty(ticks[j - 1]))
    && forall m :: j <= m < k ==> StaysEmpty(ticks[m]) && !ticks[m].reaction.ShutDown?
  }

  /** A restart follows consecutive ticks, each unknown with a service seen down, that span the
      outage timeout and begin after every earlier restart. */
  lemma RestartsNeedFreshOutages(p: Policy, longestQuery: real, ticks: seq<Tick>, k: nat)
    requires Proper(p, longestQuery, ticks) && k < |ticks| && ticks[k].reaction.Restarted?
    ensures OutageBehind(p, ticks, k)
  {
    assert Justified(p, longestQuery, ticks[..k], ticks[k]);
    var past := ticks[..k];
    var j: nat :| OpenOutage(past, j) && ticks[k].at - past[j].at >= p.outage;
    assert past[j] == ticks[j];
    forall m | j <= m < k ensures StaysDown(ticks[m]) {
      assert past[m] == ticks[m];
    }
    assert OutageSpan(p, ticks, j, k);
  }

  ghost predicate OutageBehind(p: Policy, ticks: seq<Tick>, k: nat)
    requires k < |ticks|
  {
    exists j :: 0 <= j < k && OutageSpan(p, ticks, j, k)
  }

  predicate OutageSpan(p: Policy, ticks: seq<Tick>, j: nat, k: nat)
    requires j < k < |ticks|
  {
    && ticks[k].at - ticks[j].at >= p.outage
    && SeenDown(ticks[k])
    && forall m :: j <= m < k ==> StaysDown(ticks[m])
  }

  /** With a clock that does not go back, restarts are at least an outage timeout apart, and so
      are shutdown calls and the idle timeout. */
  lemma ReactionsAreSpaced(p: Policy, longestQuery: real, ticks: seq<Tick>, i: nat, k: nat)
    requires p.Valid() && Proper(p, longestQuery, ticks) && Monotone(ticks) && i < k < |ticks|
    ensures ticks[i].reaction.Restarted? && ticks[k].reaction.Restarted? ==> ticks[k].at - ticks[i].at >= p.outage
    ensures ticks[i].reaction.ShutDown? && ticks[k].reaction.ShutDown? ==> ticks[k].at - ticks[i].at >= p.idle
  {
    if ticks[i].reaction.Restarted? && ticks[k].reaction.Restarted? {
      RestartsNeedFreshOutages(p, longestQuery, ticks, k);
      var j :| 0 <= j < k && OutageSpan(p, ticks, j, k);
      assert ticks[i].at <= ticks[j].at;
    }
    if ticks[i].reaction.ShutDown? && ticks[k].reaction.ShutDown? {
      ShutdownsNeedFreshIntervals(p, longestQuery, ticks, i, k);
      var j :| i < j < k && FreshInterval(p, ticks, j, k);
      assert ticks[i].at <= ticks[j].at;
    }
  }

  // ---------------------------------------------------------------- the log

  /** Everything the watchdog did over its ticks. */
  function AllDid(ticks: seq<Tick>): seq<Effect> {
    if ticks == [] then [] else AllDid(ticks[..|ticks| - 1]) + ticks[|ticks| - 1].Did()
  }

  /** Where in the log tick `k` begins. */
  function Start(ticks: seq<Tick>, k: nat): nat
    requires k < |ticks|
  {
    |AllDid(ticks[..k])|
  }

  /** Where its reaction begins. */
  function ReactionStart(ticks: seq<Tick>, k: nat): nat
    requires k < |ticks|
  {
    Start(ticks, k) + |ticks[k].asked|
  }

  /** Every effect in the log is one of a tick, */
  lemma {:induction false} EffectBelongsToTick(ticks: seq<Tick>, n: nat) returns (k: nat)
    requires n < |AllDid(ticks)|
    ensures k < |ticks| && Start(ticks, k) <= n < Start(ticks, k) + |ticks[k].Did()|
  {
    var init := ticks[..|ticks| - 1];
    if n < |AllDid(init)| {
      k := EffectBelongsToTick(init, n);
      assert init[..k] == ticks[..k];
    } else {
      k := |ticks| - 1;
    }
  }

  /** and the effects of a tick stand there in a row. */
  lemma {:induction false} TickStandsInLog(ticks: seq<Tick>, k: nat)
    requires k < |ticks|
    ensures Start(ticks, k) + |ticks[k].Did()| <= |AllDid(ticks)|
    ensures AllDid(ticks)[Start(ticks, k)..Start(ticks, k) + |ticks[k].Did()|] == ticks[k].Did()
  {
    if k < |ticks| - 1 {
      var init := ticks[..|ticks| - 1];
      TickStandsInLog(init, k);
      assert init[..k] == ticks[..k];
    }
  }

  lemma DisruptionsAreReactions(t: Tick, m: nat)
    requires DoesAsTold(t) && m < |t.Did()| && Disrupts(t.Did()[m])
    ensures !t.reaction.Nothing? && |t.asked| <= m && t.Did()[m] == t.reaction.did[m - |t.asked|]
    ensures t.reaction.Restarted? ==> m == |t.asked|
  {
    if t.reaction.Restarted? {
      assert t.reaction.did == [t.reaction.did[0]] + t.reaction.did[1..];
    }
  }

  /** The effects of a reaction stand in the log in a row. */
  lemma ReactionStandsInLog(ticks: seq<Tick>, k: nat)
    requires k < |ticks| && !ticks[k].reaction.Nothing?
    ensures var start, did := ReactionStart(ticks, k), ticks[k].reaction.did;
      start + |did| <= |AllDid(ticks)| && AllDid(ticks)[start..start + |did|] == did
  {
    TickStandsInLog(ticks, k);
    SliceBehind(AllDid(ticks), Start(ticks, k), ticks[k].asked, ticks[k].reaction.did);
  }

  lemma SliceBehind<T>(log: seq<T>, at: nat, before: seq<T>, behind: seq<T>)
    requires at + |before| + |behind| <= |log| && log[at..at + |before + behind|] == before + behind
    ensures log[at + |before|..at + |before| + |behind|] == behind
  {
    var all := before + behind;
    forall i | 0 <= i < |behind| ensures log[at + |before| + i] == behind[i] {
      assert log[at..at + |all|][|before| + i] == all[|before| + i] == behind[i];
    }
  }

  /** The complete chain stands right before position `n`. */
  ghost predicate ChainBefore(log: seq<Effect>, n: nat) {
    11 <= n <= |log| && IsChain(log[n - 11..n])
  }

  ghost predicate IsChain(did: seq<Effect>) {
    exists id :: ReadyToPowerOff(did, false, id)
  }

  /** A poweroff command at position `n` of the log is earned by tick `k`: it stands behind the
      complete chain with which the reaction of that tick begins, and an idle interval ends there. */
  ghost predicate PowerOffEarnedBy(p: Policy, longestQuery: real, ticks: seq<Tick>, n: nat, k: nat)
    requires p.Valid()
  {
    && k < |ticks| && n == ReactionStart(ticks, k) + 11 && ChainBefore(AllDid(ticks), n)
    && !p.dryRun && IdleBehind(p, longestQuery, ticks, k)
  }

  /** A restart command there is earned by tick `k`: it is the first effect of the reaction, and an
      outage interval ends there. */
  ghost predicate RestartEarnedBy(p: Policy, ticks: seq<Tick>, n: nat, k: nat) {
    k < |ticks| && n == ReactionStart(ticks, k) && OutageBehind(p, ticks, k)
  }

  ghost predicate Earned(p: Policy, longestQuery: real, ticks: seq<Tick>, n: nat)
    requires p.Valid() && n < |AllDid(ticks)|
  {
    && (AllDid(ticks)[n].PowerOffCommanded? ==> exists k :: PowerOffEarnedBy(p, longestQuery, ticks, n, k))
    && (AllDid(ticks)[n].RestartCommanded? ==> exists k :: RestartEarnedBy(p, ticks, n, k))
  }

  /** Over a whole run, whatever was answered: no poweroff command without its own chain and idle
      interval, and no restart command without its own outage interval. */
  lemma DisruptionsAreEarned(p: Policy, longestQuery: real, ticks: seq<Tick>, n: nat)
    requires p.Valid() && Proper(p, longestQuery, ticks) && Faithful(ticks) && ReadsClock(ticks)
    requires n < |AllDid(ticks)|
    ensures Earned(p, longestQuery, ticks, n)
  {
    if Disrupts(AllDid(ticks)[n]) {
      var k, i := DisruptionBelongsToReaction(ticks, n);
      if ticks[k].reaction.Restarted? {
        RestartIsEarned(p, longestQuery, ticks, n, k);
      } else {
        ReactionIsGuarded(p, longestQuery, ticks, k);
        ShutdownFollowsIdleInterval(p, longestQuery, ticks, k);
        PowerOffIsEarned(p, longestQuery, ticks, n, k, i);
      }
    }
  }

  lemma RestartIsEarned(p: Policy, longestQuery: real, ticks: seq<Tick>, n: nat, k: nat)
    requires Proper(p, longestQuery, ticks) && k < |ticks| && ticks[k].reaction.Restarted?
    requires n == ReactionStart(ticks, k)
    ensures RestartEarnedBy(p, ticks, n, k)
  {
    RestartsNeedFreshOutages(p, longestQuery, ticks, k);
  }

  lemma ElementOfSlice<T>(log: seq<T>, at: nat, all: seq<T>, i: nat)
    requires at + |all| <= |log| && log[at..at + |all|] == all && i < |all|
    ensures log[at + i] == all[i]
  {
    assert log[at..at + |all|][i] == all[i];
  }

  lemma DisruptionBelongsToReaction(ticks: seq<Tick>, n: nat) returns (k: nat, i: nat)
    requires Faithful(ticks) && n < |AllDid(ticks)| && Disrupts(AllDid(ticks)[n])
    ensures k < |ticks| && n == ReactionStart(ticks, k) + i
    ensures var reaction := ticks[k].reaction;
      && !reaction.Nothing? && i < |reaction.did| && reaction.did[i] == AllDid(ticks)[n]
      && (reaction.Restarted? ==> i == 0 && reaction.did[0].RestartCommanded?)
  {
    k := EffectBelongsToTick(ticks, n);
    TickStandsInLog(ticks, k);
    var t, m := ticks[k], n - Start(ticks, k);
    ElementOfSlice(AllDid(ticks), Start(ticks, k), t.Did(), m);
    DisruptionsAreReactions(t, m);
    i := m - |t.asked|;
  }

  lemma PowerOffIsEarned(p: Policy, longestQuery: real, ticks: seq<Tick>, n: nat, k: nat, i: nat)
    requires p.Valid() && k < |ticks| && IdleBehind(p, longestQuery, ticks, k)
    requires ticks[k].reaction.ShutDown? && ShutdownIsGuarded(p, ticks[k].reaction) && i < |ticks[k].reaction.did|
    requires Disrupts(ticks[k].reaction.did[i]) && n == ReactionStart(ticks, k) + i
    ensures ticks[k].reaction.did[i].PowerOffCommanded?
    ensures PowerOffEarnedBy(p, longestQuery, ticks, n, k)
  {
    ReactionStandsInLog(ticks, k);
    ChainStandsInLog(p, ticks[k].reaction, AllDid(ticks), ReactionStart(ticks, k), i);
  }

  lemma ReactionIsGuarded(p: Policy, longestQuery: real, ticks: seq<Tick>, k: nat)
    requires Proper(p, longestQuery, ticks) && k < |ticks| && ticks[k].reaction.ShutDown?
    ensures ShutdownIsGuarded(p, ticks[k].reaction)
  {
    assert Justified(p, longestQuery, ticks[..k], ticks[k]);
  }

  /** A guarded reaction that stands in a log stands there with its chain. */
  lemma ChainStandsInLog(p: Policy, reaction: Reaction, log: seq<Effect>, at: nat, i: nat)
    requires reaction.ShutDown? && ShutdownIsGuarded(p, reaction) && i < |reaction.did| && Disrupts(reaction.did[i])
    requires at + |reaction.did| <= |log| && log[at..at + |reaction.did|] == reaction.did
    ensures !p.dryRun && i == 11 && reaction.did[i].PowerOffCommanded? && ChainBefore(log, at + 11)
  {
    assert log[at..at + 11] == reaction.did[..11];
  }

  ghost predicate DisruptionsEarned(p: Policy, longestQuery: real, ticks: seq<Tick>)
    requires p.Valid()
  {
    forall n :: 0 <= n < |AllDid(ticks)| ==> Earned(p, longestQuery, ticks, n)
  }

  lemma AllDisruptionsAreEarned(p: Policy, longestQuery: real, ticks: seq<Tick>)
    requires p.Valid() && Proper(p, longestQuery, ticks) && Faithful(ticks) && ReadsClock(ticks)
    ensures DisruptionsEarned(p, longestQuery, ticks)
  {
    forall n | 0 <= n < |AllDid(ticks)| ensures Earned(p, longestQuery, ticks, n) {
      DisruptionsAreEarned(p, longestQuery, ticks, n);
    }
  }

  /** The loop of run_watchdog reads a clock that does not go back. */
  predicate Polled(ticks: seq<Tick>, now: real) {
    ReadsClock(ticks) && Monotone(ticks) && (ticks != [] ==> ticks[|ticks| - 1].at <= now)
  }

  lemma OneMorePoll(ticks: seq<Tick>, t: Tick, now: real)
    requires Polled(ticks, t.at) && t.at == t.began && t.at <= now
    ensures Polled(ticks + [t], now)
  {
  }

  lemma OneMoreTick(base: seq<Effect>, ticks: seq<Tick>, t: Tick)
    ensures base + AllDid(ticks + [t]) == base + AllDid(ticks) + t.Did()
  {
    assert (ticks + [t])[..|ticks|] == ticks;
    var all, did := AllDid(ticks), t.Did();
    assert AllDid(ticks + [t]) == all + did;
    assert base + (all + did) == base + all + did;
  }
}
