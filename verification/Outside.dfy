/** The world the watchdog talks to: one stream of adversarial answers, a clock that passes
    while it waits, and a log of everything asked and commanded. */
module Outside {
  import opened Basics

  /** A confirmed player count or an explicitly unknown result. */
  datatype Observation = Known(count: nat) | Unknown

  datatype Identity = LookupFails | SeveralContainers | NoContainer | Container(id: string)

  /** The `.State` object of a container; None stands for a missing or mistyped field. */
  datatype ContainerState = ContainerState(
    status: string,
    running: Option<bool>,
    restarting: Option<bool>,
    dead: Option<bool>,
    oomKilled: Option<bool>,
    exitCode: Option<int>,
    error: Option<string>,
    health: Option<string>)

  datatype Inspection = InspectionFails | Inspected(state: ContainerState)

  /** One answer, whatever is asked: an RCON response, a lookup, an inspection, a verdict. */
  datatype Answer = Answer(text: Result<string>, identity: Identity, inspection: Inspection, yes: bool, took: real)

  datatype Effect =
    | Asked(observation: Observation)
    | SaveRequested(confirmed: bool)
    | EligibilityRead(eligible: bool)
    | Identified(identity: Identity)
    | InspectedAs(id: string, inspection: Inspection)
    | StopCommanded(succeeded: bool)
    | RestartCommanded(succeeded: bool)
    | StartCommanded(succeeded: bool)
    | PowerOffCommanded(succeeded: bool)

  class Environment {
    const answers: nat -> Answer
    var clock: nat
    var now: real
    ghost var log: seq<Effect>

    constructor (answers: nat -> Answer)
      ensures this.answers == answers && clock == 0 && now == 0.0 && log == []
    {
      this.answers, clock, now, log := answers, 0, 0.0, [];
    }

    /** Ask, and wait for at most `limit` seconds. */
    method Ask(limit: real) returns (a: Answer)
      requires limit >= 0.0
      modifies this`clock, this`now
      ensures a == answers(old(clock)) && clock == old(clock) + 1
      ensures old(now) <= now <= old(now) + limit
    {
      a := answers(clock);
      clock := clock + 1;
      now := now + if a.took < 0.0 then 0.0 else if a.took > limit then limit else a.took;
    }

    method Sleep(seconds: real)
      requires seconds >= 0.0
      modifies this`now
      ensures now == old(now) + seconds
    {
      now := now + seconds;
    }

    ghost method Log(e: Effect)
      modifies this`log
      ensures log == old(log) + [e]
    {
      log := log + [e];
    }
  }
}
