/** The Docker Compose service as the watchdog controls it. */
module Service {
  import opened Basics
  import opened Outside

  datatype Health = Healthy | Unhealthy | Stopped | UnknownHealth

  const COMMAND_TIMEOUT := 60.0
  const RESTART_TIMEOUT := 180.0
  const READY_TIMEOUT := 900.0

  /** Exactly an exited container: not running, restarting, dead or OOM-killed, status 0, no error. */
  predicate IsCleanExit(s: ContainerState) {
    && s.status == "exited" && s.running == Some(false) && s.restarting == Some(false)
    && s.dead == Some(false) && s.oomKilled == Some(false) && s.exitCode == Some(0) && s.error == Some("")
  }

  predicate ShowsCleanExit(i: Inspection) {
    i.Inspected? && IsCleanExit(i.state)
  }

  function HealthOf(identity: Identity, inspection: Inspection): Health {
    match identity
    case LookupFails => UnknownHealth
    case SeveralContainers => UnknownHealth
    case NoContainer => Stopped
    case Container(_) =>
      match inspection
      case InspectionFails => UnknownHealth
      case Inspected(s) =>
        if s.running != Some(true) then Stopped
        else if s.health == Some("healthy") then Healthy
        else if s.health == Some("unhealthy") then Unhealthy
        else UnknownHealth
  }

  /** One identification, and an inspection of exactly the container it found, show this health. */
  predicate Shows(did: seq<Effect>, health: Health) {
    && 1 <= |did| <= 2 && did[0].Identified?
    && (if did[0].identity.Container?
        then |did| == 2 && did[1].InspectedAs? && did[1].id == did[0].identity.id
             && health == HealthOf(did[0].identity, did[1].inspection)
        else |did| == 1 && health == HealthOf(did[0].identity, InspectionFails))
  }

  /** The last look found the service healthy. */
  predicate EndsHealthy(did: seq<Effect>) {
    |did| >= 2 && Shows(did[|did| - 2..], Healthy)
  }

  /** No look found it healthy. */
  predicate NeverHealthy(did: seq<Effect>) {
    forall i :: 0 <= i < |did| && did[i].InspectedAs? ==> !HealthOf(Container(did[i].id), did[i].inspection).Healthy?
  }

  /** What a stop of exactly the container `id` looks like: identified, told to stop, seen
      cleanly exited, identified again as the same container. */
  predicate CleanStop(did: seq<Effect>, id: string) {
    && |did| == 4
    && did[0] == Identified(Container(id)) && did[1] == StopCommanded(true)
    && did[2].InspectedAs? && did[2].id == id && ShowsCleanExit(did[2].inspection)
    && did[3] == Identified(Container(id))
  }

  /** A fresh look that finds `id` and finds it cleanly exited. */
  predicate ConfirmedStop(did: seq<Effect>, id: string) {
    && |did| == 2 && did[0] == Identified(Container(id))
    && did[1].InspectedAs? && did[1].id == id && ShowsCleanExit(did[1].inspection)
  }

  /** The two commands that only a long and clear history may lead to. */
  predicate Disrupts(e: Effect) {
    e.PowerOffCommanded? || e.RestartCommanded?
  }

  predicate Undisturbed(did: seq<Effect>) {
    forall i :: 0 <= i < |did| ==> !Disrupts(did[i])
  }

  class DockerComposeService {
    const env: Environment
    var verified: Option<string>

    constructor (env: Environment)
      ensures this.env == env && verified.None?
    {
      this.env, verified := env, None;
    }

    method ContainerId() returns (identity: Identity)
      modifies env
      ensures env.log == old(env.log) + [Identified(identity)]
      ensures old(env.now) <= env.now
    {
      var a := env.Ask(COMMAND_TIMEOUT);
      identity := a.identity;
      env.Log(Identified(identity));
    }

    method InspectContainer(id: string) returns (inspection: Inspection)
      modifies env
      ensures env.log == old(env.log) + [InspectedAs(id, inspection)]
      ensures old(env.now) <= env.now
    {
      var a := env.Ask(COMMAND_TIMEOUT);
      inspection := a.inspection;
      env.Log(InspectedAs(id, inspection));
    }

    method HealthCheck() returns (health: Health, ghost did: seq<Effect>)
      modifies env
      ensures env.log == old(env.log) + did && Undisturbed(did) && old(env.now) <= env.now
      ensures Shows(did, health)
    {
      var identity := ContainerId();
      did := [Identified(identity)];
      var inspection := InspectionFails;
      if identity.Container? {
        inspection := InspectContainer(identity.id);
        did := did + [InspectedAs(identity.id, inspection)];
      }
      health := HealthOf(identity, inspection);
    }

    method WaitUntilHealthy() returns (healthy: bool, ghost did: seq<Effect>)
      modifies env
      ensures env.log == old(env.log) + did && Undisturbed(did) && old(env.now) <= env.now
      ensures healthy ==> EndsHealthy(did)
      ensures !healthy ==> NeverHealthy(did) && env.now >= old(env.now) + READY_TIMEOUT
    {
      var deadline := env.now + READY_TIMEOUT;
      healthy := false;
      did := [];
      while env.now < deadline && !healthy
        invariant env.log == old(env.log) + did && Undisturbed(did) && old(env.now) <= env.now
        invariant if healthy then EndsHealthy(did) else NeverHealthy(did)
        decreases !healthy, deadline - env.now
      {
        var health;
        ghost var more;
        health, more := HealthCheck();
        did := did + more;
        if health.Healthy? {
          assert did[|did| - 2..] == more;
          healthy := true;
        } else {
          assert more[0].identity.Container? ==> more[0].identity == Container(more[1].id);
          env.Sleep(5.0);
        }
      }
    }

    method Restart() returns (recovered: bool, ghost did: seq<Effect>)
      modifies env
      ensures env.log == old(env.log) + did && old(env.now) <= env.now
      ensures |did| > 0 && did[0].RestartCommanded? && Undisturbed(did[1..])
      ensures if recovered then did[0].succeeded && EndsHealthy(did[1..])
              else did[0].succeeded ==> NeverHealthy(did[1..]) && env.now >= old(env.now) + READY_TIMEOUT
    {
      var a := env.Ask(RESTART_TIMEOUT);
      did := [RestartCommanded(a.yes)];
      env.Log(RestartCommanded(a.yes));
      recovered := false;
      if a.yes {
        ghost var more;
        recovered, more := WaitUntilHealthy();
        did := did + more;
        assert did[1..] == more;
      }
    }

    method Start() returns (started: bool, ghost did: seq<Effect>)
      modifies env
      ensures env.log == old(env.log) + did && Undisturbed(did) && old(env.now) <= env.now
      ensures |did| > 0 && did[0].StartCommanded? && (started ==> did[0].succeeded && EndsHealthy(did[1..]))
    {
      var a := env.Ask(RESTART_TIMEOUT);
      did := [StartCommanded(a.yes)];
      env.Log(StartCommanded(a.yes));
      started := false;
      if a.yes {
        ghost var more;
        started, more := WaitUntilHealthy();
        did := did + more;
        assert did[1..] == more;
      }
    }

    /** DockerComposeService.graceful_stop: whatever was verified earlier is forgotten first. */
    method GracefulStop(timeout: real) returns (stopped: bool, ghost did: seq<Effect>)
      requires timeout >= 0.0
      modifies env, this`verified
      ensures env.log == old(env.log) + did && Undisturbed(did) && old(env.now) <= env.now
      ensures |did| <= 4
      ensures if stopped then verified.Some? && CleanStop(did, verified.value) else verified.None?
      ensures (exists id :: CleanStop(did, id)) ==> stopped
    {
      verified := None;
      stopped := false;
      var identity := ContainerId();
      did := [Identified(identity)];
      if !identity.Container? {
        return;
      }
      var id := identity.id;
      var a := env.Ask(timeout + 30.0);
      env.Log(StopCommanded(a.yes));
      did := did + [StopCommanded(a.yes)];
      if !a.yes {
        return;
      }
      var inspection := InspectContainer(id);
      did := did + [InspectedAs(id, inspection)];
      if !ShowsCleanExit(inspection) {
        return;
      }
      var current := ContainerId();
      did := did + [Identified(current)];
      if current != identity {
        return;
      }
      verified := Some(id);
      stopped := true;
    }

    /** DockerComposeService.is_stopped. */
    method IsStopped() returns (stopped: bool, ghost did: seq<Effect>)
      modifies env
      ensures |did| <= 2
      ensures env.log == old(env.log) + did && Undisturbed(did) && old(env.now) <= env.now
      ensures verified.Some? ==> (stopped <==> ConfirmedStop(did, verified.value))
      ensures verified.None? ==>
                (stopped <==> did == [Identified(NoContainer)]
                              || (|did| > 0 && did[0].Identified? && did[0].identity.Container?
                                  && ConfirmedStop(did, did[0].identity.id)))
    {
      stopped := false;
      var identity := ContainerId();
      did := [Identified(identity)];
      if identity.LookupFails? || identity.SeveralContainers? {
        return;
      }
      if verified.Some? {
        if identity != Container(verified.value) {
          return;
        }
      } else if identity.NoContainer? {
        stopped := true;
        return;
      }
      var inspection := InspectContainer(identity.id);
      did := did + [InspectedAs(identity.id, inspection)];
      stopped := ShowsCleanExit(inspection);
    }
  }
}
