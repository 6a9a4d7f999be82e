# A verified model of the Project Zomboid server tooling

This project models the parts of the repository that must survive crashes, misleading answers and
hostile timing, and proves what they promise.

**The game release transaction.** `ReleaseProtocol` is a protocol over durable state alone: the
pointers, the release directories and the state record, changed by single writes. A crash needs no
step of its own, because a crashed operation simply performs no further write. The protocol's
guards are not assumptions: `GameUpdating` holds the updater as a class whose methods perform the
writes one by one under an adversary that may fail each of them before or after it landed, cut it
off on either side, or stop a deletion half-way, and every write must be shown to be a step the
protocol allows. So what is proved about all legal runs holds for every interleaving of
operations, failures, crashes and launches. Steam, the launcher checks, disk space, the server
probe and the backup are answers chosen by the caller. `Reliable()` says that from here on no durable
write fails, whatever happened before; it is used only where a clause is about progress or an exact
outcome. `Open` starts a new process on whatever disk the last one left, and
`GoodStartAfterCrashes` composes any number of crashed starts with one good one.

**The repository deployment.** `DeploymentProtocol` and `Deployment` do the same for `pzctl
deploy`: pending marker, HEAD, deployed marker, two watchdog environments and the preserved
orchestrator. A marker change that lands and is then reported as failed has its own guards: the
protocol follows what the code does next, and `LateSyncsThatBreakRecovery` states which of these
changes can end unrecoverable. Only a host on which the rollback of a finished deployment broke off
(`Stray`) is given up, until it is recoverable again.

**The idle watchdog.** `Outside` is an adversarial environment with one stream of answers, a clock
and a log of effects. `Rcon`, `Service`, `Shutdown` and `Engine` are the classes of the source.
`WatchdogHistory` states what the engine may conclude over its whole history of ticks, without
timers; the engine's two timers and flag are proved to decide the same, and `RunWatchdog` states
the result for the log of any run.

**The text transformations.** `Vdf` and `VdfPrinting` (Valve's metadata), `IniMerge` and
`IniMergeLaws` (the awk merge), `StartWrapper`, `WrapperMeaning` and `LauncherArguments` (the start
wrapper under a small shell, and the heap arguments), `PlayerCount` (both readers of the player
list). Loops over text are methods proved against functions, and the laws are about the functions.

`dafny verify dfyconfig.toml` checks everything.

## What the code does that its documentation does not say

Except where it says otherwise, each of these is exhibited by a lemma or a method or stated exactly by a clause.

- A crash between the two steps of discarding the old fallback release leaves the previous pointer
  dangling, and from then on every update is refused (`src/pz_updater/core.py:801-805`, `821-823`).
  `PrepareStart` states recoverability as an if and only if with this condition.
- A build blocked as incompatible is fetched again after one failed metadata query
  (`src/pz_updater/core.py:1440-1463`).
- When a directory cannot be deleted or the record cannot be written in the recovery at the end of
  `prepare_start`, the call still returns normally and the server is launched with a downloading or
  promoting record (`src/pz_updater/core.py:950-952`). `UpdateOrKeep` and `PrepareStart` state this as
  an if and only if over the faults, and `LaunchesWhileDownloading` exhibits it;
  `LaunchesAreVerified` holds all the same.
- With a release to fall back on and every record write working, a start still fails in one case
  besides an opening recovery that cannot delete a directory: a pointer is not replaced, and then
  the candidate cannot be deleted (`src/pz_updater/core.py:1319-1325`, `1406-1407`). The OSError is
  not an UpdateError, so the fallback does not catch it.
- A pending deployment marker that is written but cannot be synced is left without its recovery
  orchestrator (`scripts/linux/pzctl:716-718`). A removal of the marker that cannot be synced makes
  the rollback undo a finished deployment; a crash in it leaves the host drifted, and if the same
  commit was deployed again, the next deployment deletes the only environment left
  (`scripts/linux/pzctl:704-706`, `784-788`).
- After a failed 64-bit probe the rewritten start script no longer runs the commands between the
  message and its last line (`src/pz_updater/core.py:598`).
- An unfinished control sequence inside a quoted string can swallow the closing quote
  (`src/pz_updater/core.py:283`).
- An empty rendered configuration makes awk take the server's file for the rendering, and all its
  comments are dropped (`docker/entrypoint.sh:158`). A key rendered twice and absent from the file
  is printed twice, and once after the next start.
- A closing brace is accepted as a value (`src/pz_updater/core.py:304-308`), so the tokens of an
  object need not balance.

## Model

| member | source | states |
|---|---|---|
| `ReleaseProtocol.ActionKeepsInvariant` | src/pz_updater/core.py:1170-1340 | one inductive invariant over disk, record and launch history survives every single durable write, in whatever order operations and crashes produce them |
| `ReleaseProtocol.RunKeepsInvariant` | src/pz_updater/core.py:881-1086 | every world of every run satisfies that invariant |
| `ReleaseProtocol.LaunchesNeverGoBack` | src/pz_updater/core.py:1154-1168 | no old binaries on a newer world: of two launches in any run the later one starts a build at least as large |
| `ReleaseProtocol.SelectedBuildNeverDrops` | src/pz_updater/core.py:1245-1249 | between any two points of a run the selected build never decreases, and a pointer once set never vanishes |
| `ReleaseProtocol.LaunchesAreVerified` | src/pz_updater/core.py:1319-1321 | every launch starts a complete release whose launcher contract was verified |
| `ReleaseProtocol.ActiveAlwaysResolves` | src/pz_updater/core.py:801-805 | deletion safety: no deletion in any run, complete or cut short, touches the selected release, so the active pointer always resolves |
| `ReleaseProtocol.SwitchIsGuarded` | src/pz_updater/core.py:1298-1336 | the pointer moves only to the armed candidate of the recorded, not older build, with the old release already kept as previous, and since the candidate was reserved a backup was taken or, if no release was installed, no world was found |
| `ReleaseProtocol.EmptyWorldPrecedesSwitch` | src/pz_updater/core.py:1270-1271 | finding no world counts for one transaction only, too |
| `ReleaseProtocol.BackupPrecedesSwitch` | src/pz_updater/core.py:1270-1281 | a backup counts for one transaction only: none is carried over to a later candidate |
| `ReleaseProtocol.RecoveryConverges` | src/pz_updater/core.py:1342-1419 | however often recovery is itself cut short, its first completed attempt ends at one of two disks, decided by the pointer at the first crash: rolled back with both staging directories gone, or rolled forward awaiting readiness |
| `ReleaseProtocol.RecoveryUnderWay` | src/pz_updater/core.py:1359-1367 | before that, no partial attempt changes the decision or touches a directory outside the staging names |
| `ReleaseProtocol.WorldOpenBoundary` | src/pz_updater/core.py:999-1062 | world_opened is false while promoting, activating or pending and true once touched, and any candidate past activation is the active release with the recorded build |
| `ReleaseProtocol.AcceptanceFollowsBothMarks` | src/pz_updater/core.py:1054-1062 | external acceptance lies behind mark-world-opened and then mark-runtime-ready, with one and the same release selected in between |
| `ReleaseProtocol.TouchedFollowsOpenWorld` | src/pz_updater/core.py:999-1014 | a touched world lies behind the mark for the very release still selected |
| `ReleaseProtocol.ReadyFollowsMark` | src/pz_updater/core.py:1016-1052 | readiness lies behind its mark for the same release |
| `ReleaseProtocol.FailureAfterWorldOpenIsFinal` | src/pz_updater/core.py:1064-1086 | failed-after-world-open is absorbing: no operation changes any durable file afterwards |
| `ReleaseProtocol.DiskIsBounded` | src/pz_updater/core.py:1185-1224 | at every point of a run at most two directories exist besides those that nothing names |
| `ReleaseProtocol.OrphansAreAccounted` | src/pz_updater/core.py:1196-1224 | exactly which writes change the set of directories that nothing names: a reservation adds one, announcing or erasing it takes it out, a failure record adds the staging directories that still stand, and nothing else changes it |
| `ReleaseProtocol.LitterCountsOrphans` | src/pz_updater/core.py:1196-1224 | the account kept along a run is the number of such directories at every point |
| `ReleaseProtocol.CleanRunsHaveNoOrphans` | src/pz_updater/core.py:1196-1318 | where every failure record finds its staging directories gone and every reservation is announced or erased next, no directory is left that nothing names, but for one just reserved |
| `ReleaseProtocol.CleanRunsKeepTwoDirectories` | src/pz_updater/core.py:1185-1318 | such a run never has more than two release directories |
| `ReleaseProtocol.DanglingPreviousIsReachable` | src/pz_updater/core.py:801-805 | a run that ends with the previous pointer naming a missing directory (crash between deletion and unlink) |
| `GameUpdating.GameUpdater.constructor` | src/pz_updater/core.py:861-879 | an empty installation root satisfies the invariant |
| `GameUpdating.GameUpdater.Open` | src/pz_updater/core.py:861-879 | a new process continues from whatever disk the last one left, in the middle of anything |
| `GameUpdating.GameUpdater.WriteRecord` | src/pz_updater/core.py:219-229 | a record write is all or nothing, and a failed directory fsync reports an error although it landed |
| `GameUpdating.GameUpdater.WriteActive` | src/pz_updater/core.py:768-773 | the same for the active pointer |
| `GameUpdating.GameUpdater.WritePrevious` | src/pz_updater/core.py:775-780 | the same for the previous pointer, unlinked by None |
| `GameUpdating.GameUpdater.RemoveTree` | src/pz_updater/core.py:801-805 | a deletion may stop half-way, and is only called on a directory that may be deleted |
| `GameUpdating.GameUpdater.RecoverInterrupted` | src/pz_updater/core.py:1342-1378 | every attempt, failed or crashed, stays within RecoveryAttempt, with working record writes it completes exactly if no deletion fails, and the record of a staged candidate stays, without a crash, exactly if a deletion fails or the new record is not written |
| `GameUpdating.GameUpdater.RecoverActivation` | src/pz_updater/core.py:1380-1419 | activation recovery decides by the pointer alone and is never ambiguous in a reachable world |
| `GameUpdating.GameUpdater.RefuseAfterRecording` | src/pz_updater/core.py:1440-1463 | a failure record rewrites the pre-transaction record, so every later field is dropped with it |
| `GameUpdating.GameUpdater.DiscardOldPrevious` | src/pz_updater/core.py:801-805 | the installed build survives; a dangling pointer refuses, and the crash that makes one is exhibited |
| `GameUpdating.GameUpdater.ClearTheWay` | src/pz_updater/core.py:1178-1195 | passes exactly when no server runs, space suffices and the previous pointer resolves |
| `GameUpdating.GameUpdater.ReserveCandidate` | src/pz_updater/core.py:1196-1224 | a fresh directory recorded for download, or a settled record; unless it is cut off or a failed deletion is ignored, a failure leaves no directory behind |
| `GameUpdating.GameUpdater.AnnounceCandidate` | src/pz_updater/core.py:1208-1224 | the record names the directory, or the directory is deleted again; the late failure that leaves the record without its directory is exhibited |
| `GameUpdating.GameUpdater.DropCandidate` | src/pz_updater/core.py:1232-1264 | the candidate is deleted before the failure is recorded |
| `GameUpdating.GameUpdater.VerifyCandidate` | src/pz_updater/core.py:1225-1264 | passes exactly when the download has the promised build and meets the launcher contract, and blocks the build exactly when it is incompatible; a rejected candidate is deleted |
| `GameUpdating.GameUpdater.FetchCandidate` | src/pz_updater/core.py:1225-1281 | adds that an existing world or release demands a verified backup, whatever fails, and that a candidate without one is deleted |
| `GameUpdating.GameUpdater.PromoteCandidate` | src/pz_updater/core.py:1282-1318 | ends armed with a verified release under a fresh name, or failed before world open, or crashed with the old release still selected; a failed promotion deletes both directories |
| `GameUpdating.GameUpdater.SwitchPointers` | src/pz_updater/core.py:1319-1330 | activation recovery after a failed pointer write: one that fails before the active pointer is replaced ends with the old release and no candidate, one that fails after it with the candidate; an OSError comes out in one case only |
| `GameUpdating.GameUpdater.ActivateCandidate` | src/pz_updater/core.py:1319-1340 | both pointers and the record, or the old release still selected; a pointer write that fails after it landed still ends pending readiness, and an OSError comes out exactly if a pointer is not replaced and the candidate then cannot be deleted |
| `GameUpdating.GameUpdater.StageAndActivate` | src/pz_updater/core.py:1170-1340 | succeeds exactly when every answer is favourable and the previous pointer resolves; otherwise the old build stays and the exact failure record is known; whatever failed before, a candidate that reached the pointers is selected when the active one fails late and gone when one fails early; no failed candidate is left behind |
| `GameUpdating.GameUpdater.CheckAndUpdate` | src/pz_updater/core.py:1117-1168 | the pointer is unchanged unless a candidate was activated; an older build is always refused and changes no pointer or directory, and a blocked one changes nothing at all |
| `GameUpdating.GameUpdater.UpdateTo` | src/pz_updater/core.py:1134-1168 | which of the four branches is taken and the record each leaves: nothing to do, downgrade, blocked, staged |
| `GameUpdating.GameUpdater.UpdateOrKeep` | src/pz_updater/core.py:927-970 | with a release to keep, and as long as every record write works, the call returns normally if and only if no candidate is stranded between a pointer that is not replaced and a deletion that fails; a normal return on a staging record comes about if and only if, from the clock at which the closing recovery begins, one of its deletions fails or its record is not written |
| `GameUpdating.GameUpdater.KeepSelected` | src/pz_updater/core.py:944-970 | the handler alone: with the release kept it survives every UpdateError unless it is cut off or the candidate is past arming, and leaves a staging record exactly under the same condition on the faults |
| `GameUpdating.GameUpdater.StartRecovered` | src/pz_updater/core.py:883-970 | after recovery: a candidate past activation is resumed unchanged, and otherwise the policies and the update decide, with the same exact conditions |
| `GameUpdating.GameUpdater.KeepByPolicy` | src/pz_updater/core.py:898-940 | decides without asking Steam exactly under a pending deployment, or with a release whose launcher no longer fits or that a manual or mod policy holds back; pointers and directories stay, and what was observed is recorded unless a manual policy preserves a recorded failure |
| `GameUpdating.GameUpdater.PrepareStart` | src/pz_updater/core.py:881-970 | the simple specification of a start: a normal return means some release is selected, the old one or a fresh one pending readiness; with a release to fall back on and working record writes it returns normally if and only if no deletion of the opening recovery fails and no candidate is stranded, whatever Steam, space, candidate, backup and the other writes do; without a newer build no pointer and no directory changes; from every disk an earlier crash left, once writes succeed, a well-behaved newer build reaches pending-readiness if and only if there is no release yet or the previous pointer is absent or resolves; an incompatible candidate is blocked, and a block is dropped if and only if a query of Steam fails; a normal return on an interrupted record comes about exactly under the condition of UpdateOrKeep |
| `GameUpdating.GameUpdater.ExplicitUpdate` | src/pz_updater/core.py:972-991 | the same transaction on request, refused once a candidate is past activation; the launcher check of the release in use comes first, and a block is overridden and forgotten, also by an update refused because a server runs, unless the candidate is selected or rejected again |
| `GameUpdating.GameUpdater.MarkWorldOpened` | src/pz_updater/core.py:999-1014 | marks exactly pending and starting candidates |
| `GameUpdating.GameUpdater.MarkRuntimeReady` | src/pz_updater/core.py:1016-1052 | refuses a world that was not marked; accepts at once only on a local host |
| `GameUpdating.GameUpdater.AcceptRelease` | src/pz_updater/core.py:1054-1062 | accepts only a runtime-ready candidate, whose build becomes current |
| `GameUpdating.GameUpdater.FailReadinessOf` | src/pz_updater/core.py:1064-1086 | fails only a touched world |
| `GameUpdating.GameUpdater.StartContainer` | docker/entrypoint.sh:249-274 | one container start launches exactly the selected build, after the world-open mark, and the launch log stays monotone; with working record writes it launches exactly under the condition of PrepareStart |
| `GameUpdating.RejectedBuildStaysBlocked` | src/pz_updater/core.py:1163-1167 | while Steam offers the rejected build or is not asked, any number of container starts and readiness reports, with any answers, failed writes and crashes, leave pointer, directories and block as they are |
| `GameUpdating.MetadataFailureForgetsBlock` | src/pz_updater/core.py:1440-1463 | a rejected build is fetched again by the second automatic start after one failed metadata query |
| `GameUpdating.LaunchesWhileDownloading` | src/pz_updater/core.py:946-970 | the two failing writes under which a start returns normally and the server is launched on a downloading record |
| `GameUpdating.StartAddsNoOrphans` | src/pz_updater/core.py:881-970 | a start adds at most one directory that nothing names for each deletion error it ignores, and one if it is cut off |
| `GameUpdating.GoodStartAfterCrashes` | src/pz_updater/core.py:881-970 | however many starts of successive processes failed or were cut off, and wherever: the next one whose writes succeed selects the build on offer if and only if there is no release yet or the previous pointer is absent or resolves, and completes an activation past its pointer |
| `DeploymentProtocol.ActionKeepsInvariant` | scripts/linux/pzctl:614-793 | every durable command keeps: a pending (p,t) means HEAD is p or t, the recovery orchestrator is p and the environment of p survives; none pending means marker, HEAD and installation agree; and what of it survives a marker change that lands late |
| `DeploymentProtocol.RunKeepsInvariant` | scripts/linux/pzctl:558-793 | at every crash point of every sequence of deployments |
| `DeploymentProtocol.NoCrashPointStrandsTheHost` | scripts/linux/pzctl:651-659 | no guard of a same-SHA retry and no drift check of a later deployment can fire at any such point, unless a rollback undoes a transition whose marker is gone |
| `DeploymentProtocol.OnlyLateMarkersLapse` | scripts/linux/pzctl:338 | without a late removal of the marker every point is resumable, and without a late marker it is recoverable as well |
| `DeploymentProtocol.TransitionsEndInstalled` | scripts/linux/pzctl:341-355 | a pending marker disappears only on a fully installed commit, and by cancellation only on the old one |
| `DeploymentProtocol.LateSyncsThatBreakRecovery` | scripts/linux/pzctl:338-355 | which marker change, landing late, is followed by commands among which a crash leaves the host unrecoverable: the pending marker, and its removal behind a cut-over, and no other |
| `DeploymentProtocol.LateSyncLosesRecovery` | scripts/linux/pzctl:716-718 | a pending marker that lands late ends without its orchestrator |
| `DeploymentProtocol.LateSyncDriftsTheHost` | scripts/linux/pzctl:784-788 | a removal that lands late and a crash in the rollback end drifted |
| `DeploymentProtocol.LateSyncLosesEveryEnvironment` | scripts/linux/pzctl:704-706 | after the same crash in a deployment of the same commit the next deployment deletes the only environment left; CutOver and DeployCommit have both steps as clauses |
| `Deployment.Deployer.Open` | scripts/linux/pzctl:614-649 | a new process continues from whatever host the last one left |
| `Deployment.Deployer.RecordDeployment` | scripts/linux/pzctl:341-355 | the marker is cleared only after the commit is recorded; a refusal leaves the transition in force, even if the marker is gone |
| `Deployment.Deployer.InstallHost` | scripts/linux/install-host.sh:150-175 | installs environment and orchestrator of the checked-out commit, or keeps a preserved one |
| `Deployment.Deployer.RestorePrevious` | scripts/linux/pzctl:574-585 | checkout and preserved environment of the old commit are back |
| `Deployment.Deployer.RollbackDeployment` | scripts/linux/pzctl:558-612 | a completed rollback leaves the old commit installed, recorded and nothing pending, also when the marker was gone before |
| `Deployment.Deployer.Announce` | scripts/linux/pzctl:707-720 | orchestrator before marker; a failure once it was copied drops the copy again and leaves a marker if and only if that came late, which ends unrecoverable |
| `Deployment.Deployer.BeginTransition` | scripts/linux/pzctl:703-720 | the same behind the deletion of an old fallback |
| `Deployment.Deployer.CancelTransition` | scripts/linux/pzctl:738-746 | a transition that could not quiesce is withdrawn with its orchestrator |
| `Deployment.Deployer.CutOver` | scripts/linux/pzctl:747-792 | ends on the target, or a working old commit is restored, in particular when the target cannot be recorded; a late removal of the marker and a crash in that rollback end drifted or, for the same commit, with its environment in the fallback alone |
| `Deployment.Deployer.DeployCommit` | scripts/linux/pzctl:614-793 | after a crash anywhere the next call is never stranded, one well-behaved retry of the pending commit succeeds, a target that cannot be installed is undone, and a fresh transition whose service cannot be stopped ends with nothing pending; each refusal is given by the host exactly: dirty checkout, other transition pending, missing baseline, repository drift, drift from a pending transition, missing fallback, missing watchdog; so a retry is refused exactly when it is stranded, and on a host whose only environment is the preserved one that environment is deleted |
| `Deployment.GoodRetryAfterCrashes` | scripts/linux/pzctl:614-793 | however many deployments failed or were cut off, and wherever: without late marker changes the host is recoverable, and from every resumable host the next well-behaved deployment of an admitted commit ends installed and recorded |
| `WatchdogHistory.StepIsJustified` | src/pz_watchdog/engine.py:53-76 | two timers and a flag decide exactly what the whole history of ticks demands |
| `WatchdogHistory.EmptyTimerAdvances` | src/pz_watchdog/engine.py:78-105 | the idle timer runs exactly while an empty interval is open and holds its first tick; the flag says it was reported |
| `WatchdogHistory.OutageTimerAdvances` | src/pz_watchdog/engine.py:107-125 | the outage timer runs exactly while an outage is open |
| `WatchdogHistory.ShutdownFollowsIdleInterval` | src/pz_watchdog/engine.py:78-142 | the end-to-end idle bound: before a shutdown call every observation was a known zero for tick times spanning the idle timeout, and from the first answer to the last final check at least idle timeout minus the longest query plus the final pauses went by |
| `WatchdogHistory.ShutdownsNeedFreshIntervals` | src/pz_watchdog/engine.py:127-153 | two shutdown calls are separated by a break and a full idle interval, so an interval is reported at most once |
| `WatchdogHistory.RestartsNeedFreshOutages` | src/pz_watchdog/engine.py:96-125 | a restart follows consecutive unknown ticks with an unhealthy or stopped service that span the outage timeout |
| `WatchdogHistory.ReactionsAreSpaced` | src/pz_watchdog/engine.py:96-153 | with a monotone clock restarts and shutdown calls are a full timeout apart |
| `WatchdogHistory.DisruptionsAreEarned` | src/pz_watchdog/cli.py:104-108 | over a whole run every poweroff command in the log stands right behind a complete guarded chain, made by a reaction of one tick, at whose end an idle interval ends; every restart command is the first effect of a reaction at whose tick an outage interval ends |
| `WatchdogHistory.IdleSpanWasAnnounced` | src/pz_watchdog/rcon.py:89-98 | in an idle interval every observation, the final checks included, was announced by an answer that lists nobody |
| `Engine.WatchdogEngine.TimersExcludeEachOther` | src/pz_watchdog/engine.py:53-62 | the two timers never run together |
| `Engine.WatchdogEngine.FinalChecks` | src/pz_watchdog/engine.py:127-141 | stops at the first check that is not a known zero, each after its delay |
| `Engine.WatchdogEngine.FinalShutdownValidation` | src/pz_watchdog/engine.py:127-148 | a shutdown call exactly when all checks pass; only a dry run keeps the interval open |
| `Engine.WatchdogEngine.HandleEmpty` | src/pz_watchdog/engine.py:65-94 | starts the timer, waits, or validates |
| `Engine.WatchdogEngine.HandleUnknown` | src/pz_watchdog/engine.py:96-125 | always clears the idle timer; restarts exactly when the outage lasted |
| `Engine.WatchdogEngine.Tick` | src/pz_watchdog/engine.py:50-63 | every tick keeps the whole history justified and adds exactly its own effects to the log |
| `Engine.RunWatchdog` | src/pz_watchdog/cli.py:104-108 | any number of polls of a fresh engine against any environment: every disruption in the log is earned by the tick that stands at its position, and every idle interval was announced |
| `Rcon.RconSession.Query` | src/pz_watchdog/rcon.py:87-100 | a count comes from a readable response and from the first one; unknown means every attempt failed; the time stays within the longest query and covers the pause between any two attempts |
| `Rcon.RconSession.CountWasAnswered` | src/pz_watchdog/rcon.py:89-98 | a count, a zero in particular, comes from no answer but one that announces it and lists exactly that many names |
| `Rcon.RconSession.Save` | src/pz_watchdog/rcon.py:110-125 | confirmed exactly by the first recognized confirmation, with a pause between any two attempts |
| `Rcon.LongestRequestIs` | src/pz_watchdog/rcon.py:87-100 | the longest query is attempts times the timeout plus the pauses between them |
| `Service.DockerComposeService.HealthCheck` | src/pz_watchdog/service.py:112-130 | the health follows from one identification and one inspection of that container |
| `Service.DockerComposeService.WaitUntilHealthy` | src/pz_watchdog/service.py:132-138 | true only when the last look found the service healthy, false only when none did until the deadline |
| `Service.DockerComposeService.Restart` | src/pz_watchdog/service.py:140-150 | recovered if and only if the command succeeded and a look before the deadline found the service healthy; nothing else disruptive happens |
| `Service.DockerComposeService.GracefulStop` | src/pz_watchdog/service.py:152-188 | true exactly for a clean stop of the container first identified; a stale verification never survives |
| `Service.DockerComposeService.IsStopped` | src/pz_watchdog/service.py:202-222 | true exactly when a fresh look finds the verified container cleanly exited, or nothing was verified and no container or only a cleanly exited one exists |
| `Shutdown.ShutdownCoordinator.PlayersAllowShutdown` | src/pz_watchdog/shutdown.py:125-133 | unknown never allows |
| `Shutdown.ShutdownCoordinator.PowerOffHost` | src/pz_watchdog/shutdown.py:55-78 | eligibility is read again right before the command |
| `Shutdown.ShutdownCoordinator.Execute` | src/pz_watchdog/shutdown.py:91-123 | completed if and only if the effects are the complete chain of eleven steps and a successful poweroff, for every sequence of answers; no poweroff elsewhere, a dry run does nothing, and a verified stop that is not followed by a poweroff is followed by a start |
| `PlayerCount.ListingReadsBack` | src/pz_watchdog/rcon.py:65-77 | a listing of plain names reads back as their number exactly when its header tells the truth |
| `PlayerCount.CountIsExact` | src/pz_watchdog/rcon.py:65-77 | a count is read exactly when the first line announces it and that many list lines follow |
| `PlayerCount.ReadersAgree` | src/pz_updater/core.py:718-729 | both readers agree on every response, although one stops at a list that does not fit and the other tries the next header |
| `Vdf.ReadTokens` | src/pz_updater/core.py:282-291 | the scan yields the token sequence of the text without control sequences |
| `Vdf.ParseObject` | src/pz_updater/core.py:294-314 | the index loop with its recursion returns what the recursive grammar reads at that index |
| `Vdf.ParsesExactlySpellings` | src/pz_updater/core.py:294-314 | parsing gives an object and an index exactly when the tokens in between spell that object and it has unique keys, no brace as key and no opening brace as value |
| `Vdf.ClosingBraceIsAValue` | src/pz_updater/core.py:304-308 | a closing brace is read as a value, so braces need not balance |
| `Vdf.ParseRoot` | src/pz_updater/core.py:317-323 | the loop returns the object at the first opening of the root |
| `Vdf.FirstRootDecides` | src/pz_updater/core.py:317-323 | only what is spelled at the first opening of the root counts |
| `Vdf.NoRootNoResult` | src/pz_updater/core.py:317-323 | without an opening of the root there is no object |
| `Vdf.NestedString` | src/pz_updater/core.py:326-334 | the loop over the path agrees with the nested lookup |
| `Vdf.ParseAppInfoBuild` | src/pz_updater/core.py:337-342 | the build id is the positive decimal at the given branch |
| `VdfPrinting.TwoPassesAreOne` | src/pz_updater/core.py:289 | the two replacements equal one pass over the escape pairs, for every string body |
| `VdfPrinting.QuotedTokenIsItsBody` | src/pz_updater/core.py:285-290 | every quoted token of any text is the one-pass unescaping of its body |
| `VdfPrinting.BodyIsRead` | src/pz_updater/core.py:285 | a quoted string ends at its first bare quote |
| `VdfPrinting.RoundTrip` | src/pz_updater/core.py:282-323 | printing and parsing, in any layout, gives the object back if and only if the text holds no control sequence |
| `VdfPrinting.PlainStringsRoundTrip` | src/pz_updater/core.py:283-291 | which is so when no string holds the two characters that open one |
| `VdfPrinting.OpenedSequenceSwallowsQuotes` | src/pz_updater/core.py:283 | strings without a complete control sequence are not enough |
| `VdfPrinting.BuildIsReadBack` | src/pz_updater/core.py:337-342 | a printed build id is read back |
| `IniMerge.MergeManaged` | docker/entrypoint.sh:147-191 | the awk program over both files, with its NR and FNR counters, computes the merge |
| `IniMerge.MergeInventsNothing` | docker/entrypoint.sh:157-188 | every line of the result comes from one of the files |
| `IniMergeLaws.MergeKeeps` | docker/entrypoint.sh:166-188 | unmanaged lines survive in order and number, managed lines read as rendered, and a managed key occurs once if the file had it and otherwise as often as it was rendered |
| `IniMergeLaws.CommentsAreNotReplaced` | docker/entrypoint.sh:158-178 | a comment that looks like an assignment is never replaced |
| `IniMergeLaws.SecondMergeChangesNothing` | docker/entrypoint.sh:166-188 | merging twice equals merging once if and only if every key rendered more than once was in the file |
| `IniMergeLaws.InstalledFileIsKept` | docker/entrypoint.sh:152-155 | an installed file survives the next merge if and only if no key was rendered twice |
| `IniMergeLaws.EmptyRenderingKeepsSettingsOnly` | docker/entrypoint.sh:157-165 | an empty rendering leaves a file alone if and only if it consists of settings and equal keys have equal lines |
| `StartWrapper.Wrap` | src/pz_updater/core.py:541-609 | accepts exactly the scripts with one line of each kind in order and nothing after the exit, and changes exactly two lines and one insertion |
| `WrapperMeaning.WrapperKeepsTheStatus` | src/pz_updater/core.py:594-609 | on the text of any accepted script: with a working probe the same commands run and the status of the game comes out instead of 0; without one it is 1 |
| `WrapperMeaning.GameStatusIsReported` | src/pz_updater/core.py:598-609 | the same on the parts of the script |
| `WrapperMeaning.FailedProbeIsRefused` | src/pz_updater/core.py:598 | after a failed probe the commands behind the message are lost, which is none exactly when only blank and comment lines stand there |
| `WrapperMeaning.RewritingIsWrapping` | src/pz_updater/core.py:594-609 | the rewritten lines mean the wrapped program of the same parts |
| `LauncherArguments.Configure` | src/pz_updater/core.py:511-538 | accepts exactly one maximum and at most one initial heap size, and writes both in their places |
| `LauncherArguments.ConfiguringKeepsOthers` | src/pz_updater/core.py:523-538 | exactly one of each remains, and all other arguments are kept in order |
| `LauncherArguments.ConfiguringAgainChangesNothing` | src/pz_updater/core.py:523-538 | a second configuration with the same sizes changes nothing |

## Left out

- GameUpdating.GameUpdater.RemoveTree: a path that is neither deleted nor kept is one that is no longer a release; which files survive in it is not modelled.
- GameUpdating.GameUpdater.WriteRecord: reads of the small files succeed, and a rename that was reported as landed is not lost by a later power failure.
- GameUpdating.GameUpdater.PrepareStart: only the fields that some branch reads are kept of the record; timestamps, detail texts and results are not.
- Deployment.Deployer.DeployCommit: a Git checkout either happens or does not, start authorization and the transient guardian unit are answers of the surroundings, and malformed marker files are not modelled.
- Deployment.Deployer.CutOver: on a `Stray` host only the order of the markers is followed, and nothing is promised about environments.
- Rcon.RconSession.Query: a request never takes longer than its timeout.
- StartWrapper.Wrap: digits, letters and spaces are those of ASCII and Latin-1, and a line holds no line break of its own.
- WrapperMeaning.WrapperKeepsTheStatus: lines of the script that are no lifecycle lines are taken as commands that neither leave the script, nor open or close a branch, nor touch PZ_EXIT_CODE, nor read the status before them.
- IniMerge.MergeManaged: a file is the sequence of its lines; permissions and the temporary file are not modelled.
- Vdf.ParseAppInfoBuild: decimal digits are those of ASCII.
- Running SteamCMD, Docker, systemctl, Git, tar and checksums: each is an answer or one step that may fail.
- The transaction lock and the host lifecycle lock: one updater call at a time is assumed, and `StartContainer` holds from the start to the launch.
- Symbolic links and malformed pointers in the installation root, which the code refuses.
- Names of release directories are never reused; collisions of generated names are not modelled.
- Failure to create the `releases` directory itself, backup retention, free-space arithmetic and the world-state scan.
- Progress messages of the watchdog engine and its interval, metrics, status output and configuration parsing.
- The TCP-only service, which never restarts or stops anything.
- `read_installed_metadata`, which looks up further fields of the same parsed object.
- The JSON text of the launcher document around its two fields.
- Terraform, cloud-init, PowerShell helpers, Dockerfiles and the host backup script.
