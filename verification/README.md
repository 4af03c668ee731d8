# A verified model of the process manager

The program supervises services: it starts them in dependency order, watches them, restarts
them with growing delays, reloads its configuration while they run and stops them in reverse
order. This project models that supervisor and the parts around it that carry a promise of
their own, and proves what they promise for every input and every run.

**The supervisor.** `ServiceSpec.dfy` and `ManagerSpec.dfy` say what each call does, as functions on
the fields and on a log of every interaction with the operating system. `Service.dfy` and
`ServiceManager.dfy` are the classes that assign those fields and loop over the services the way the
program does; each method is proved equal to its function. The operating system is the class
`Launching.Launcher`: what the n-th launch or poll answers is arbitrary, so every statement
holds for every launch failure, crash and exit. `Lifecycle.dfy` follows one process through the log,
`MicroSteps.dfy` shows that every call is a sequence of small steps that keep the invariant, and
`Runs.dfy`, `Reload.dfy` and `Supervision.dfy` carry it over whole runs. `Shutdown.dfy` and `StopOrder.dfy`
are about the order of stops, `Deadline.dfy`, `Schedules.dfy`, `Outlasting.dfy`, `RestartBudget.dfy` and
`Timing.dfy` about time, `StartOrder.dfy` and `Waiting.dfy` about starting. What a call comes to, in terms of
the services before and after it, is in `Exits.dfy`, `Heartbeats.dfy` and `Outcomes.dfy` for one service and
series of calls on it, in `SecondLoop.dfy` for a tick, `Starts.dfy`, `Execution.dfy` and `NamedCommands.dfy` for
starts and commands, `ReloadStarts.dfy` and `Undisturbed.dfy` for a reload and `EveryService.dfy` for the calls that
go over all services. `Witnesses.dfy` and `Overruns.dfy` hold concrete runs in which something one might
expect does not hold. Time is in milliseconds.

**The configuration.** `Validation.dfy` is the check of a parsed configuration with its search for
dependency cycles (`Graphs.dfy` says what a cycle is); `ArgumentQuoting.dfy` has the two scanners that
must agree on quotes, `ArgumentPieces.dfy` what they make of arguments as people write them, `PlainValues.dfy`
the reading of values that are not split.

**Round trips and fast forms.** `WindowsQuoting.dfy`, `Wire.dfy` with `Utf8.dfy`, `HealthRecords.dfy`,
`Reports.dfy` and `Commands.dfy` show that what is written is read back, `Protocol.dfy` that it stands where
the tables of the published protocol say, and `Payloads.dfy` what is made of any payload by those tables.
`ProcessTable.dfy` and `GpuUsage.dfy` show that two loops compute a least closed set and a sum of maxima.
`ReportBuilder.dfy` ties the two reports to the service they show.

Where the code and what one would expect of it differ, the model follows the code:

- A heartbeat that stays away during a shutdown begins a stop at once, also while services that depend on
  this one are still live (`manager/src/Service.cpp:523-528`). `StopOrder.TickStopsExactly` says exactly which
  services a tick of a shutdown begins to stop, `StopOrder.ShutdownKeepsOrder` that over the whole shutdown
  only such stops are out of order, and `Witnesses.LateBeatBreaksOrder` is a run with one.
- The count of missed heartbeats is cast to a 32-bit int (`manager/src/Service.cpp:515`), so a silence of 2^31
  intervals counts as none. With regular ticks the service is unhealthy long before; the count gets there
  when a reload switches heartbeats on late, since the silence is then counted from the launch.
  `Witnesses.LateHeartbeats` is such a run, `Heartbeats.OverdueExactly` the exact condition.
- A reload leaves the restarts a service already has in its history (`manager/src/Service.cpp:352-355`), so with
  a smaller maximum or a longer window there may be more of them than is now allowed.
  `Overruns.OverrunsExactly` says which changes never lead to that: exactly those that allow as many restarts or
  more in a window that is no longer. `Overruns.MaximumOverruns` and `Overruns.WindowOverruns` are runs with the
  others, and `Timing.LaterRunKeepsBudget` says what holds after any of them.
- The daemon counts only listed services when it sets the time for a shutdown, and cuts the sum at a cap
  (`manager/src/Daemon.cpp:64-73`, `manager/src/Daemon.cpp:417`). `Witnesses.DroppedOutlastsBudget` and
  `Witnesses.CapIsTooShort` are runs, at the pace at which the daemon polls, in which that is too short;
  `Witnesses.ListedIsInTime` shows that at this pace the same service is in time when it is listed and the cap
  is not reached.
  `Timing.DaemonDeadlineSuffices` and `Timing.DaemonChainsSuffice` say when it is enough,
  `Timing.DaemonBudgetIsExceeded` when it is not.
- `StartAutostart` checks neither for a shutdown nor for services being removed
  (`manager/src/ServiceManager.cpp:62-74`). Runs call it only before either.
- `AggregateGpuProcesses` is the sum over devices only as long as no sum on the way is negative.
  `GpuUsage.FiguresAreSums` has the exact condition, `GpuUsage.NegativeReadingIsLost` an input that breaks it.
- The restart count of the reports is documented as automatic restarts plus restart commands
  (`docs/protocol.md:40`). A restart command counts only when it is queued behind a stop and no later order replaces
  it; for a service that is not up it is a start and does not count (`manager/src/Service.cpp:179-183`).
  `Exits.RestartsAreCounted` has the exact condition.
- A reload replaces the settings of a service at once (`manager/src/Service.cpp:352-355`): the next launch is
  not the only thing they reach, since a stop or a heartbeat check that follows uses them too. The process
  itself is left alone (`Undisturbed.ReloadTouchesNothingListed`).
- `EncodeReport` writes any number of records, `DecodeReport` refuses more than 100000 of a kind.
  `Reports.OwnReportComesBack` has both cases.

## Model

| member | source | states |
|---|---|---|
| Supervision.EveryRunIsSafe | manager/src/ServiceManager.cpp:201-253 | over any run of commands, reloads, ticks, exits and shutdown calls: every launch found all its dependencies running; each process is launched once, gets at most one stop request and at most one kill by the clock, that one never before the stop deadline, and nothing after its exit; every service keeps its invariant; dropped services are quiet |
| Supervision.EveryRunKeepsOneProcessEach | manager/src/Service.cpp:367-400 | in any run a live process is held by a service, and two live processes never belong to one service |
| Supervision.EveryRunStaysAcyclic | manager/src/ServiceManager.cpp:143-199 | after any reloads the dependencies among everything held, dropped services with their old settings included, have no cycle |
| Supervision.ShutdownLaunchesNothing | manager/src/ServiceManager.cpp:292-314 | once shutting down, no further call of any kind launches anything |
| Supervision.DroppedStaysDown | manager/src/ServiceManager.cpp:176-186 | a dropped service is not launched again by any run that does not list it again |
| Supervision.DroppedLeavesOnce | manager/src/ServiceManager.cpp:231-252 | at a tick the name is reported exactly once if its dropped service has stopped by then, and otherwise not; no service of that name is left, and every other service stays |
| Supervision.DroppedReportedOnce | manager/src/ServiceManager.cpp:231-252 | over any run that does not list the name again, it is reported exactly once if its service has left, and not at all otherwise |
| Supervision.LoadIsManaged | manager/src/ServiceManager.cpp:52-60 | loading a valid configuration gives one stopped service for each entry, in order, and establishes the invariant that every run keeps |
| Lifecycle.StepEvolves | manager/src/Service.cpp:97-295 | every call on a service keeps its fields in agreement with the log: the process it holds is in the phase its state says, and no interaction comes out of turn |
| Lifecycle.StepLaunches | manager/src/Service.cpp:402-413 | a call launches only when told that every dependency is running, and a tick only when the manager allows it |
| MicroSteps.MicroKeepsInv | manager/src/ServiceManager.cpp:201-253 | each small step of the manager keeps the invariant: unique names, no process held twice or forgotten, safe launches, quiet dropped services |
| MicroSteps.ReachesLaunchesNothing | manager/src/ServiceManager.cpp:203-228 | no sequence of small steps launches anything during a shutdown |
| Reload.ApplyRefines | manager/src/ServiceManager.cpp:143-199 | after a reload the services that stay are exactly the listed names with exactly the listed settings; active before + added = listed + removed; the changed count is the number of services that stay and have other settings; invariant, closed dependencies and the absence of cycles are kept |
| Reload.ReloadKeepsAcyclic | manager/src/ServiceManager.cpp:143-186 | an acyclic old graph and an acyclic new list give an acyclic graph of everything held |
| ReloadStarts.ReloadGoes | manager/src/ServiceManager.cpp:143-199 | after a reload outside a shutdown: each listed name that was unknown or being removed and has autostart has its process launched, waits for a dependency or failed a launch that was tried, as its state after the merge demands; what neither is one nor is needed by one, directly or through others, is not launched; listed services have their settings, dropped ones are stopped, and nothing else changes |
| ReloadStarts.ReloadCounts | manager/src/ServiceManager.cpp:143-199 | the summary counts as added the entries that were unknown or being removed, as removed the services that stayed before and are not listed, as changed those that stay with other settings |
| ShutdownOrder.StopsExactlyTheFree | manager/src/ServiceManager.cpp:292-305 | a live service that is not stopping is asked to stop exactly when no live service depends on it directly, and that still holds after the loop |
| EveryService.ShutdownSettles | manager/src/ServiceManager.cpp:292-305 | a shutdown leaves alone what a live service needs and what is stopping or stopped, and stops everything else, services that wait or would be retried included |
| EveryService.ShutdownTickSettles | manager/src/ServiceManager.cpp:224-228 | so does the second loop of every tick of a shutdown, by what the first one left |
| EveryService.KillAllKillsEach | manager/src/ServiceManager.cpp:307-314 | every process that is live is sent a kill, every service is stopping or stopped and nothing stays queued |
| EveryService.SampleReachesEach | manager/src/ServiceManager.cpp:255-261 | each service shows its own reading exactly if it has a process, and nothing else about it changes |
| ShutdownOrder.StopAllNeverStalls | manager/src/ServiceManager.cpp:292-305 | after StopAll, a live service implies a stopping one |
| ShutdownOrder.TickNeverStalls | manager/src/ServiceManager.cpp:224-228 | the same after every tick of a shutdown |
| StopOrder.TickStopsExactly | manager/src/ServiceManager.cpp:201-229 | a tick of a shutdown begins to stop exactly the services that have lost their heartbeats when their turn comes and are set up to be restarted for it, and those still live that no live service depends on |
| StopOrder.ShutdownKeepsOrder | manager/src/ServiceManager.cpp:292-305 | over a whole shutdown, whatever commands, ticks, crashes and kills follow, each stop request finds no live dependent, unless heartbeats were lost; without exception when no service is set up to be restarted for that |
| Witnesses.LateBeatBreaksOrder | manager/src/Service.cpp:523-528 | a run from a valid configuration in which a service is asked to stop while another that depends on it is live |
| Deadline.ShutdownMeetsDeadline | manager/src/ServiceManager.cpp:201-229 | ticks at most d apart and killed processes gone by the next poll: all services are down once the ticks covered the time left at StopAll, which is what each stop in progress still has, the stop timeout of every other live service, and 2d each; whatever crashes, commands and heartbeats come in between |
| Deadline.ShutdownWithinTimeouts | manager/src/ServiceManager.cpp:201-229 | the same with the sum of stop timeout + 2d over the live services, when no stop in progress was given more than that timeout |
| Deadline.ManagerTickSpends | manager/src/Service.cpp:267-275 | while a service is live, every tick of a shutdown uses up at least the time since the last one from the time left to all services |
| Schedules.EveryStopIsOnTime | manager/src/ServiceManager.cpp:201-229 | every service is down by the time it has in any schedule that leaves each live service its own stop timeout, and 2d, after the live services that need it |
| Schedules.ShutdownTakesLongestChain | manager/src/ServiceManager.cpp:201-229 | the sharp form of the deadline: the ticks need to cover only the greatest sum of remaining times along a chain of live services in which each needs the one before, since others stop side by side |
| Schedules.ChainWithinTotal | manager/src/ServiceManager.cpp:201-229 | no such chain is longer than the time left to all services together |
| Outlasting.OwnStopTimeIsNeeded | manager/src/Service.cpp:267-275 | the other side: when no process exits that has not been killed, a live service is live at every tick before its own stop time is over, whatever commands, heartbeats and measurements come in between |
| Timing.ShutdownBudget | manager/src/Daemon.cpp:64-73 | the loop gives the sum of the stop timeouts, the kill grace and the margin, capped, which the next rows are about |
| Timing.DaemonDeadlineSuffices | manager/src/Daemon.cpp:64-73 | after any run, reloads included, the daemon's budget is enough for a shutdown if it covers, for every live service, dropped ones included, the longest stop timeout listed under its name and two tick gaps |
| Timing.DaemonChainsSuffice | manager/src/Daemon.cpp:64-73 | the sharp form: it is enough that the budget covers those sums along every chain of live services in which each needs the one before |
| Timing.DaemonBudgetIsExceeded | manager/src/Daemon.cpp:64-73 | it is not enough for a live service whose own stop time is longer, when no process exits that has not been killed |
| Timing.SettledDeadlineSuffices | manager/src/Daemon.cpp:64-73 | it is enough if no dropped service is still live, no stop timeout was lowered, two tick gaps per listed service fit into the grace it adds and the cap is not reached |
| Witnesses.DroppedOutlastsBudget | manager/src/Daemon.cpp:417 | with a tick every 50 milliseconds, a service with a stop timeout of a minute, dropped by a reload, is live when the seven seconds for an empty list are over |
| Witnesses.CapIsTooShort | manager/src/Daemon.cpp:72 | with a tick every 50 milliseconds, a service with a stop timeout above the cap is live when the cap is reached |
| Witnesses.ListedIsInTime | manager/src/Daemon.cpp:48 | at that pace a service that is listed, with any stop timeout for which the cap is not reached, is down within the budget |
| Timing.EveryRunKeepsBudgets | manager/src/Service.cpp:476-496 | in every run whose reloads only loosen the maximum and the window of a service, with a clock that does not run backwards: a closed window as long as its own holds at most its maximum of restarts scheduled since the history was cleared |
| Timing.ListsLoosenRun | manager/src/ServiceManager.cpp:143-174 | lists that only loosen what earlier lists say of a name make such a run |
| Overruns.OverrunsExactly | manager/src/Service.cpp:352-355 | from one maximum and window to another, no run ever schedules more restarts in a window than the new settings allow if and only if the change loosens: at least the old maximum, unless that was none, and no longer window |
| Overruns.MaximumOverruns | manager/src/Service.cpp:352-355 | for every smaller maximum, a run from a valid configuration that ends with one restart too many |
| Overruns.WindowOverruns | manager/src/Service.cpp:352-355 | for every longer window, a run that ends with one restart too many |
| Timing.LaterRunKeepsBudget | manager/src/Service.cpp:352-355 | from any moment of any run on, any change of maximum and window before it included: the same for the restarts scheduled after those the service had at that moment |
| RestartBudget.RestartOutcome | manager/src/Service.cpp:476-496 | a restart is refused exactly when the list already holds the maximum for the window ending now; otherwise it is due after min(delay times two to that number, largest delay); under unchanged settings that number counts all restarts of the window |
| RestartBudget.WindowHoldsFewRestarts | manager/src/Service.cpp:478-489 | the pruned list bounds every closed window, not only the one that ends now, for all restarts scheduled since the settings were last changed |
| RestartBudget.StepKeepsBudget | manager/src/Service.cpp:97-120 | every call on a service keeps its restart budget, a change of settings included that loosens maximum and window; only a start from stopped, failed or backoff clears it |
| RestartBudget.LoosensExactly | manager/src/Service.cpp:352-355 | every service within its budget stays within it under new settings if and only if these loosen the old ones |
| Services.Service.Backoff | manager/src/Service.cpp:34-42 | the doubling loop gives the delay of the budget and never passes through more than twice the largest delay |
| RestartBudget.ExitOutcome | manager/src/Service.cpp:452-474 | after an exit nobody ordered: stopped or failed as the exit was clean or not, unless the policy wants a restart; then failed exactly when the window is full, and due after the doubled delay otherwise |
| Exits.SilenceOutcome | manager/src/Service.cpp:425-439 | after a stop for lost heartbeats the exit decides a restart when launches are allowed: failed exactly when the window that ends now is full, otherwise in backoff with one more restart in the history, due after min(delay times two to the restarts in the window, largest delay); without permission it is stopped and the history unchanged |
| Outcomes.SilenceRestarts | manager/src/Service.cpp:425-439 | the same from the tick that finds the heartbeats lost, over any series of calls without an order, new settings among them, to the tick that finds the process gone |
| Exits.TickAfterExit | manager/src/Service.cpp:226-295 | a tick that finds the process gone goes on with what that leaves: a restart due at once is carried out, and what rests stays |
| Exits.LaunchOutcome | manager/src/Service.cpp:367-400 | a launch that works: the process, its clocks and its report begin now, with nothing counted against it |
| Exits.RefusedLaunchOutcome | manager/src/Service.cpp:367-400 | a launch that is refused counts as an unclean exit with code 127: failed for good when the policy is never, and otherwise decided as a restart by the window, on-failure included |
| Exits.ExitShows | manager/src/Service.cpp:415-424 | every exit shows in the report with its time and its code, or minus its signal, unless a refused launch in its place shows as code 127 |
| Exits.TickAtRest | manager/src/Service.cpp:283-295 | a tick does nothing to a service without a process, unless a scheduled restart is due and allowed: that one counts and is launched, or waits for its dependencies |
| Exits.RestartsAreCounted | manager/src/Service.cpp:440-447 | the restart count grows by one for a restart queued behind a stop and by one for a scheduled one that a tick carries out, and by no other call |
| RestartBudget.HistoryOnlyGrows | manager/src/Service.cpp:97-120 | over every call the history grows by the restarts scheduled now and is begun anew only by a start from stopped, failed or backoff, never from waiting or stopping |
| Outcomes.LastOrderWins | manager/src/Service.cpp:425-450 | over any series of ticks, orders, new settings, heartbeats and measurements while a service stops, only the last order counts: when a tick then finds the process gone, the service is launched again with the last settings, or waits, exactly when that order was a start or restart and launching is allowed |
| Outcomes.LastOrderIsKept | manager/src/Service.cpp:106-110 | over such a series nothing is launched or asked to stop, the history of restarts stays as it is, and exactly the last order stays queued, as a restart exactly if it was one |
| Outcomes.BeatKeepsHealthy | manager/src/Service.cpp:206-224 | after a beat, over any series of ticks and calls up to the next one, new settings for other things among them, a service is running exactly as long as no tick found the beat overdue, and unhealthy or stopping from then on |
| Outcomes.GraceVerdict | manager/src/Service.cpp:226-266 | without heartbeats, over any series of ticks and calls after the launch, new settings for other things among them, a service is starting until the first tick at or past its grace time and running from then on |
| Outcomes.KillVerdict | manager/src/Service.cpp:267-275 | over any series of ticks, orders and new settings after a stop request, the process is killed exactly once, at the first tick at or past the deadline, and not at all when none comes or the stop signal was a kill already; it is reported as stuck exactly when a tick comes after the grace time of that kill |
| Outcomes.RestartComesInTime | manager/src/Service.cpp:283-289 | after a restart is scheduled, no series of ticks that are too early or not allowed to launch, with other calls and new settings among them, launches anything; the first tick that is due launches with the last settings, or waits for the dependencies, at the delay doubled by the restarts in the window |
| Heartbeats.HeartbeatVerdict | manager/src/Service.cpp:510-530 | a tick makes a service unhealthy, or stops it for a restart, exactly when its beat is overdue |
| Heartbeats.OverdueExactly | manager/src/Service.cpp:512-516 | overdue means that the whole intervals since the last beat, modulo 2^32, are at least the tolerance and below 2^31 |
| Heartbeats.OverdueInRange | manager/src/Service.cpp:512-516 | before 2^31 intervals have passed, that is tolerance times interval or longer |
| Heartbeats.LongSilenceIsMissed | manager/src/Service.cpp:515 | a silence of 2^31 intervals is not overdue, for any interval and tolerance |
| Heartbeats.TickCountsBeats | manager/src/Service.cpp:510-530 | a tick shows how many whole intervals have passed since the last beat and changes nothing else in the report; one that is unhealthy already is not asked to stop |
| Heartbeats.TickSeesProcess | manager/src/Service.cpp:237-266 | without heartbeats a tick finds the process alive now, with nothing missed, and the service runs unless it is within its grace time |
| Witnesses.LateHeartbeats | manager/src/Service.cpp:511-519 | a run, whatever ticks there are in it, in which a reload switches heartbeats on: the tick after it finds the service unhealthy when it was launched less than 2^31 intervals ago, and running when it was launched 2^31 intervals ago |
| Execution.WildcardReachesAll | manager/src/ServiceManager.cpp:104-128 | a command for all services reaches every one that is not being removed: a start leaves what is up untouched, a restart stops it with a start queued, either queues a start behind a stop in progress, and everything else afterwards has a process of its own launched by this command, waits for a dependency that is not running, or failed a launch that this command tried; a stop leaves each stopping or stopped with nothing queued |
| Execution.RefusalsChangeNothing | manager/src/ServiceManager.cpp:76-141 | unknown, refused, malformed and misaddressed commands are told apart exactly, and change nothing at all |
| Execution.CommandUndoesNothing | manager/src/ServiceManager.cpp:104-129 | no command, the one for all services included, asks a process to stop that it launched itself |
| Execution.CommandLaunchesEachOnce | manager/src/ServiceManager.cpp:106-128 | one command launches each service at most once |
| NamedCommands.StopNamed | manager/src/ServiceManager.cpp:130-140 | byte 79 with a name: one stop request if the service is up, none otherwise; it is stopping or stopped with nothing queued, no other service changes, and the answer says whether there was anything to do |
| NamedCommands.StartNamed | manager/src/ServiceManager.cpp:424-431 | bytes 78 and 81 with a name: what is up stays, or stops with a restart queued; what is stopping has the start queued; everything else has a new process, waits for a dependency or failed a launch that was tried; only what it needs is started besides, and the answer is a failure exactly when its own launch was refused |
| NamedCommands.HeartbeatNamed | manager/src/Service.cpp:206-224 | byte 90 with a name, also while shutting down: an up service is running with its last beat now and none missed; any other refuses it as an invalid state, and nothing changes |
| NamedCommands.AllNamed | manager/src/ServiceManager.cpp:104-128 | a command for all is a series of turns, each doing what the command for that service alone does; passed over are only services being removed and those an earlier turn started because they were needed; the answer is a failure exactly when some service failed on its own turn |
| NamedCommands.OtherBytes | manager/src/ServiceManager.cpp:76-141 | every other byte is unknown and changes nothing |
| Undisturbed.StartTouchesNothingLive | manager/src/ServiceManager.cpp:424-457 | a start with dependencies leaves every live process and its state alone |
| Undisturbed.ReloadTouchesNothingListed | manager/src/ServiceManager.cpp:143-199 | a reload leaves the process and state of every live service alone that stays listed, whatever settings changed |
| WaitingProgress.WaitingCannotDeadlock | manager/src/ServiceManager.cpp:208-223 | without a cycle, when services wait and nothing is on its way up or down after the first loop, the tick leaves strictly fewer waiting |
| WaitingProgress.EveryRunLetsWaitersProceed | manager/src/ServiceManager.cpp:380-410 | the same at every tick of every run from a valid configuration |
| SecondLoop.EachIsTicked | manager/src/ServiceManager.cpp:203-206 | the first loop of a tick ticks every service exactly once, in order and as it was before, with the time, the permission to launch and whether all its dependencies are running at its turn |
| SecondLoop.TickDecides | manager/src/ServiceManager.cpp:208-223 | in a tick outside a shutdown each waiting service is launched, or its launch refused, exactly when all it depends on is running at its turn; it is given up, with no launch tried, exactly when something it depends on is missing, failed or stopped; it waits on otherwise, and every other service stays as it is |
| SecondLoop.EveryRunDecides | manager/src/ServiceManager.cpp:380-410 | the same verdict at every tick of every run from a valid configuration |
| Starts.AutostartStarts | manager/src/ServiceManager.cpp:62-74 | every stopped service with autostart has its process launched, waits for a dependency or failed a launch that was tried; a service that neither is one nor is needed by one, directly or through others, is not touched or launched |
| StartOrder.StartsExactlyWhatIsNeeded | manager/src/ServiceManager.cpp:433-457 | on any graph, cyclic or not, Start is called once on each other service that is needed directly or through others, and on no other |
| StartOrder.StartsInDependencyOrder | manager/src/ServiceManager.cpp:424-457 | without a cycle every service is started after everything it depends on itself, and all that service i depends on is started |
| Services.Service.constructor | manager/src/Service.cpp:45-49 | a new service is stopped, with nothing queued |
| Services.Service.Start | manager/src/Service.cpp:97-129 | keeps the invariant and does to fields and log what the run properties are proved about: refused when up, queued while stopping, otherwise launched or waiting, with the history cleared except from waiting |
| Services.Service.Stop | manager/src/Service.cpp:131-157 | keeps the invariant; only a process that is not stopping yet is asked to stop, and anything queued is dropped |
| Services.Service.Restart | manager/src/Service.cpp:159-184 | keeps the invariant; a running service is stopped with a start queued behind the stop |
| Services.Service.Kill | manager/src/Service.cpp:186-204 | keeps the invariant; kills at once and leaves nothing queued |
| Services.Service.Heartbeat | manager/src/Service.cpp:206-224 | keeps the invariant; accepted only from a service that is up, which it makes running |
| Services.Service.Tick | manager/src/Service.cpp:226-295 | keeps the invariant over an exit, a timeout, a kill, a grace period and a restart delay |
| Services.Service.HandleExit | manager/src/Service.cpp:415-462 | restores the invariant after the process is gone, with the outcome that ExitOutcome, SilenceOutcome and LastOrderWins describe for an exit nobody ordered, one after lost heartbeats and one with an order |
| Services.Service.BeginStop | manager/src/Service.cpp:498-508 | keeps the invariant; one stop request with the deadline that a later kill must wait for |
| Services.Service.CheckHeartbeat | manager/src/Service.cpp:510-530 | keeps the invariant while counting missed beats and stopping an unhealthy service for a restart |
| Services.Service.ScheduleRestart | manager/src/Service.cpp:476-496 | the service rests, failed or in backoff, with the outcome RestartOutcome describes |
| Services.Service.Launch | manager/src/Service.cpp:367-400 | from a service without a process, keeps the invariant, with the outcome that LaunchOutcome and RefusedLaunchOutcome describe |
| Services.Service.Abandon | manager/src/Service.cpp:297-307 | only a waiting service is given up |
| Services.Service.Sample | manager/src/Service.cpp:309-333 | usage figures are kept only for a service with a process |
| ServiceManagers.ServiceManager.Load | manager/src/ServiceManager.cpp:52-60 | holds exactly one new service for each entry, in order |
| ServiceManagers.ServiceManager.StartAutostart | manager/src/ServiceManager.cpp:62-74 | equals the transition that AutostartStarts describes |
| ServiceManagers.ServiceManager.Execute | manager/src/ServiceManager.cpp:76-141 | equals the transition whose outcome StopNamed, StartNamed, HeartbeatNamed, AllNamed and RefusalsChangeNothing describe, with its result |
| ServiceManagers.ServiceManager.Apply | manager/src/ServiceManager.cpp:143-199 | equals the reload that ApplyRefines, ReloadGoes and ReloadCounts are about, with its summary |
| ServiceManagers.ServiceManager.Tick | manager/src/ServiceManager.cpp:201-253 | equals the transition whose second loop TickDecides describes; services keep their order, finished ones are swept out |
| ServiceManagers.ServiceManager.StopAll | manager/src/ServiceManager.cpp:292-305 | equals the transition that ShutdownSettles and the shutdown results are about |
| ServiceManagers.ServiceManager.KillAll | manager/src/ServiceManager.cpp:307-314 | equals the transition that KillAllKillsEach describes |
| ServiceManagers.ServiceManager.AllStopped | manager/src/ServiceManager.cpp:316-326 | true exactly when no service is live |
| ServiceManagers.ServiceManager.Sample | manager/src/ServiceManager.cpp:255-261 | equals the transition that SampleReachesEach describes |
| ServiceManagers.ServiceManager.Find | manager/src/ServiceManager.cpp:344-354 | the first service of that name |
| ServiceManagers.ServiceManager.DependenciesRunning | manager/src/ServiceManager.cpp:380-391 | true exactly when every dependency is held and running |
| ServiceManagers.ServiceManager.DependencyBlocked | manager/src/ServiceManager.cpp:393-410 | true exactly when some dependency is missing, failed or stopped |
| ServiceManagers.ServiceManager.DependentsStopped | manager/src/ServiceManager.cpp:412-422 | true exactly when no live service names this one as a dependency |
| ServiceManagers.ServiceManager.StartWithDependencies | manager/src/ServiceManager.cpp:424-431 | equals the start whose order StartOrder is about |
| ServiceManagers.ServiceManager.StartDependencies | manager/src/ServiceManager.cpp:433-457 | terminates on every graph and equals the traversal StartOrder is about |
| Validation.Validate | manager/src/ConfigParser.cpp:739-791 | accepts exactly the configurations with programs, sensible delays, listed dependencies, no cycle and three different endpoints; otherwise reports the first service with something wrong and its line, or a genuine cycle |
| Validation.FindCycle | manager/src/ConfigParser.cpp:723-737 | reports a cycle exactly when the graph has one, and the text is a chain of dependencies that returns to its start and meets no other service twice |
| Validation.VisitForCycle | manager/src/ConfigParser.cpp:690-721 | terminates; either finds such a chain or finishes the service after everything it depends on, leaving the path as it was |
| Validation.DescribeCycle | manager/src/ConfigParser.cpp:700-710 | writes out the path from the repeated name back to it |
| Validation.AllPlaced | manager/src/ConfigParser.cpp:718-720 | services finished each after its dependencies rule out a cycle |
| ArgumentQuoting.StripInlineComment | manager/src/ConfigParser.cpp:113-139 | the loop cuts where CutKeepsArguments says |
| ArgumentQuoting.SplitArguments | manager/src/ConfigParser.cpp:851-920 | the loop gives the arguments that LineComesBack, CommentIsCut and OpenQuoteIsRefused are about |
| ArgumentQuoting.CutKeepsArguments | manager/src/ConfigParser.cpp:113-139 | the stripper cuts exactly at the first comment character that the splitter meets outside quotes and between tokens, so a cut value still splits, into the arguments complete at the cut |
| ArgumentQuoting.WrittenComesBack | manager/src/ConfigParser.cpp:851-920 | any argument list in escaped double quotes, joined by blanks, is left whole by the stripper and split back exactly |
| ArgumentPieces.LineComesBack | manager/src/ConfigParser.cpp:851-920 | arguments written as any pieces, bare, in single quotes, or in double quotes escaped or with nothing to escape, with any blanks before, between and behind them, are split into exactly the concatenations of their pieces |
| ArgumentPieces.CommentIsCut | manager/src/ConfigParser.cpp:113-139 | a comment behind such a line is cut off and nothing else, so what is kept splits into exactly these arguments |
| ArgumentPieces.OpenQuoteIsRefused | manager/src/ConfigParser.cpp:911-914 | a text whose last piece opens a quote and does not close it has no arguments |
| PlainValues.StripWhole | manager/src/ConfigParser.cpp:91-111 | the loops cut a value that is not split where the results below say: only a quote around the whole of it protects a comment character |
| PlainValues.CutAtComment | manager/src/ConfigParser.cpp:74-84 | cuts at the first comment character that begins the text or follows a blank |
| PlainValues.Trim | manager/src/ConfigParser.cpp:61-72 | the loops leave what stands between the blanks |
| PlainValues.Unquote | manager/src/ConfigParser.cpp:142-167 | the loop takes the quotes away that QuotedComesBack puts on |
| PlainValues.QuotedComesBack | manager/src/ConfigParser.cpp:89-167 | every text in escaped double quotes comes back exactly from stripping, trimming and unquoting, whatever blanks and comment stand around it |
| PlainValues.BareComesBack | manager/src/ConfigParser.cpp:89-167 | so does a text that begins with no quote, has no blank at either end and holds no comment, quotes inside it included |
| PlainValues.SingleQuotedComesBack | manager/src/ConfigParser.cpp:89-167 | every text without single quotes comes back exactly from between them, backslashes included, whatever blanks and comment stand around it |
| PlainValues.PlainComesBack | manager/src/ConfigParser.cpp:142-167 | in double quotes a backslash that escapes nothing stays |
| PlainValues.OpenQuoteIsKept | manager/src/ConfigParser.cpp:91-111 | a quote that is never closed protects everything behind it |
| WindowsQuoting.QuoteArgument | manager/src/windows/NativeLauncher.cpp:140-175 | the nested loops write the quoted form that ArgumentsComeBack is about |
| WindowsQuoting.CommandLine | manager/src/windows/NativeLauncher.cpp:544-548 | the program name, and each argument after a space |
| WindowsQuoting.ArgumentsComeBack | manager/src/windows/NativeLauncher.cpp:139-175 | splitting by the documented backslash and quote rules gives back every argument list exactly, whether or not the program reads two quotes as one |
| WindowsQuoting.QuotesOnlyWhenNeeded | manager/src/windows/NativeLauncher.cpp:142-145 | an argument is left as it is exactly when it is not empty and has no blank, tab, line break, vertical tab or quote; otherwise it stands in quotes |
| Wire.WireWriter.PutBytes | manager/src/WireWriter.cpp:79-90 | the lowest bytes of the value, lowest first, at the offset and nothing else changed; nothing at all when they do not fit |
| Wire.WireWriter.PutText | manager/src/WireWriter.cpp:57-67 | the text cut to its field with zeros after it, and nothing else changed; nothing at all when the field does not fit |
| Wire.WireWriter.TakeBytes | manager/src/WireWriter.cpp:74-77 | hands the buffer over and leaves the writer empty |
| Wire.WireReader.GetBytes | manager/src/WireReader.cpp:83-97 | the little-endian value, zero when it does not lie within the part |
| Wire.WireReader.GetText | manager/src/WireReader.cpp:67-81 | the bytes of the field before its first NUL, as far as it lies within the part |
| Wire.ReadsBack | manager/src/WireReader.cpp:29-81 | every number, signed or not, and every text that lies within a part is read back from where it was written |
| Wire.BytesComeBack | manager/src/WireReader.cpp:83-97 | a value that fits into n bytes comes back from them |
| Wire.CutTextIsLongest | manager/src/WireWriter.cpp:57-67 | what comes back of a valid text is its longest valid prefix within the field, up to the first NUL |
| Utf8.FitUtf8 | manager/src/WireWriter.cpp:92-105 | the loop cuts where FitIsLongest says |
| Utf8.FitIsLongest | manager/src/WireWriter.cpp:92-105 | a valid text (section 4 of RFC 3629) is cut to its longest valid prefix within the budget |
| Utf8.ValidPrefix | manager/src/WireWriter.cpp:99-103 | a prefix of a valid text is valid exactly when no continuation byte follows it |
| HealthRecords.EncodeHealthRecords | manager/src/HealthRecord.cpp:60-68 | the message is the records back to back, each field at its offset |
| HealthRecords.DecodeHealthRecords | manager/src/HealthRecord.cpp:70-108 | the loop reads what the round trips are about |
| HealthRecords.RawComesBack | manager/src/HealthRecord.cpp:60-108 | every record list comes back from its message with only names cut to their field |
| HealthRecords.PrefixedComesBack | manager/src/HealthRecord.cpp:81-91 | so it does after a count, when the count is below the limit |
| HealthRecords.TooManyPrefixed | manager/src/HealthRecord.cpp:85-97 | from the limit on a counted message is refused |
| HealthRecords.FormsAreApart | manager/src/HealthRecord.cpp:79-99 | no length fits both forms, and a payload is refused exactly when it fits neither |
| Reports.EncodeReport | manager/src/DetailedReport.cpp:181-221 | the message is the header, the service records and the GPU records, each field at its offset |
| Reports.EncodeService | manager/src/DetailedReport.cpp:85-115 | appends the 368 bytes of a service record to what is written already |
| Reports.EncodeGpu | manager/src/DetailedReport.cpp:151-162 | appends the 160 bytes of a GPU record |
| Reports.DecodeReport | manager/src/DetailedReport.cpp:223-293 | the loops read what the round trips are about, and each error has its own case |
| Reports.ReadsService | manager/src/DetailedReport.cpp:117-149 | a service record is read back from where it was written, whatever follows it |
| Reports.ReadsGpu | manager/src/DetailedReport.cpp:164-177 | so is a GPU record |
| Reports.ReportComesBack | manager/src/DetailedReport.cpp:223-293 | round trip for any declared sizes and any extra bytes after the header and after every record: the same report, only texts cut to their fields |
| Reports.OwnReportComesBack | manager/src/DetailedReport.cpp:181-256 | what this version writes it reads back, unless there are more than 100000 records of a kind; then it is refused |
| Commands.EncodeCommand | manager/src/CommandMessage.cpp:38-45 | 65 bytes, each field at its offset |
| Commands.EncodeReply | manager/src/CommandMessage.cpp:61-69 | 128 bytes, each field at its offset |
| Commands.CommandComesBack | manager/src/CommandMessage.cpp:38-59 | every command comes back with its texts cut to their fields |
| Commands.ReplyComesBack | manager/src/CommandMessage.cpp:61-84 | every reply comes back with its result and its texts cut to their fields |
| Protocol.HealthMessageLies | docs/protocol.md:28-51 | each record of a health message stands 128 bytes after the one before with every field, as a plain little-endian number or zero-ended text, at the offset and with the code of the table |
| Protocol.ReportLies | docs/protocol.md:60-133 | a detailed report is the header of the table with its constants, and the service and GPU records behind it with every field at its offset and every code as listed |
| Protocol.CommandLies | docs/protocol.md:145-149 | a command stands as its table says |
| Protocol.ReplyLies | docs/protocol.md:155-168 | a reply stands as its table says, with the listed result codes |
| Payloads.AnyHealthMessage | manager/src/HealthRecord.cpp:70-108 | every payload, whoever wrote it, is read as what stands in it by the table, with or without a count before it, and is refused exactly when it has no count that fits and its length is no multiple of 128 |
| Payloads.AnyReport | manager/src/DetailedReport.cpp:223-293 | every payload is read exactly when magic, version, declared sizes, counts and length are right, and then as what stands in it by the tables; the first of these that is wrong decides the error |
| Payloads.AnyCommand | manager/src/CommandMessage.cpp:47-59 | every payload of 65 bytes is read as what stands in it, and no other is read |
| Payloads.AnyReply | manager/src/CommandMessage.cpp:71-84 | every payload of 128 bytes is read as what stands in it, an unlisted code as malformed, and no other is read |
| ProcessTables.ProcessTable.Members | manager/src/ProcessTable.cpp:24-78 | terminates on any table, parent cycles included, and gives in ascending order the least set of live processes that holds the leader and its session and is closed under live children; nothing for a leader that is not positive |
| ProcessTables.StepKeeps | manager/src/ProcessTable.cpp:57-74 | looking at one entry loses nothing and adds nothing foreign |
| ProcessTables.NearerTheEnd | manager/src/ProcessTable.cpp:57-74 | each round finds something new or uses up an entry found before |
| ProcessTables.ProcessTable.Add | manager/src/ProcessTable.cpp:13-16 | adds or replaces one process |
| GpuUsage.AggregateGpuProcesses | manager/src/GpuMonitor.cpp:384-425 | an entry for exactly the positive process ids that were read, each with the figures the results below are about |
| GpuUsage.FiguresAreSums | manager/src/GpuMonitor.cpp:410-423 | memory is the sum over devices of the largest reading; utilisation is that sum exactly when no sum on the way is negative, larger otherwise, and unknown when nothing was read |
| GpuUsage.JoinedIsSum | manager/src/GpuMonitor.cpp:384-425 | with readings that are not negative: the sums, and a negative utilisation exactly when there is no utilisation reading |
| GpuUsage.NegativeReadingIsLost | manager/src/GpuMonitor.cpp:419-422 | a negative reading on one device is not part of the total once another device follows |
| GpuUsage.OrderDoesNotMatter | manager/src/GpuMonitor.cpp:386-408 | any permutation of the readings gives the same figures for the same processes |
| ReportBuilder.BuildHealth | manager/src/ReportBuilder.cpp:92-114 | one health record for each service, in order |
| ReportBuilder.BuildServices | manager/src/ReportBuilder.cpp:129-133 | one detailed record for each service, in order |
| ReportBuilder.InvMakesReportsAgree | manager/src/ReportBuilder.cpp:33-68 | both reports show the same process, and neither shows a process, a usage flag or usage figures for a service without one |
| ReportBuilder.ReportsShow | manager/src/ReportBuilder.cpp:33-114 | the state folds into five as documented, each flag is set exactly when its condition holds, and every other field shows the value of the service it is named for |
| ReportBuilder.EveryRunReportsAgree | manager/src/ReportBuilder.cpp:92-114 | so in every run from a valid configuration |

## Left out

- Supervision.EveryRunIsSafe: `StartAutostart` appears in runs only before a shutdown and while no service is being removed, which is where the daemon calls it.
- Timing.DaemonDeadlineSuffices: sufficient; DaemonChainsSuffice is sharper and DaemonBudgetIsExceeded a partial converse. When the budget is too short the daemon kills what is left.
- Deadline.ShutdownMeetsDeadline: a killed process is taken to be gone by the next poll; one that the system keeps longer is outside the bound.
- Services.Service.Sample: the figures come in as one value; summing them over the processes of a service and the processor share are not modelled.
- ServiceManagers.ServiceManager.Sample: joining GPU figures to services (manager/src/ServiceManager.cpp:261-288) is not modelled.
- ServiceManagers.ServiceManager.Execute: the texts of the replies are not modelled, only the results.
- GpuUsage.AggregateGpuProcesses: figures are integers; the sum of memory figures is not cut to 64 bits.
- Reports.EncodeReport: measured doubles travel as 64-bit patterns.
- WindowsQuoting.ArgumentsComeBack: about the arguments after the program name; the name itself is read by other rules.
- Validation.Validate: takes the parsed services; sections, keys and unique names are the reader's (manager/src/ConfigParser.cpp:569-676), and the message texts other than the cycle are not modelled.
- `TakeRemoved`, log texts and `lastError`: they only hand out or describe what the model has.
- Sockets, the poll loop, clients and the rest of the daemon: input and output.
- Real process control, control groups, readers of `/proc`, signals, systemd and NVML loading: behaviour of the operating system, which the launcher stands for.
- The graphical interface, the status table, the console and the command line: presentation and parsing.
- Time finer than a millisecond: the steady clock is a whole number of milliseconds.
