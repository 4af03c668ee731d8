/** One supervised service. Each call is proved to do what ServiceSpec says it does. */
module Services {
  import opened Wrappers
  import opened ServiceConfigs
  import opened Launching
  import Spec = ServiceSpec
  import opened ServiceSpec

  class Service {
    var config: ServiceConfig
    const launcher: Launcher
    var child: Option<Child>
    var state: ServiceState
    var pendingStart: bool
    var pendingStartIsRestart: bool
    var restartAfterStop: bool
    var killSent: bool
    var stuckReported: bool
    var removing: bool
    var timers: Timers
    var restartHistory: seq<int>
    var report: Report
    // Every restart scheduled since restartHistory was last cleared.
    ghost var scheduled: seq<int>

    /** The fields as one value. */
    ghost function View(): Svc
      reads this
    {
      Svc(config, child, state, pendingStart, pendingStartIsRestart, restartAfterStop, killSent, stuckReported,
          removing, timers, History(restartHistory, scheduled), report)
    }

    ghost predicate Valid()
      reads this, launcher
    {
      SvcInv(View()) && launcher.Valid()
    }

    constructor (config: ServiceConfig, launcher: Launcher)
      ensures View() == NewService(config) && this.launcher == launcher
    {
      this.config := config;
      this.launcher := launcher;
      child, state := None, Stopped;
      pendingStart, pendingStartIsRestart, restartAfterStop := false, false, false;
      killSent, stuckReported, removing := false, false, false;
      timers := Timers(0, 0, 0, 0, 0);
      restartHistory, scheduled := [], [];
      report := Report(0, 0, 0, 0, 0, 0, 0, false, NO_USAGE);
    }

    method Start(now: Instant, dependenciesReady: bool, ghost ctx: Ctx) returns (result: CommandResult)
      requires Valid() && ctx.env == launcher.env && ctx.now == now && ctx.dependenciesReady == dependenciesReady
      modifies this, launcher
      ensures Valid()
      ensures Outcome(View(), launcher.log, result) == Spec.Start(old(View()), old(launcher.log), ctx)
    {
      match state {
        case Starting => return AlreadyInState;
        case Running => return AlreadyInState;
        case Unhealthy => return AlreadyInState;
        case Stopping =>
          pendingStart := true;
          pendingStartIsRestart := false;
          restartAfterStop := false;
          return Ok;
        case Waiting =>
        case _ =>
          restartHistory := [];
          scheduled := [];
      }
      if !dependenciesReady {
        state := Waiting;
        return Ok;
      }
      result := Launch(now, ctx);
    }

    method Stop(now: Instant, ghost ctx: Ctx) returns (result: CommandResult)
      requires Valid() && ctx.now == now
      modifies this, launcher
      ensures Valid()
      ensures Outcome(View(), launcher.log, result) == Spec.Stop(old(View()), old(launcher.log), ctx)
    {
      match state {
        case Stopping =>
          pendingStart := false;
          restartAfterStop := false;
          return AlreadyInState;
        case Waiting =>
          state := Stopped;
          return Ok;
        case Backoff =>
          state := Stopped;
          return Ok;
        case Failed =>
          state := Stopped;
          return Ok;
        case Stopped =>
          return AlreadyInState;
        case _ =>
          BeginStop(now, ctx, false);
          return Ok;
      }
    }

    method Restart(now: Instant, dependenciesReady: bool, ghost ctx: Ctx) returns (result: CommandResult)
      requires Valid() && ctx.env == launcher.env && ctx.now == now && ctx.dependenciesReady == dependenciesReady
      modifies this, launcher
      ensures Valid()
      ensures Outcome(View(), launcher.log, result) == Spec.Restart(old(View()), old(launcher.log), ctx)
    {
      if state.Starting? || state.Running? || state.Unhealthy? {
        BeginStop(now, ctx, false);
        pendingStart := true;
        pendingStartIsRestart := true;
        return Ok;
      }
      if state.Stopping? {
        pendingStart := true;
        pendingStartIsRestart := true;
        restartAfterStop := false;
        return Ok;
      }
      result := Start(now, dependenciesReady, ctx);
    }

    method Kill(now: Instant)
      requires Valid()
      modifies this, launcher
      ensures Valid()
      ensures Outcome(View(), launcher.log, Ok) == Spec.KillNow(old(View()), old(launcher.log), now)
    {
      pendingStart := false;
      restartAfterStop := false;
      match child {
        case None =>
          if !state.Stopped? {
            state := Stopped;
          }
        case Some(process) =>
          state := Stopping;
          timers := timers.(stopDeadline := now.steady, killDeadline := now.steady + KILL_GRACE);
          launcher.Kill(process);
          killSent := true;
      }
    }

    method Heartbeat(now: Instant) returns (result: CommandResult)
      requires Valid()
      modifies this
      ensures Valid()
      ensures Outcome(View(), launcher.log, result) == Spec.Heartbeat(old(View()), launcher.log, now)
    {
      if !state.Starting? && !state.Running? && !state.Unhealthy? {
        return InvalidState;
      }
      timers := timers.(lastBeat := now.steady);
      report := report.(lastSeen := now.wallNs, missedBeats := 0);
      state := Running;
      result := Ok;
    }

    method Tick(now: Instant, launchAllowed: bool, dependenciesReady: bool, ghost ctx: Ctx)
      requires Valid() && ctx.env == launcher.env && ctx.now == now
      requires ctx.launchAllowed == launchAllowed && ctx.dependenciesReady == dependenciesReady
      modifies this, launcher
      ensures Valid()
      ensures var r := Spec.Tick(old(View()), old(launcher.log), ctx); View() == r.svc && launcher.log == r.log
    {
      PollChild(now, launchAllowed, dependenciesReady, ctx);
      match state {
        case Starting =>
          if config.heartbeatInterval > 0 {
            CheckHeartbeat(now, ctx);
          } else {
            CheckGrace(now);
          }
        case Stopping =>
          CheckStop(now);
        case Backoff =>
          if launchAllowed && now.steady >= timers.restartAt {
            CountRestart();
            Relaunch(now, dependenciesReady, ctx);
          }
        case Stopped =>
        case Waiting =>
        case Failed =>
        case _ =>
          if config.heartbeatInterval > 0 {
            CheckHeartbeat(now, ctx);
          } else {
            state := Running;
            report := report.(missedBeats := 0, lastSeen := now.wallNs);
          }
      }
    }

    method PollChild(now: Instant, launchAllowed: bool, dependenciesReady: bool, ghost ctx: Ctx)
      requires Valid() && ctx.env == launcher.env && ctx.now == now
      requires ctx.launchAllowed == launchAllowed && ctx.dependenciesReady == dependenciesReady
      modifies this, launcher
      ensures Valid()
      ensures var r := Spec.PollChild(old(View()), old(launcher.log), ctx);
              View() == r.svc && launcher.log == r.log
    {
      if child.Some? {
        var exited := launcher.Poll(child.value);
        if exited.Some? {
          HandleExit(now, exited.value, launchAllowed, dependenciesReady, ctx);
        }
      }
    }

    method CheckGrace(now: Instant)
      requires Valid() && state.Starting?
      modifies this
      ensures Valid()
      ensures View() == Spec.CheckGrace(old(View()), launcher.log, now).svc
    {
      report := report.(lastSeen := now.wallNs);
      if now.steady - timers.launchedAt >= config.startGrace {
        state := Running;
      }
    }

    method CheckStop(now: Instant)
      requires Valid() && state.Stopping?
      modifies this, launcher
      ensures Valid()
      ensures var r := Spec.CheckStop(old(View()), old(launcher.log), now);
              View() == r.svc && launcher.log == r.log
    {
      if !killSent && now.steady >= timers.stopDeadline {
        launcher.Escalate(child.value, now.steady);
        killSent := true;
        timers := timers.(killDeadline := now.steady + KILL_GRACE);
      } else if killSent && !stuckReported && now.steady >= timers.killDeadline {
        stuckReported := true;
      }
    }

    method CountRestart()
      modifies this
      ensures View() == Spec.CountRestart(old(View()))
    {
      report := report.(restartCount := report.restartCount + 1);
    }

    method Abandon()
      requires Valid()
      modifies this
      ensures Valid()
      ensures View() == Spec.Abandon(old(View()))
    {
      if !state.Waiting? {
        return;
      }
      state := Failed;
    }

    method Sample(reading: UsageSample)
      requires Valid()
      modifies this
      ensures Valid()
      ensures View() == Spec.Sample(old(View()), reading)
    {
      if child.None? {
        report := report.(usage := NO_USAGE, usageValid := false);
        return;
      }
      report := report.(usage := reading, usageValid := true);
    }

    method Replace(config: ServiceConfig)
      requires Valid()
      modifies this
      ensures Valid()
      ensures View() == old(View()).(config := config)
    {
      this.config := config;
    }

    method SetRemoving(removing: bool)
      requires Valid()
      modifies this
      ensures Valid()
      ensures View() == old(View()).(removing := removing)
    {
      this.removing := removing;
    }

    /** The two calls a reload makes on a service it drops. */
    method Retire(now: Instant, ghost ctx: Ctx)
      requires Valid() && ctx.now == now
      modifies this, launcher
      ensures Valid()
      ensures var r := Spec.Stop(old(View()).(removing := true), old(launcher.log), ctx);
              View() == r.svc && launcher.log == r.log
    {
      hide Spec.Stop;
      SetRemoving(true);
      var result := Stop(now, ctx);
    }

    method Launch(now: Instant, ghost ctx: Ctx) returns (result: CommandResult)
      requires launcher.Valid() && Idle(View()) && ctx.env == launcher.env && ctx.now == now
      modifies this, launcher
      ensures Valid()
      ensures Outcome(View(), launcher.log, result) == Spec.Launch(old(View()), old(launcher.log), ctx)
    {
      var started := launcher.Launch(config.name, config.dependsOn, ctx.running);
      if started.None? {
        report := report.(lastExitCode := 127, lastExitTime := now.wallNs);
        ApplyRestartPolicy(now, false);
        return LaunchFailed;
      }
      child := started;
      state := Starting;
      killSent := false;
      stuckReported := false;
      timers := timers.(launchedAt := now.steady, lastBeat := now.steady);
      report := report.(startTime := now.wallNs, lastSeen := now.wallNs, missedBeats := 0, nextRestartTime := 0,
                        usageValid := false);
      result := Ok;
    }

    method Relaunch(now: Instant, dependenciesReady: bool, ghost ctx: Ctx)
      requires launcher.Valid() && Idle(View()) && ctx.env == launcher.env && ctx.now == now
      requires ctx.dependenciesReady == dependenciesReady
      modifies this, launcher
      ensures Valid()
      ensures var r := Spec.Relaunch(old(View()), old(launcher.log), ctx);
              View() == r.svc && launcher.log == r.log
    {
      if !dependenciesReady {
        state := Waiting;
        return;
      }
      var result := Launch(now, ctx);
    }

    method HandleExit(now: Instant, status: ExitStatus, launchAllowed: bool, dependenciesReady: bool, ghost ctx: Ctx)
      requires Valid() && child.Some? && ctx.env == launcher.env && ctx.now == now
      requires ctx.launchAllowed == launchAllowed && ctx.dependenciesReady == dependenciesReady
      modifies this, launcher
      ensures Valid()
      ensures var r := Spec.HandleExit(old(View()), old(launcher.log), status, ctx);
              View() == r.svc && launcher.log == r.log
    {
      child := None;
      report := report.(lastExitCode := WireExitCode(status), lastExitTime := now.wallNs, usage := NO_USAGE,
                        usageValid := false);
      if state.Stopping? {
        FinishStop(now, launchAllowed, dependenciesReady, ctx);
        return;
      }
      ApplyRestartPolicy(now, ExitedCleanly(status));
    }

    /** The second half of HandleExit for a service that was stopping. */
    method FinishStop(now: Instant, launchAllowed: bool, dependenciesReady: bool, ghost ctx: Ctx)
      requires launcher.Valid() && child.None? && state.Stopping? && !report.usageValid
      requires ctx.env == launcher.env && ctx.now == now
      requires ctx.launchAllowed == launchAllowed && ctx.dependenciesReady == dependenciesReady
      modifies this, launcher
      ensures Valid()
      ensures var r := Spec.FinishStop(old(View()), old(launcher.log), ctx);
              View() == r.svc && launcher.log == r.log
    {
      state := Stopped;
      var restartDue, startDue := restartAfterStop, pendingStart;
      pendingStart := false;
      restartAfterStop := false;
      if !launchAllowed {
        return;
      }
      if restartDue {
        ScheduleRestart(now);
      } else if startDue {
        if pendingStartIsRestart {
          CountRestart();
        }
        Relaunch(now, dependenciesReady, ctx);
      }
    }

    method ApplyRestartPolicy(now: Instant, cleanExit: bool)
      modifies this
      ensures View() == Spec.ApplyRestartPolicy(old(View()), now, cleanExit)
    {
      if !(config.restart.Always? || (config.restart.OnFailure? && !cleanExit)) {
        state := if cleanExit then Stopped else Failed;
        return;
      }
      ScheduleRestart(now);
    }

    method ScheduleRestart(now: Instant)
      modifies this
      ensures View() == Spec.ScheduleRestart(old(View()), now)
    {
      hide Prune, BackoffDelay;
      DropOldRestarts(now);
      if config.maxRestarts > 0 && |restartHistory| >= config.maxRestarts {
        state := Failed;
        return;
      }
      var delay, _ := Backoff(config, |restartHistory|);
      restartHistory := restartHistory + [now.steady];
      scheduled := scheduled + [now.steady];
      timers := timers.(restartAt := now.steady + delay);
      report := report.(nextRestartTime := now.wallNs + delay * 1_000_000);
      state := ServiceState.Backoff;
    }

    method DropOldRestarts(now: Instant)
      modifies this`restartHistory
      ensures restartHistory == Prune(old(restartHistory), now.steady, config.restartWindow * 1000)
    {
      while restartHistory != [] && now.steady - restartHistory[0] > config.restartWindow * 1000
        invariant Prune(restartHistory, now.steady, config.restartWindow * 1000) ==
                  Prune(old(restartHistory), now.steady, config.restartWindow * 1000)
        decreases |restartHistory|
      {
        restartHistory := restartHistory[1..];
      }
    }

    /** `peak` is the largest value the doubling goes through. */
    static method Backoff(config: ServiceConfig, previousRestarts: nat) returns (delay: nat, ghost peak: nat)
      ensures delay == BackoffDelay(config, previousRestarts)
      ensures config.restartDelay <= config.restartDelayMax ==> peak <= 2 * config.restartDelayMax
    {
      delay := config.restartDelay;
      peak := delay;
      var i := 0;
      while i < previousRestarts && delay < config.restartDelayMax
        invariant 0 <= i <= previousRestarts
        invariant delay == Doubled(config.restartDelay, i)
        invariant delay <= peak
        invariant config.restartDelay <= config.restartDelayMax ==> peak <= 2 * config.restartDelayMax
      {
        delay := delay * 2;
        peak := if delay > peak then delay else peak;
        i := i + 1;
      }
      DoubledGrows(config.restartDelay, i, previousRestarts);
      delay := if delay < config.restartDelayMax then delay else config.restartDelayMax;
    }

    method BeginStop(now: Instant, ghost ctx: Ctx, ghost silence: bool)
      requires Valid() && ctx.now == now && child.Some? && !state.Stopping?
      modifies this, launcher
      ensures Valid()
      ensures var r := Spec.BeginStop(old(View()), old(launcher.log), ctx, silence);
              View() == r.svc && launcher.log == r.log
    {
      hide SvcInv;
      ghost var r := Spec.BeginStop(View(), launcher.log, ctx, silence);
      state := Stopping;
      pendingStart := false;
      restartAfterStop := false;
      timers := timers.(stopDeadline := now.steady + config.stopTimeout, killDeadline := now.steady + KILL_GRACE);
      killSent := config.stopSignal.Kill?;
      stuckReported := false;
      launcher.RequestStop(child.value, config.stopSignal, timers.stopDeadline, ctx.dependents, silence);
      assert View() == r.svc;
    }

    method CheckHeartbeat(now: Instant, ghost ctx: Ctx)
      requires Valid() && ctx.now == now && child.Some? && !state.Stopping? && config.heartbeatInterval > 0
      modifies this, launcher
      ensures Valid()
      ensures var r := Spec.CheckHeartbeat(old(View()), old(launcher.log), ctx);
              View() == r.svc && launcher.log == r.log
    {
      var silent := now.steady - timers.lastBeat;
      report := report.(missedBeats := ToInt32(Quotient(silent, config.heartbeatInterval)));
      if report.missedBeats < config.heartbeatTolerance || state.Unhealthy? {
        return;
      }
      state := Unhealthy;
      if config.unhealthyAction.RestartIt? {
        BeginStop(now, ctx, true);
        restartAfterStop := true;
      }
    }
  }
}
