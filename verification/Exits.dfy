/** What follows an exit or a refused launch, and which restarts the reports count. */
module Exits {
  import opened Wrappers
  import opened Sequences
  import opened Launching
  import opened ServiceSpec
  import opened RestartBudget

  /**
   r has decided about a restart of s: it fails exactly when the window that ends now is full, and
   otherwise comes back after the doubled delay.
   */
  predicate RestartDecided(s: Svc, r: Svc, now: Instant) {
    var n := CountWithin(s.history.recent, now.steady - Window(s.config), now.steady);
    if s.config.maxRestarts > 0 && n >= s.config.maxRestarts then
      r.state.Failed? && r.history.all == s.history.all
    else
      var delay := Least(s.config.restartDelay * Pow2(n), s.config.restartDelayMax);
      && r.state.Backoff? && r.history.all == s.history.all + [now.steady]
      && r.timers.restartAt == now.steady + delay && r.report.nextRestartTime == now.wallNs + delay * 1_000_000
  }

  lemma ScheduleDecides(s: Svc, now: Instant)
    requires Tidy(s, now.steady)
    ensures RestartDecided(s, ScheduleRestart(s, now), now)
  {
    hide CountWithin, BudgetOk, Prune, BackoffDelay, Pow2;
    PrunedIsWindow(s, now.steady);
    DelayIsPow(s.config, CountWithin(s.history.recent, now.steady - Window(s.config), now.steady));
  }

  /** How a process that is gone shows. */
  predicate ShowsExit(s: Svc, r: Svc, status: ExitStatus, now: Instant) {
    && r.child.None? && r.config == s.config && !r.pendingStart && !r.restartAfterStop
    && r.report.lastExitCode == WireExitCode(status) && r.report.lastExitTime == now.wallNs
    && !r.report.usageValid && r.report.usage == NO_USAGE
  }

  /**
   What becomes of a service whose process was stopped because its heartbeats were lost, once it is gone:
   with launches allowed a restart is decided as after a crash; without, it is stopped and its history
   stays as it is.
   */
  lemma SilenceOutcome(s: Svc, log: Log, ctx: Ctx)
    requires SvcInv(s) && s.state.Stopping? && s.restartAfterStop && Tidy(s, ctx.now.steady)
    requires ctx.env(|log|).exit.Some?
    ensures var r := PollChild(s, log, ctx);
            && r.log == log + [Exited(s.child.value.id)]
            && ShowsExit(s, r.svc, ctx.env(|log|).exit.value, ctx.now)
            && if ctx.launchAllowed then RestartDecided(s, r.svc, ctx.now)
               else r.svc.state.Stopped? && r.svc.history == s.history
  {
    hide ScheduleRestart, RestartDecided;
    var gone := AtRest(WithoutProcess(s, ctx.env(|log|).exit.value, ctx.now));
    ScheduleDecides(gone, ctx.now);
    KeepsReport(gone, ctx.now);
    DecidedAlike(s, gone, ScheduleRestart(gone, ctx.now), ctx.now);
  }

  lemma DecidedAlike(s: Svc, t: Svc, r: Svc, now: Instant)
    requires t.history == s.history && t.config == s.config && RestartDecided(t, r, now)
    ensures RestartDecided(s, r, now)
  {}

  /**
   A tick that finds the process gone goes on with what that leaves: a restart that is due at once is
   carried out, a service launched in its place may count as running already, and nothing else happens.
   */
  lemma TickAfterExit(s: Svc, log: Log, ctx: Ctx)
    requires SvcInv(s) && s.child.Some? && ctx.env(|log|).exit.Some?
    ensures var p, r := PollChild(s, log, ctx), Tick(s, log, ctx);
            if ScheduledRestartComes(p.svc, ctx) then
              r == Relaunch(CountRestart(p.svc), p.log, ctx)
            else if !IsAlive(p.svc.state) then
              r.svc == p.svc && r.log == p.log
            else
              && p.svc.state.Starting? && r.svc.child == p.svc.child && p.log <= r.log
              && (!HeartbeatEnabled(s.config) ==>
                    && r.log == p.log
                    && r.svc.state == if s.config.startGrace == 0 then Running else Starting)
  {
    hide Relaunch, ScheduleRestart;
    var p := PollChild(s, log, ctx);
    var gone := AtRest(WithoutProcess(s, ctx.env(|log|).exit.value, ctx.now));
    var exited := log + [Exited(s.child.value.id)];
    RelaunchStarts(gone, exited, ctx);
    RelaunchStarts(CountRestart(gone), exited, ctx);
  }

  /**
   A tick does nothing to a service without a process, unless a scheduled restart is due and allowed: it
   counts, and the service is launched, or waits while its dependencies are not running.
   */
  lemma TickAtRest(s: Svc, log: Log, ctx: Ctx)
    requires SvcInv(s) && s.child.None?
    ensures var counted := s.(report := s.report.(restartCount := s.report.restartCount + 1));
            Tick(s, log, ctx) == if !ScheduledRestartComes(s, ctx) then Outcome(s, log, Ok)
                                 else if ctx.dependenciesReady then Launch(counted, log, ctx)
                                 else Outcome(counted.(state := Waiting), log, Ok)
  {
    hide Launch;
  }

  /**
   Every exit shows in the report, whatever follows from it, except that a refused launch in its place
   shows as one of its own, with code 127. Otherwise a signal shows as a negative code.
   */
  lemma ExitShows(s: Svc, log: Log, ctx: Ctx)
    requires SvcInv(s) && s.child.Some? && ctx.env(|log|).exit.Some?
    ensures var status, r := ctx.env(|log|).exit.value, PollChild(s, log, ctx);
            && r.svc.report.lastExitTime == ctx.now.wallNs && !r.svc.report.usageValid
            && r.svc.report.lastExitCode == if r.result.LaunchFailed? then 127
                                            else if status.signal != 0 then -status.signal else status.code
  {
    hide ScheduleRestart;
    var gone := WithoutProcess(s, ctx.env(|log|).exit.value, ctx.now);
    var refused := AtRest(gone).(report := gone.report.(lastExitCode := 127));
    KeepsReport(gone, ctx.now);
    KeepsReport(AtRest(gone), ctx.now);
    KeepsReport(refused, ctx.now);
    KeepsReport(CountRestart(refused), ctx.now);
  }

  lemma RelaunchStarts(s: Svc, log: Log, ctx: Ctx)
    requires s.child.None?
    ensures var r := Relaunch(s, log, ctx).svc;
            && r.config == s.config
            && (IsAlive(r.state) ==> r.state.Starting? && r.child.Some? && r.timers.launchedAt == ctx.now.steady)
  {
    hide ApplyRestartPolicy;
  }

  /** A launch that is refused counts as an unclean exit: the policy decides, and the report says 127. */
  lemma RefusedLaunchOutcome(s: Svc, log: Log, ctx: Ctx)
    requires Tidy(s, ctx.now.steady) && ctx.env(|log|).pid.None?
    ensures var r := Launch(s, log, ctx);
            && r.result.LaunchFailed? && r.log == log + [LaunchRefused(s.config.name)] && r.svc.child == s.child
            && r.svc.report.lastExitCode == 127 && r.svc.report.lastExitTime == ctx.now.wallNs
            && if s.config.restart.Never? then r.svc.state.Failed? && r.svc.history == s.history
               else RestartDecided(s, r.svc, ctx.now)
  {
    hide ScheduleRestart, RestartDecided;
    var refused := s.(report := s.report.(lastExitCode := 127, lastExitTime := ctx.now.wallNs));
    ScheduleDecides(refused, ctx.now);
    KeepsReport(refused, ctx.now);
    DecidedAlike(s, refused, ScheduleRestart(refused, ctx.now), ctx.now);
  }

  /** A launch that works: a new process whose clocks start now, with nothing counted against it yet. */
  lemma LaunchOutcome(s: Svc, log: Log, ctx: Ctx)
    requires ctx.env(|log|).pid.Some?
    ensures var r := Launch(s, log, ctx);
            && r.result.Ok? && r.svc.state.Starting? && r.svc.history == s.history
            && r.log == log + [Launched(|log|, s.config.name, s.config.dependsOn, ctx.running)]
            && r.svc.child == Some(Child(|log|, ctx.env(|log|).pid.value))
            && !r.svc.killSent && !r.svc.stuckReported
            && r.svc.timers.launchedAt == ctx.now.steady && r.svc.timers.lastBeat == ctx.now.steady
            && r.svc.report.startTime == ctx.now.wallNs && r.svc.report.lastSeen == ctx.now.wallNs
            && r.svc.report.missedBeats == 0 && r.svc.report.nextRestartTime == 0 && !r.svc.report.usageValid
            && r.svc.report.restartCount == s.report.restartCount
  {}

  // ----- which restarts are counted

  /** A restart by hand that was queued behind a stop is carried out. */
  predicate QueuedRestartComes(s: Svc, log: Log, ctx: Ctx) {
    && s.state.Stopping? && ctx.env(|log|).exit.Some? && ctx.launchAllowed
    && !s.restartAfterStop && s.pendingStart && s.pendingStartIsRestart
  }

  /** A scheduled restart is carried out. */
  predicate ScheduledRestartComes(s: Svc, ctx: Ctx) {
    s.state.Backoff? && ctx.launchAllowed && ctx.now.steady >= s.timers.restartAt
  }

  lemma RelaunchCountsNothing(s: Svc, log: Log, ctx: Ctx)
    ensures Relaunch(s, log, ctx).svc.report.restartCount == s.report.restartCount
  {
    hide ScheduleRestart;
    KeepsReport(s.(report := s.report.(lastExitCode := 127, lastExitTime := ctx.now.wallNs)), ctx.now);
  }

  lemma PollCounts(s: Svc, log: Log, ctx: Ctx)
    requires SvcInv(s)
    ensures PollChild(s, log, ctx).svc.report.restartCount ==
            s.report.restartCount + if QueuedRestartComes(s, log, ctx) then 1 else 0
  {
    hide Relaunch, ScheduleRestart;
    if s.child.Some? && ctx.env(|log|).exit.Some? {
      var exited := log + [Exited(s.child.value.id)];
      var gone := WithoutProcess(s, ctx.env(|log|).exit.value, ctx.now);
      KeepsReport(gone, ctx.now);
      KeepsReport(AtRest(gone), ctx.now);
      RelaunchCountsNothing(AtRest(gone), exited, ctx);
      RelaunchCountsNothing(CountRestart(AtRest(gone)), exited, ctx);
    }
  }

  lemma SilenceCountsNothing(s: Svc, log: Log, ctx: Ctx)
    requires s.child.Some? && HeartbeatEnabled(s.config)
    ensures CheckHeartbeat(s, log, ctx).svc.report.restartCount == s.report.restartCount
  {
    hide ToInt32, Quotient;
  }

  lemma AdvanceCounts(s: Svc, log: Log, ctx: Ctx)
    requires SvcInv(s)
    ensures Advance(s, log, ctx).svc.report.restartCount ==
            s.report.restartCount + if ScheduledRestartComes(s, ctx) then 1 else 0
  {
    hide Relaunch, CheckHeartbeat;
    RelaunchCountsNothing(CountRestart(s), log, ctx);
    if s.child.Some? && HeartbeatEnabled(s.config) {
      SilenceCountsNothing(s, log, ctx);
    }
  }

  lemma StartCountsNothing(s: Svc, log: Log, ctx: Ctx)
    requires SvcInv(s)
    ensures Start(s, log, ctx).svc.report.restartCount == s.report.restartCount
    ensures Restart(s, log, ctx).svc.report.restartCount == s.report.restartCount
  {
    hide Relaunch;
    RelaunchCountsNothing(s, log, ctx);
    RelaunchCountsNothing(s.(history := NO_HISTORY), log, ctx);
  }

  lemma StopCountsNothing(s: Svc, log: Log, ctx: Ctx)
    requires SvcInv(s)
    ensures Stop(s, log, ctx).svc.report == s.report
  {}

  lemma OthersCountNothing(s: Svc, log: Log, op: SvcOp, ctx: Ctx)
    requires SvcInv(s) && !op.TickOp? && !op.StartOp? && !op.RestartOp?
    ensures Step(s, log, op, ctx).svc.report.restartCount == s.report.restartCount
  {
    hide Tick, Start, Restart, Stop;
    StopCountsNothing(s, log, ctx);
    StopCountsNothing(s.(removing := true), log, ctx);
  }

  /**
   The restart count of the reports: it grows by one for a queued restart and by one for a scheduled one
   that a tick carries out, launched, refused or waiting, and by nothing else; starts by hand do not count.
   */
  lemma RestartsAreCounted(s: Svc, log: Log, op: SvcOp, ctx: Ctx)
    requires SvcInv(s)
    ensures var polled := PollChild(s, log, ctx);
            Step(s, log, op, ctx).svc.report.restartCount == s.report.restartCount
              + (if op.TickOp? && QueuedRestartComes(s, log, ctx) then 1 else 0)
              + (if op.TickOp? && ScheduledRestartComes(polled.svc, ctx) then 1 else 0)
  {
    hide Step, PollChild, Advance;
    StepIs(s, log, op, ctx);
    if op.TickOp? {
      var polled := PollChild(s, log, ctx);
      PollCounts(s, log, ctx);
      AdvanceCounts(polled.svc, polled.log, ctx);
    } else if op.StartOp? || op.RestartOp? {
      StartCountsNothing(s, log, ctx);
    } else {
      OthersCountNothing(s, log, op, ctx);
    }
  }
}
