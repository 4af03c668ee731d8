/**
 What comes of many calls on one service together: a grace time, a stop timeout, a heartbeat and
 a restart delay run out at the first tick that finds them over and at none before, and of the
 orders given while a service stops only the last one counts.
 */
module Outcomes {
  import opened Wrappers
  import opened Sequences
  import opened ServiceConfigs
  import opened Launching
  import opened ServiceSpec
  import opened Heartbeats
  import opened RestartBudget
  import opened Exits

  // ----- series of calls

  datatype CallOn = CallOn(op: SvcOp, ctx: Ctx)

  /** The service after a series of calls. */
  function AfterCalls(s: Svc, log: Log, calls: seq<CallOn>): (r: Outcome)
    requires SvcInv(s)
    ensures SvcInv(r.svc)
  {
    if calls == [] then Outcome(s, log, Ok)
    else
      var before := AfterCalls(s, log, calls[..|calls| - 1]);
      Step(before.svc, before.log, calls[|calls| - 1].op, calls[|calls| - 1].ctx)
  }

  /** A tick that finds no exit; calls other than ticks do not look. */
  predicate FindsNoExit(log: Log, call: CallOn) {
    call.op.TickOp? ==> call.ctx.env(|log|).exit.None?
  }

  /** The process exits before none of the ticks. */
  predicate NeverExits(s: Svc, log: Log, calls: seq<CallOn>)
    requires SvcInv(s)
  {
    calls == [] ||
    (NeverExits(s, log, calls[..|calls| - 1])
     && FindsNoExit(AfterCalls(s, log, calls[..|calls| - 1]).log, calls[|calls| - 1]))
  }

  predicate All(calls: seq<CallOn>, allowed: SvcOp -> bool) {
    forall k :: 0 <= k < |calls| ==> allowed(calls[k].op)
  }

  /** The settings after a call. */
  function SettingsAfter(config: ServiceConfig, call: CallOn): ServiceConfig {
    if call.op.ReplaceOp? then call.op.config else config
  }

  /** The settings after a series of calls. */
  function LastSettings(config: ServiceConfig, calls: seq<CallOn>): ServiceConfig {
    if calls == [] then config
    else SettingsAfter(LastSettings(config, calls[..|calls| - 1]), calls[|calls| - 1])
  }

  /** When the first tick at or past `due` happens, if one does. */
  function FirstTick(calls: seq<CallOn>, due: int): Option<int> {
    if calls == [] then None
    else
      var earlier, last := FirstTick(calls[..|calls| - 1], due), calls[|calls| - 1];
      if earlier.Some? then earlier
      else if last.op.TickOp? && last.ctx.now.steady >= due then Some(last.ctx.now.steady)
      else None
  }

  /** No tick before that one was late enough. */
  lemma {:induction false} FirstTickIsFirst(calls: seq<CallOn>, due: int)
    ensures match FirstTick(calls, due)
            case None => forall k :: 0 <= k < |calls| && calls[k].op.TickOp? ==> calls[k].ctx.now.steady < due
            case Some(at) =>
              exists k :: 0 <= k < |calls| && calls[k].op.TickOp? && calls[k].ctx.now.steady == at >= due &&
                forall j :: 0 <= j < k && calls[j].op.TickOp? ==> calls[j].ctx.now.steady < due
    decreases |calls|
  {
    if calls != [] {
      var before := calls[..|calls| - 1];
      FirstTickIsFirst(before, due);
      match FirstTick(before, due)
      case None =>
      case Some(at) =>
        var k :| 0 <= k < |before| && before[k].op.TickOp? && before[k].ctx.now.steady == at >= due &&
          forall j :: 0 <= j < k && before[j].op.TickOp? ==> before[j].ctx.now.steady < due;
        assert calls[k] == before[k];
    }
  }

  // ----- the grace time

  /** What decides whether a service is healthy. */
  predicate SameHealth(c: ServiceConfig, d: ServiceConfig) {
    && d.startGrace == c.startGrace && d.heartbeatInterval == c.heartbeatInterval
    && d.heartbeatTolerance == c.heartbeatTolerance && d.unhealthyAction == c.unhealthyAction
  }

  /** Calls that leave a service that is up to the clock, new settings for other things among them. */
  predicate LeavesUp(op: SvcOp, config: ServiceConfig) {
    || op.TickOp? || op.StartOp? || op.SampleOp? || op.AbandonOp? || op.ReaddOp?
    || (op.ReplaceOp? && SameHealth(config, op.config))
  }

  predicate AllLeaveUp(calls: seq<CallOn>, config: ServiceConfig) {
    forall k :: 0 <= k < |calls| ==> LeavesUp(calls[k].op, config)
  }

  lemma StartStays(s: Svc, log: Log, ctx: Ctx)
    requires SvcInv(s) && (IsUp(s) || s.state.Stopping?)
    ensures var r := Start(s, log, ctx).svc;
            r.state == s.state && r.child == s.child && r.timers == s.timers && r.config == s.config
  {
    hide Relaunch;
  }

  /** Of these calls only ticks move a service that is up or stopping. */
  lemma UpStays(s: Svc, log: Log, call: CallOn)
    requires SvcInv(s) && (IsUp(s) || s.state.Stopping?) && LeavesUp(call.op, s.config) && !call.op.TickOp?
    ensures var r := Step(s, log, call.op, call.ctx).svc;
            && r.state == s.state && r.child == s.child && r.timers == s.timers
            && r.config == SettingsAfter(s.config, call)
  {
    hide Tick, Start, Restart, Stop, KillNow, Heartbeat;
    if call.op.StartOp? {
      StartStays(s, log, call.ctx);
    }
  }

  lemma GraceTick(s: Svc, log: Log, ctx: Ctx)
    requires SvcInv(s) && (s.state.Starting? || s.state.Running?) && !HeartbeatEnabled(s.config)
    requires ctx.env(|log|).exit.None?
    ensures var r := Step(s, log, TickOp, ctx).svc;
            && r.child == s.child && r.config == s.config && r.timers == s.timers
            && r.state == if ctx.now.steady >= s.timers.launchedAt + s.config.startGrace then Running else s.state
  {}

  lemma GraceStep(s: Svc, log: Log, call: CallOn)
    requires SvcInv(s) && (s.state.Starting? || s.state.Running?) && !HeartbeatEnabled(s.config)
    requires LeavesUp(call.op, s.config) && FindsNoExit(log, call)
    ensures var r := Step(s, log, call.op, call.ctx).svc;
            && r.child == s.child && r.config == SettingsAfter(s.config, call) && r.timers == s.timers
            && r.state == if call.op.TickOp? && call.ctx.now.steady >= s.timers.launchedAt + s.config.startGrace
                          then Running else s.state
  {
    hide Step;
    if call.op.TickOp? {
      GraceTick(s, log, call.ctx);
    } else {
      UpStays(s, log, call);
    }
  }

  /**
   Without heartbeats a launched service counts as starting until the first tick at or past the end
   of its grace time, and as running from then on, whatever the other ticks and calls.
   */
  lemma {:induction false} GraceVerdict(s: Svc, log: Log, launch: Ctx, calls: seq<CallOn>)
    requires Idle(s) && !HeartbeatEnabled(s.config) && launch.env(|log|).pid.Some?
    requires AllLeaveUp(calls, s.config)
    requires var launched := Launch(s, log, launch); NeverExits(launched.svc, launched.log, calls)
    ensures var launched := Launch(s, log, launch);
            var r := AfterCalls(launched.svc, launched.log, calls).svc;
            && r.child == Some(Child(|log|, launch.env(|log|).pid.value))
            && r.config == LastSettings(s.config, calls) && SameHealth(s.config, r.config)
            && r.timers.launchedAt == launch.now.steady
            && r.state == if FirstTick(calls, launch.now.steady + s.config.startGrace).Some? then Running else Starting
    decreases |calls|
  {
    hide Step;
    if calls != [] {
      var before := calls[..|calls| - 1];
      GraceVerdict(s, log, launch, before);
      var launched := Launch(s, log, launch);
      var b := AfterCalls(launched.svc, launched.log, before);
      GraceStep(b.svc, b.log, calls[|calls| - 1]);
    }
  }

  // ----- the stop timeout

  /** The kills by the clock from index `from` on. */
  function KillsIn(log: Log, from: nat): seq<Event> {
    if |log| <= from then []
    else KillsIn(log[..|log| - 1], from) + if log[|log| - 1].Escalated? then [log[|log| - 1]] else []
  }

  lemma KillsOn(log: Log, from: nat, e: Event)
    requires from <= |log|
    ensures KillsIn(log + [e], from) == KillsIn(log, from) + if e.Escalated? then [e] else []
  {
    assert (log + [e])[..|log|] == log;
  }

  predicate NoKill(op: SvcOp) {
    !op.KillOp?
  }

  /** Whether this call is the one that kills. */
  predicate KillsNow(s: Svc, call: CallOn) {
    call.op.TickOp? && !s.killSent && call.ctx.now.steady >= s.timers.stopDeadline
  }

  /** Whether this call finds the process still there when the grace after its kill is over. */
  predicate FindsStuck(s: Svc, call: CallOn) {
    call.op.TickOp? && s.killSent && call.ctx.now.steady >= s.timers.killDeadline
  }

  /** A tick that finds the process of a stopping service only looks at the deadlines. */
  lemma StoppingTick(s: Svc, log: Log, ctx: Ctx)
    requires SvcInv(s) && s.state.Stopping? && ctx.env(|log|).exit.None?
    ensures Tick(s, log, ctx) == CheckStop(s, log + [Polled(s.child.value.id)], ctx.now)
  {
    hide CheckStop;
  }

  predicate IsOrder(op: SvcOp) {
    op.StartOp? || op.RestartOp? || op.StopOp? || op.KillOp? || op.RetireOp?
  }

  predicate WantsUp(op: SvcOp) {
    op.StartOp? || op.RestartOp?
  }

  /** Still stopping, with the same process and the same deadline. */
  predicate StopsOn(s: Svc, x: Svc) {
    && x.state.Stopping? && x.child == s.child && x.timers == s.timers && x.history == s.history
    && x.killSent == s.killSent && x.stuckReported == s.stuckReported
  }

  lemma OrderWhileStopping(s: Svc, log: Log, op: SvcOp, ctx: Ctx)
    requires SvcInv(s) && s.state.Stopping? && IsOrder(op) && !op.KillOp?
    ensures var r := Step(s, log, op, ctx);
            && r.log == log && StopsOn(s, r.svc) && r.svc.config == s.config
            && r.svc.pendingStart == WantsUp(op) && !r.svc.restartAfterStop
            && (WantsUp(op) ==> r.svc.pendingStartIsRestart == op.RestartOp?)
  {
    hide Relaunch, BeginStop;
  }

  lemma KillWhileStopping(s: Svc, log: Log, ctx: Ctx)
    requires SvcInv(s) && s.state.Stopping?
    ensures var r := Step(s, log, KillOp, ctx);
            && r.log == log + [Killed(s.child.value.id)]
            && r.svc.state.Stopping? && r.svc.child == s.child && r.svc.config == s.config
            && !r.svc.pendingStart && !r.svc.restartAfterStop && r.svc.history == s.history
  {}

  /** The same things are queued behind the stop. */
  predicate SameQueue(s: Svc, x: Svc) {
    && x.pendingStart == s.pendingStart && x.pendingStartIsRestart == s.pendingStartIsRestart
    && x.restartAfterStop == s.restartAfterStop
  }

  lemma OtherWhileStopping(s: Svc, log: Log, op: SvcOp, ctx: Ctx)
    requires SvcInv(s) && s.state.Stopping? && !IsOrder(op) && !op.TickOp?
    ensures var r := Step(s, log, op, ctx);
            && r.log == log && StopsOn(s, r.svc) && r.svc.config == SettingsAfter(s.config, CallOn(op, ctx))
            && SameQueue(s, r.svc)
  {}

  lemma KillStep(s: Svc, log: Log, call: CallOn)
    requires SvcInv(s) && s.state.Stopping? && NoKill(call.op) && FindsNoExit(log, call)
    ensures var r := Step(s, log, call.op, call.ctx);
            && r.svc.state.Stopping? && r.svc.child == s.child
            && r.svc.timers.stopDeadline == s.timers.stopDeadline
            && r.svc.killSent == (s.killSent || KillsNow(s, call))
            && r.svc.timers.killDeadline ==
               (if KillsNow(s, call) then call.ctx.now.steady + KILL_GRACE else s.timers.killDeadline)
            && r.svc.stuckReported == (s.stuckReported || FindsStuck(s, call))
            && r.log == log + (if call.op.TickOp? then [Polled(s.child.value.id)] else [])
                            + (if KillsNow(s, call) then [Escalated(s.child.value.id, call.ctx.now.steady)] else [])
  {
    hide Tick, Start, Restart, Stop, Heartbeat, KillNow;
    if call.op.TickOp? {
      StoppingTick(s, log, call.ctx);
    } else if IsOrder(call.op) {
      OrderWhileStopping(s, log, call.op, call.ctx);
    } else {
      OtherWhileStopping(s, log, call.op, call.ctx);
    }
  }

  lemma KillStepLog(s: Svc, log: Log, call: CallOn, from: nat)
    requires SvcInv(s) && s.state.Stopping? && NoKill(call.op) && FindsNoExit(log, call) && from <= |log|
    ensures var r := Step(s, log, call.op, call.ctx);
            && from <= |r.log|
            && KillsIn(r.log, from) == KillsIn(log, from) +
                 if KillsNow(s, call) then [Escalated(s.child.value.id, call.ctx.now.steady)] else []
  {
    hide Step, KillsIn;
    KillStep(s, log, call);
    var polled := if call.op.TickOp? then log + [Polled(s.child.value.id)] else log;
    KillsOn(log, from, Polled(s.child.value.id));
    KillsOn(polled, from, Escalated(s.child.value.id, call.ctx.now.steady));
    var r := Step(s, log, call.op, call.ctx);
    assert r.log == if KillsNow(s, call) then polled + [Escalated(s.child.value.id, call.ctx.now.steady)] else polled;
  }

  /**
   A process that was asked to stop and does not exit is killed by the first tick at or past its
   stop deadline, by none before and by none after, whatever is ordered meanwhile and whatever
   settings a reload brings; not at all when the stop signal was a kill already.
   */
  lemma {:induction false} KillVerdict(s: Svc, log: Log, asked: Ctx, silence: bool, calls: seq<CallOn>)
    requires SvcInv(s) && IsUp(s) && All(calls, NoKill)
    requires var stopping := BeginStop(s, log, asked, silence); NeverExits(stopping.svc, stopping.log, calls)
    ensures var stopping := BeginStop(s, log, asked, silence);
            var r := AfterCalls(stopping.svc, stopping.log, calls);
            var deadline := asked.now.steady + s.config.stopTimeout;
            var killed := if s.config.stopSignal.Kill? then None else FirstTick(calls, deadline);
            && r.svc.state.Stopping? && r.svc.child == s.child && r.svc.timers.stopDeadline == deadline
            && r.svc.timers.killDeadline == KILL_GRACE + (if killed.Some? then killed.value else asked.now.steady)
            && r.svc.killSent == (s.config.stopSignal.Kill? || killed.Some?)
            && |stopping.log| <= |r.log|
            && KillsIn(r.log, |stopping.log|) ==
                 if killed.Some? then [Escalated(s.child.value.id, killed.value)] else []
    decreases |calls|
  {
    hide Step;
    if calls != [] {
      var before := calls[..|calls| - 1];
      KillVerdict(s, log, asked, silence, before);
      var stopping := BeginStop(s, log, asked, silence);
      var b := AfterCalls(stopping.svc, stopping.log, before);
      KillStep(b.svc, b.log, calls[|calls| - 1]);
      KillStepLog(b.svc, b.log, calls[|calls| - 1], |stopping.log|);
    }
  }

  // ----- heartbeats

  /** Some tick comes when the last beat is overdue. */
  predicate OverdueTick(config: ServiceConfig, lastBeat: int, calls: seq<CallOn>)
    requires HeartbeatEnabled(config)
  {
    exists k :: 0 <= k < |calls| && OverdueAt(config, lastBeat, calls[k])
  }

  predicate OverdueAt(config: ServiceConfig, lastBeat: int, call: CallOn)
    requires HeartbeatEnabled(config)
  {
    call.op.TickOp? && Overdue(config, call.ctx.now.steady - lastBeat)
  }

  /** What missing heartbeats make of a service. */
  function Lost(config: ServiceConfig): ServiceState {
    if config.unhealthyAction.LeaveAlone? then Unhealthy else Stopping
  }

  /** A tick keeps an unhealthy service unhealthy until the next beat. */
  lemma UnhealthyTick(s: Svc, log: Log, ctx: Ctx)
    requires SvcInv(s) && s.state.Unhealthy? && HeartbeatEnabled(s.config) && ctx.env(|log|).exit.None?
    ensures var r := Tick(s, log, ctx).svc;
            r.state.Unhealthy? && r.child == s.child && r.config == s.config && r.timers == s.timers
  {
    hide ToInt32, Quotient;
  }

  lemma LostTimers(s: Svc, log: Log, ctx: Ctx)
    requires SvcInv(s) && s.state.Running? && HeartbeatEnabled(s.config) && ctx.env(|log|).exit.None?
    ensures Tick(s, log, ctx).svc.timers.lastBeat == s.timers.lastBeat
  {
    hide ToInt32, Quotient;
  }

  lemma BeatStep(s: Svc, log: Log, call: CallOn)
    requires SvcInv(s) && HeartbeatEnabled(s.config) && (s.state.Running? || s.state == Lost(s.config))
    requires LeavesUp(call.op, s.config) && FindsNoExit(log, call)
    ensures var r := Step(s, log, call.op, call.ctx).svc;
            && r.child == s.child && r.config == SettingsAfter(s.config, call)
            && r.timers.lastBeat == s.timers.lastBeat
            && r.state == if OverdueAt(s.config, s.timers.lastBeat, call) then Lost(s.config) else s.state
  {
    hide Tick, Start, Overdue;
    if !call.op.TickOp? {
      UpStays(s, log, call);
    } else if s.state.Running? {
      HeartbeatVerdict(s, log, call.ctx);
      LostTimers(s, log, call.ctx);
    } else if s.state.Unhealthy? {
      UnhealthyTick(s, log, call.ctx);
    } else {
      StoppingTick(s, log, call.ctx);
    }
  }

  /**
   A beat makes a service that is up healthy, and it stays so exactly as long as no tick finds the
   beat overdue; from the first such tick on it is unhealthy, or being stopped for a restart.
   */
  lemma {:induction false} BeatKeepsHealthy(s: Svc, log: Log, beat: Instant, calls: seq<CallOn>)
    requires SvcInv(s) && IsUp(s) && HeartbeatEnabled(s.config) && AllLeaveUp(calls, s.config)
    requires NeverExits(Heartbeat(s, log, beat).svc, log, calls)
    ensures var r := AfterCalls(Heartbeat(s, log, beat).svc, log, calls).svc;
            && r.child == s.child && r.timers.lastBeat == beat.steady
            && r.config == LastSettings(s.config, calls) && SameHealth(s.config, r.config)
            && r.state == if OverdueTick(s.config, beat.steady, calls) then Lost(s.config) else Running
    decreases |calls|
  {
    hide Step, Overdue;
    if calls != [] {
      var before := calls[..|calls| - 1];
      BeatKeepsHealthy(s, log, beat, before);
      var b := AfterCalls(Heartbeat(s, log, beat).svc, log, before);
      BeatStep(b.svc, b.log, calls[|calls| - 1]);
      SameOverdue(s.config, b.svc.config, beat.steady, calls[|calls| - 1]);
      OverdueOn(s.config, beat.steady, calls);
    }
  }

  lemma SameOverdue(c: ServiceConfig, d: ServiceConfig, lastBeat: int, call: CallOn)
    requires SameHealth(c, d) && HeartbeatEnabled(c)
    ensures OverdueAt(c, lastBeat, call) == OverdueAt(d, lastBeat, call)
  {}

  lemma OverdueOn(config: ServiceConfig, lastBeat: int, calls: seq<CallOn>)
    requires HeartbeatEnabled(config) && calls != []
    ensures OverdueTick(config, lastBeat, calls) <==>
            OverdueTick(config, lastBeat, calls[..|calls| - 1]) || OverdueAt(config, lastBeat, calls[|calls| - 1])
  {
    var before := calls[..|calls| - 1];
    if OverdueTick(config, lastBeat, before) {
      var k :| 0 <= k < |before| && OverdueAt(config, lastBeat, before[k]);
      assert OverdueAt(config, lastBeat, calls[k]);
    }
    if OverdueTick(config, lastBeat, calls) {
      var k :| 0 <= k < |calls| && OverdueAt(config, lastBeat, calls[k]);
      if k < |before| {
        assert OverdueAt(config, lastBeat, before[k]);
      }
    }
  }

  // ----- the restart delay

  /** Calls that leave a scheduled restart to the clock. */
  predicate LeavesDown(op: SvcOp) {
    op.TickOp? || op.HeartbeatOp? || op.SampleOp? || op.AbandonOp? || op.ReaddOp? || op.ReplaceOp?
  }

  predicate Due(call: CallOn, at: int) {
    call.op.TickOp? && call.ctx.launchAllowed && call.ctx.now.steady >= at
  }

  lemma BackoffStep(s: Svc, log: Log, call: CallOn)
    requires SvcInv(s) && s.state.Backoff? && LeavesDown(call.op) && !Due(call, s.timers.restartAt)
    ensures var r := Step(s, log, call.op, call.ctx);
            && r.log == log && r.svc.state.Backoff? && r.svc.timers == s.timers
            && r.svc.config == SettingsAfter(s.config, call)
  {
    hide Relaunch;
  }

  lemma {:induction false} BackoffWaits(s: Svc, log: Log, calls: seq<CallOn>)
    requires SvcInv(s) && s.state.Backoff? && All(calls, LeavesDown)
    requires forall k :: 0 <= k < |calls| ==> !Due(calls[k], s.timers.restartAt)
    ensures var r := AfterCalls(s, log, calls);
            && r.log == log && r.svc.state.Backoff? && r.svc.timers == s.timers
            && r.svc.config == LastSettings(s.config, calls)
    decreases |calls|
  {
    hide Step;
    if calls != [] {
      var before := calls[..|calls| - 1];
      BackoffWaits(s, log, before);
      var b := AfterCalls(s, log, before);
      BackoffStep(b.svc, b.log, calls[|calls| - 1]);
    }
  }

  lemma RelaunchLogs(s: Svc, log: Log, ctx: Ctx)
    ensures var r := Relaunch(s, log, ctx);
            if !ctx.dependenciesReady then
              r.svc.state.Waiting? && r.log == log
            else
              match ctx.env(|log|).pid
              case Some(pid) =>
                && r.svc.state.Starting? && r.svc.child == Some(Child(|log|, pid))
                && r.log == log + [Launched(|log|, s.config.name, s.config.dependsOn, ctx.running)]
              case None => r.log == log + [LaunchRefused(s.config.name)]
  {
    hide ScheduleRestart;
  }

  /**
   A scheduled restart is due after the doubled delay, counted by the restarts listed in the window.
   No tick, and no other call, brings it about before that or while launches are not allowed; the
   first tick that may does so, or makes the service wait for its dependencies. New settings neither
   bring the restart forward nor put it off; it is carried out with them.
   */
  lemma RestartComesInTime(s: Svc, at: Instant, log: Log, early: seq<CallOn>, tick: CallOn)
    requires Idle(s) && Tidy(s, at.steady) && ScheduleRestart(s, at).state.Backoff?
    requires All(early, LeavesDown) && tick.op.TickOp?
    requires var n := CountWithin(s.history.recent, at.steady - Window(s.config), at.steady);
             var due := at.steady + Least(s.config.restartDelay * Pow2(n), s.config.restartDelayMax);
             Due(tick, due) && forall k :: 0 <= k < |early| ==> !Due(early[k], due)
    ensures var b := AfterCalls(ScheduleRestart(s, at), log, early);
            var r := Step(b.svc, b.log, tick.op, tick.ctx);
            var config := LastSettings(s.config, early);
            && b.svc.state.Backoff? && b.log == log
            && if !tick.ctx.dependenciesReady then
                 r.svc.state.Waiting? && r.log == log
               else
                 match tick.ctx.env(|log|).pid
                 case Some(pid) =>
                   && r.svc.state.Starting? && r.svc.child == Some(Child(|log|, pid))
                   && r.log == log + [Launched(|log|, config.name, config.dependsOn, tick.ctx.running)]
                 case None => r.log == log + [LaunchRefused(config.name)]
  {
    hide Relaunch, CountWithin, Pow2, AfterCalls, ScheduleRestart;
    RestartOutcome(s, at);
    var scheduled := ScheduleRestart(s, at);
    ScheduleKeepsConfig(s, at);
    BackoffWaits(scheduled, log, early);
    var b := AfterCalls(scheduled, log, early);
    RelaunchLogs(CountRestart(b.svc), b.log, tick.ctx);
    BackoffTick(b.svc, b.log, tick.ctx);
  }

  lemma ScheduleKeepsConfig(s: Svc, now: Instant)
    requires Idle(s)
    ensures ScheduleRestart(s, now).config == s.config && SvcInv(ScheduleRestart(s, now))
  {}

  lemma BackoffTick(s: Svc, log: Log, ctx: Ctx)
    requires SvcInv(s) && s.state.Backoff? && ctx.launchAllowed && ctx.now.steady >= s.timers.restartAt
    ensures Step(s, log, TickOp, ctx) == Relaunch(CountRestart(s), log, ctx)
  {
    hide Relaunch;
  }

  // ----- orders while a service stops

  /** The last order among the calls. */
  function LastOrder(calls: seq<CallOn>): (r: Option<SvcOp>)
    ensures r.Some? ==> IsOrder(r.value)
  {
    if calls == [] then None
    else if IsOrder(calls[|calls| - 1].op) then Some(calls[|calls| - 1].op)
    else LastOrder(calls[..|calls| - 1])
  }

  /** No launch and no stop request. */
  predicate OnlyWatches(log: Log, newLog: Log) {
    log <= newLog &&
    forall k :: |log| <= k < |newLog| ==> newLog[k].Polled? || newLog[k].Escalated? || newLog[k].Killed?
  }

  lemma TickWhileStopping(s: Svc, log: Log, ctx: Ctx)
    requires SvcInv(s) && s.state.Stopping? && ctx.env(|log|).exit.None?
    ensures var r := Step(s, log, TickOp, ctx);
            && OnlyWatches(log, r.log)
            && r.svc.state.Stopping? && r.svc.child == s.child && r.svc.config == s.config
            && SameQueue(s, r.svc) && r.svc.history == s.history
  {
    hide Tick;
    StoppingTick(s, log, ctx);
  }

  /** Exactly this order is queued. */
  predicate Queues(x: Svc, order: SvcOp) {
    && x.pendingStart == WantsUp(order) && !x.restartAfterStop
    && (WantsUp(order) ==> x.pendingStartIsRestart == order.RestartOp?)
  }

  lemma CallWhileStopping(s: Svc, log: Log, call: CallOn)
    requires SvcInv(s) && s.state.Stopping? && FindsNoExit(log, call)
    ensures var r := Step(s, log, call.op, call.ctx);
            && OnlyWatches(log, r.log)
            && r.svc.state.Stopping? && r.svc.child == s.child && r.svc.config == SettingsAfter(s.config, call)
            && r.svc.history == s.history
            && if IsOrder(call.op) then Queues(r.svc, call.op) else SameQueue(s, r.svc)
  {
    hide Step;
    if call.op.TickOp? {
      TickWhileStopping(s, log, call.ctx);
    } else if call.op.KillOp? {
      KillWhileStopping(s, log, call.ctx);
    } else if IsOrder(call.op) {
      OrderWhileStopping(s, log, call.op, call.ctx);
    } else {
      OtherWhileStopping(s, log, call.op, call.ctx);
    }
  }

  lemma WatchesTrans(a: Log, b: Log, c: Log)
    requires OnlyWatches(a, b) && OnlyWatches(b, c)
    ensures OnlyWatches(a, c)
  {
    forall k | |a| <= k < |c|
      ensures c[k].Polled? || c[k].Escalated? || c[k].Killed?
    {
      if k < |b| {
        assert c[k] == b[k];
      }
    }
  }

  /** While a service stops, nothing is launched or asked to stop, and only the last order is kept. */
  lemma {:induction false} LastOrderIsKept(s: Svc, log: Log, calls: seq<CallOn>)
    requires SvcInv(s) && s.state.Stopping? && NeverExits(s, log, calls)
    ensures var r := AfterCalls(s, log, calls);
            && OnlyWatches(log, r.log)
            && r.svc.state.Stopping? && r.svc.child == s.child && r.svc.config == LastSettings(s.config, calls)
            && r.svc.history == s.history
            && match LastOrder(calls)
               case None => SameQueue(s, r.svc)
               case Some(order) => Queues(r.svc, order)
    decreases |calls|
  {
    hide Step;
    if calls != [] {
      var before := calls[..|calls| - 1];
      LastOrderIsKept(s, log, before);
      var b := AfterCalls(s, log, before);
      CallWhileStopping(b.svc, b.log, calls[|calls| - 1]);
      WatchesTrans(log, b.log, AfterCalls(s, log, calls).log);
    }
  }

  /**
   The last order wins: whatever ticks, orders, new settings and other calls come while a service stops, when a tick
   finds its process gone, the service is launched again, or waits for its dependencies, exactly when
   the last order was a start or a restart and the manager still allows it. A stop takes every order
   before it back, and a start takes back a stop.
   */
  lemma LastOrderWins(s: Svc, log: Log, calls: seq<CallOn>, ctx: Ctx)
    requires SvcInv(s) && s.state.Stopping? && NeverExits(s, log, calls)
    requires LastOrder(calls).Some? && ctx.env(|AfterCalls(s, log, calls).log|).exit.Some?
    ensures var ordered := AfterCalls(s, log, calls);
            var r := Tick(ordered.svc, ordered.log, ctx);
            var config := LastSettings(s.config, calls);
            var gone := ordered.log + [Exited(s.child.value.id)];
            var again := WantsUp(LastOrder(calls).value) && ctx.launchAllowed;
            if !again then
              r.svc.state.Stopped? && r.log == gone
            else if !ctx.dependenciesReady then
              r.svc.state.Waiting? && r.log == gone
            else
              match ctx.env(|gone|).pid
              case Some(pid) =>
                && r.svc.child == Some(Child(|gone|, pid))
                && gone + [Launched(|gone|, config.name, config.dependsOn, ctx.running)] <= r.log
              case None => gone + [LaunchRefused(config.name)] <= r.log
  {
    hide AfterCalls, Step, Tick;
    LastOrderIsKept(s, log, calls);
    var ordered := AfterCalls(s, log, calls);
    ExitWithQueue(ordered.svc, ordered.log, ctx);
  }

  lemma ExitWithQueue(s: Svc, log: Log, ctx: Ctx)
    requires SvcInv(s) && s.state.Stopping? && !s.restartAfterStop && ctx.env(|log|).exit.Some?
    ensures var r := Tick(s, log, ctx);
            var gone := log + [Exited(s.child.value.id)];
            if !s.pendingStart || !ctx.launchAllowed then
              r.svc.state.Stopped? && r.log == gone
            else if !ctx.dependenciesReady then
              r.svc.state.Waiting? && r.log == gone
            else
              match ctx.env(|gone|).pid
              case Some(pid) =>
                && r.svc.child == Some(Child(|gone|, pid))
                && gone + [Launched(|gone|, s.config.name, s.config.dependsOn, ctx.running)] <= r.log
              case None => gone + [LaunchRefused(s.config.name)] <= r.log
  {
    hide ScheduleRestart, Advance;
    var polled := PollChild(s, log, ctx);
    AdvanceExtends(polled.svc, polled.log, ctx);
  }

  /** Timeouts only add to the log, and take no process away. */
  lemma AdvanceExtends(s: Svc, log: Log, ctx: Ctx)
    requires SvcInv(s)
    ensures var r := Advance(s, log, ctx);
            && log <= r.log
            && (s.child.Some? ==> r.svc.child == s.child)
            && (s.state.Stopped? || s.state.Waiting? ==> r.svc == s && r.log == log)
  {
    hide ScheduleRestart;
  }

  // ----- a stop for lost heartbeats, from its beginning to its end

  lemma LostIsQueued(s: Svc, log: Log, lost: Ctx)
    requires SvcInv(s) && LostToSilence(s, log, lost)
    ensures var r := Tick(s, log, lost);
            && r.svc.state.Stopping? && r.svc.restartAfterStop && r.svc.child == s.child
            && r.svc.config == s.config && r.svc.history == s.history
  {
    hide ToInt32, Quotient;
  }

  /**
   A service that is stopped because its heartbeats are lost comes back like one that crashed: over any
   calls without an order, new settings among them, until a tick finds its process gone, which decides about
   the restart by the settings of that moment, or leaves it stopped when launches are not allowed.
   */
  lemma SilenceRestarts(s: Svc, log: Log, lost: Ctx, calls: seq<CallOn>, ctx: Ctx)
    requires SvcInv(s) && LostToSilence(s, log, lost) && Tidy(s, ctx.now.steady)
    requires var stopping := Tick(s, log, lost);
             && NeverExits(stopping.svc, stopping.log, calls) && LastOrder(calls).None?
             && ctx.env(|AfterCalls(stopping.svc, stopping.log, calls).log|).exit.Some?
    ensures var stopping := Tick(s, log, lost);
            var b := AfterCalls(stopping.svc, stopping.log, calls);
            var r := PollChild(b.svc, b.log, ctx);
            && OnlyWatches(stopping.log, b.log) && r.log == b.log + [Exited(s.child.value.id)]
            && r.svc.child.None? && r.svc.config == LastSettings(s.config, calls)
            && if ctx.launchAllowed then
                 RestartDecided(s.(config := LastSettings(s.config, calls)), r.svc, ctx.now)
               else
                 r.svc.state.Stopped? && r.svc.history == s.history
  {
    hide Tick, PollChild, AfterCalls, RestartDecided;
    var stopping := Tick(s, log, lost);
    LostIsQueued(s, log, lost);
    LastOrderIsKept(stopping.svc, stopping.log, calls);
    var b := AfterCalls(stopping.svc, stopping.log, calls);
    SilenceOutcome(b.svc, b.log, ctx);
    var r := PollChild(b.svc, b.log, ctx).svc;
    if ctx.launchAllowed {
      DecidedAlike(s.(config := LastSettings(s.config, calls)), b.svc, r, ctx.now);
    }
  }
}
