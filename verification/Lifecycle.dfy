/**
 The life of every process, read off the launcher's log: it is launched once, asked to stop
 at most once, killed by a timeout at most once and never before the deadline it was given,
 and never touched again once it has exited. A service's fields always agree with the log.
 */
module Lifecycle {
  import opened ServiceConfigs
  import opened Launching
  import opened ServiceSpec

  datatype Phase =
    | Unborn
    | Up
    | Asked(deadline: int, kill: bool)
    | TimedOut      // killed by Tick after the stop deadline
    | PutDown       // killed by Kill
    | Gone
    | Broken        // an interaction that must never happen

  predicate Lives(p: Phase) {
    p.Up? || p.Asked? || p.TimedOut? || p.PutDown?
  }

  /** A signal that cannot be ignored has been sent. */
  predicate Doomed(p: Phase) {
    (p.Asked? && p.kill) || p.TimedOut? || p.PutDown?
  }

  function After(p: Phase, e: Event, id: nat): Phase {
    match e
    case LaunchRefused(_) => p
    case Launched(i, _, _, _) => if i != id then p else if p.Unborn? then Up else Broken
    case Polled(i) => if i != id || Lives(p) then p else Broken
    case Exited(i) => if i != id then p else if Lives(p) then Gone else Broken
    case StopRequested(i, deadline, kill, _, _) =>
      if i != id then p else if p.Up? then Asked(deadline, kill) else Broken
    case Escalated(i, at) =>
      if i != id then p else if p.Asked? && !p.kill && at >= p.deadline then TimedOut else Broken
    case Killed(i) => if i != id then p else if Lives(p) then PutDown else Broken
  }

  /** The phase of process `id` after the interactions in the log. */
  function PhaseOf(log: Log, id: nat): Phase {
    if log == [] then Unborn else After(PhaseOf(log[..|log| - 1], id), log[|log| - 1], id)
  }

  lemma PhaseAppend(log: Log, e: Event, id: nat)
    ensures PhaseOf(log + [e], id) == After(PhaseOf(log, id), e, id)
  {
    assert (log + [e])[..|log|] == log;
  }

  /** Ids are positions in the log: the next launch gets an id nobody has had. */
  ghost predicate FreshFrom(log: Log, n: nat) {
    forall id: nat :: id >= n ==> PhaseOf(log, id).Unborn?
  }

  ghost predicate NothingBroken(log: Log) {
    forall id: nat :: !PhaseOf(log, id).Broken?
  }

  function Held(s: Svc): set<nat> {
    if s.child.Some? then {s.child.value.id} else {}
  }

  /** The fields of a service agree with the log about its process. */
  predicate Agrees(s: Svc, log: Log) {
    match s.child
    case None => true
    case Some(c) =>
      && c.id < |log|
      && log[c.id].Launched? && log[c.id].id == c.id && log[c.id].name == s.config.name
      && var p := PhaseOf(log, c.id);
         if s.state.Stopping? then
           (p == Asked(s.timers.stopDeadline, s.killSent)) || (p.TimedOut? && s.killSent) || (p.PutDown? && s.killSent)
         else
           p.Up? && !s.killSent
  }

  /**
   What a call on one service does to every process: the one the service held is still held or
   has exited, a new one gets a fresh id, and no other process is touched.
   */
  ghost predicate Evolves(s: Svc, log: Log, t: Svc, newLog: Log) {
    && SvcInv(t) && Agrees(t, newLog) && t.config.name == s.config.name
    && |log| <= |newLog| && newLog[..|log|] == log
    && FreshFrom(newLog, |newLog|)
    && (NothingBroken(log) ==> NothingBroken(newLog))
    && (forall id :: id in Held(t) ==> id in Held(s) || id >= |log|)
    && (forall id: nat :: id !in Held(s) && id < |log| ==> PhaseOf(newLog, id) == PhaseOf(log, id))
    && (forall id: nat :: Lives(PhaseOf(newLog, id)) ==>
          id in Held(t) || (id < |log| && id !in Held(s)))
  }

  lemma EvolvesTrans(a: Svc, la: Log, b: Svc, lb: Log, c: Svc, lc: Log)
    requires Evolves(a, la, b, lb) && Evolves(b, lb, c, lc)
    ensures Evolves(a, la, c, lc)
  {
    assert lc[..|la|] == lc[..|lb|][..|la|];
  }

  /** A change of fields without an interaction. */
  lemma EvolvesQuietly(s: Svc, log: Log, t: Svc)
    requires FreshFrom(log, |log|)
    requires SvcInv(t) && Agrees(t, log) && t.config.name == s.config.name && t.child == s.child
    requires forall id: nat :: Lives(PhaseOf(log, id)) && id in Held(s) ==> id in Held(t)
    ensures Evolves(s, log, t, log)
  {}

  /** One interaction with the process the service holds. */
  lemma EvolvesByEvent(s: Svc, log: Log, e: Event, t: Svc)
    requires FreshFrom(log, |log|) && Agrees(s, log) && s.child.Some?
    requires (e.Polled? || e.Exited? || e.StopRequested? || e.Escalated? || e.Killed?) && e.id == s.child.value.id
    requires !After(PhaseOf(log, e.id), e, e.id).Broken?
    requires SvcInv(t) && t.config.name == s.config.name
    requires t.child == s.child || (t.child.None? && e.Exited?)
    requires t.child.Some? ==> Agrees(t, log + [e])
    ensures Evolves(s, log, t, log + [e])
  {
    forall id: nat
      ensures PhaseOf(log + [e], id) == After(PhaseOf(log, id), e, id)
    {
      PhaseAppend(log, e, id);
    }
  }

  lemma EvolvesByLaunch(s: Svc, log: Log, e: Event, t: Svc)
    requires FreshFrom(log, |log|) && s.child.None?
    requires e.Launched? && e.id == |log| && e.name == s.config.name
    requires SvcInv(t) && t.config.name == s.config.name
    requires t.child.Some? && t.child.value.id == |log| && !t.state.Stopping? && !t.killSent
    ensures Evolves(s, log, t, log + [e])
  {
    forall id: nat
      ensures PhaseOf(log + [e], id) == After(PhaseOf(log, id), e, id)
    {
      PhaseAppend(log, e, id);
    }
  }

  lemma EvolvesByRefusal(s: Svc, log: Log, t: Svc)
    requires FreshFrom(log, |log|) && s.child.None?
    requires SvcInv(t) && t.config.name == s.config.name && t.child.None?
    ensures Evolves(s, log, t, log + [LaunchRefused(s.config.name)])
  {
    forall id: nat
      ensures PhaseOf(log + [LaunchRefused(s.config.name)], id) == PhaseOf(log, id)
    {
      PhaseAppend(log, LaunchRefused(s.config.name), id);
    }
  }

  /** Only the process held and the name matter on the left-hand side. */
  lemma EvolvesFrom(s: Svc, a: Svc, log: Log, r: Outcome)
    requires Evolves(a, log, r.svc, r.log) && a.child == s.child && a.config.name == s.config.name
    ensures Evolves(s, log, r.svc, r.log)
  {}

  lemma LaunchEvolves(s: Svc, log: Log, ctx: Ctx)
    requires FreshFrom(log, |log|)
    requires s.child.None? && !s.pendingStart && !s.restartAfterStop && !s.report.usageValid
    ensures var r := Launch(s, log, ctx); Evolves(s, log, r.svc, r.log)
  {
    var r := Launch(s, log, ctx);
    if ctx.env(|log|).pid.Some? {
      EvolvesByLaunch(s, log, Launched(|log|, s.config.name, s.config.dependsOn, ctx.running), r.svc);
    } else {
      EvolvesByRefusal(s, log, r.svc);
    }
  }

  lemma RelaunchEvolves(s: Svc, log: Log, ctx: Ctx)
    requires FreshFrom(log, |log|)
    requires s.child.None? && !s.pendingStart && !s.restartAfterStop && !s.report.usageValid
    ensures var r := Relaunch(s, log, ctx); Evolves(s, log, r.svc, r.log)
  {
    if ctx.dependenciesReady {
      LaunchEvolves(s, log, ctx);
    } else {
      EvolvesQuietly(s, log, s.(state := Waiting));
    }
  }

  lemma StartEvolves(s: Svc, log: Log, ctx: Ctx)
    requires SvcInv(s) && FreshFrom(log, |log|) && Agrees(s, log)
    ensures var r := Start(s, log, ctx); Evolves(s, log, r.svc, r.log)
  {
    if IsAlive(s.state) {
      EvolvesQuietly(s, log, Start(s, log, ctx).svc);
    } else if s.state.Waiting? {
      assert Start(s, log, ctx) == Relaunch(s, log, ctx);
      RelaunchEvolves(s, log, ctx);
    } else {
      var cleared := s.(history := NO_HISTORY);
      RelaunchEvolves(cleared, log, ctx);
      assert Start(s, log, ctx) == Relaunch(cleared, log, ctx);
      EvolvesFrom(s, cleared, log, Relaunch(cleared, log, ctx));
    }
  }

  lemma BeginStopEvolves(s: Svc, log: Log, ctx: Ctx, silence: bool, t: Svc)
    requires SvcInv(s) && FreshFrom(log, |log|) && Agrees(s, log)
    requires s.child.Some? && !s.state.Stopping?
    requires var r := BeginStop(s, log, ctx, silence).svc;
      t == r || t == r.(pendingStart := true, pendingStartIsRestart := true) || t == r.(restartAfterStop := true)
    ensures Evolves(s, log, t, BeginStop(s, log, ctx, silence).log)
  {
    var e := StopRequested(s.child.value.id, ctx.now.steady + s.config.stopTimeout, s.config.stopSignal.Kill?,
                           ctx.dependents, silence);
    PhaseAppend(log, e, s.child.value.id);
    EvolvesByEvent(s, log, e, t);
  }

  lemma StopEvolves(s: Svc, log: Log, ctx: Ctx)
    requires SvcInv(s) && FreshFrom(log, |log|) && Agrees(s, log)
    ensures var r := Stop(s, log, ctx); Evolves(s, log, r.svc, r.log)
  {
    if IsAlive(s.state) && !s.state.Stopping? {
      BeginStopEvolves(s, log, ctx, false, BeginStop(s, log, ctx, false).svc);
    } else {
      EvolvesQuietly(s, log, Stop(s, log, ctx).svc);
    }
  }

  lemma RestartEvolves(s: Svc, log: Log, ctx: Ctx)
    requires SvcInv(s) && FreshFrom(log, |log|) && Agrees(s, log)
    ensures var r := Restart(s, log, ctx); Evolves(s, log, r.svc, r.log)
  {
    if s.state.Stopping? {
      EvolvesQuietly(s, log, Restart(s, log, ctx).svc);
    } else if IsAlive(s.state) {
      BeginStopEvolves(s, log, ctx, false, Restart(s, log, ctx).svc);
    } else {
      StartEvolves(s, log, ctx);
    }
  }

  lemma KillEvolves(s: Svc, log: Log, now: Instant)
    requires SvcInv(s) && FreshFrom(log, |log|) && Agrees(s, log)
    ensures var r := KillNow(s, log, now); Evolves(s, log, r.svc, r.log)
  {
    var r := KillNow(s, log, now);
    if s.child.Some? {
      PhaseAppend(log, Killed(s.child.value.id), s.child.value.id);
      EvolvesByEvent(s, log, Killed(s.child.value.id), r.svc);
    } else {
      EvolvesQuietly(s, log, r.svc);
    }
  }

  lemma CheckHeartbeatEvolves(s: Svc, log: Log, ctx: Ctx)
    requires SvcInv(s) && FreshFrom(log, |log|) && Agrees(s, log)
    requires s.child.Some? && !s.state.Stopping? && HeartbeatEnabled(s.config)
    ensures var r := CheckHeartbeat(s, log, ctx); Evolves(s, log, r.svc, r.log)
  {
    var r := CheckHeartbeat(s, log, ctx);
    var missed := ToInt32(Quotient(ctx.now.steady - s.timers.lastBeat, s.config.heartbeatInterval));
    var unhealthy := s.(report := s.report.(missedBeats := missed), state := Unhealthy);
    if missed < s.config.heartbeatTolerance || s.state.Unhealthy? || s.config.unhealthyAction.LeaveAlone? {
      assert r.log == log;
      EvolvesQuietly(s, log, r.svc);
    } else {
      assert r.svc == BeginStop(unhealthy, log, ctx, true).svc.(restartAfterStop := true);
      assert r.log == BeginStop(unhealthy, log, ctx, true).log;
      BeginStopEvolves(unhealthy, log, ctx, true, r.svc);
      EvolvesFrom(s, unhealthy, log, r);
    }
  }

  /** What HandleExit leaves of a service before it decides about a restart. */
  function Cleared(s: Svc, status: ExitStatus, now: Instant): Svc {
    AtRest(WithoutProcess(s, status, now))
  }

  lemma QueuedStartEvolves(s: Svc, log: Log, status: ExitStatus, ctx: Ctx)
    requires SvcInv(s) && FreshFrom(log, |log|) && s.state.Stopping?
    requires ctx.launchAllowed && !s.restartAfterStop && s.pendingStart
    ensures var r := HandleExit(s, log, status, ctx); Evolves(Cleared(s, status, ctx.now), log, r.svc, r.log)
  {
    var cleared := Cleared(s, status, ctx.now);
    var counted := if s.pendingStartIsRestart then CountRestart(cleared) else cleared;
    RelaunchEvolves(counted, log, ctx);
    assert HandleExit(s, log, status, ctx) == Relaunch(counted, log, ctx);
    EvolvesFrom(Cleared(s, status, ctx.now), counted, log, Relaunch(counted, log, ctx));
  }

  lemma RestEvolves(s: Svc, log: Log, status: ExitStatus, ctx: Ctx)
    requires SvcInv(s) && FreshFrom(log, |log|)
    requires !(s.state.Stopping? && ctx.launchAllowed && !s.restartAfterStop && s.pendingStart)
    ensures var r := HandleExit(s, log, status, ctx); Evolves(Cleared(s, status, ctx.now), log, r.svc, r.log)
  {
    var r := HandleExit(s, log, status, ctx);
    assert r.log == log;
    var cleared := Cleared(s, status, ctx.now);
    if s.state.Stopping? {
      assert Rested(cleared, r.svc);
    } else {
      assert Rested(cleared, r.svc);
    }
    EvolvesQuietly(cleared, log, r.svc);
  }

  lemma HandleExitEvolves(s: Svc, log: Log, status: ExitStatus, ctx: Ctx)
    requires SvcInv(s) && FreshFrom(log, |log|) && Agrees(s, log) && s.child.Some?
    ensures var r := HandleExit(s, log + [Exited(s.child.value.id)], status, ctx); Evolves(s, log, r.svc, r.log)
  {
    var e := Exited(s.child.value.id);
    var cleared := Cleared(s, status, ctx.now);
    EvolvesByEvent(s, log, e, cleared);
    var r := HandleExit(s, log + [e], status, ctx);
    if s.state.Stopping? && ctx.launchAllowed && !s.restartAfterStop && s.pendingStart {
      QueuedStartEvolves(s, log + [e], status, ctx);
    } else {
      RestEvolves(s, log + [e], status, ctx);
    }
    EvolvesTrans(s, log, cleared, log + [e], r.svc, r.log);
  }

  lemma PollEvolves(s: Svc, log: Log, ctx: Ctx)
    requires SvcInv(s) && FreshFrom(log, |log|) && Agrees(s, log)
    ensures var r := PollChild(s, log, ctx); Evolves(s, log, r.svc, r.log)
  {
    if s.child.None? {
      EvolvesQuietly(s, log, s);
    } else if ctx.env(|log|).exit.None? {
      PhaseAppend(log, Polled(s.child.value.id), s.child.value.id);
      EvolvesByEvent(s, log, Polled(s.child.value.id), s);
    } else {
      HandleExitEvolves(s, log, ctx.env(|log|).exit.value, ctx);
    }
  }

  lemma StoppingEvolves(s: Svc, log: Log, ctx: Ctx)
    requires SvcInv(s) && FreshFrom(log, |log|) && Agrees(s, log) && s.state.Stopping?
    ensures var r := CheckStop(s, log, ctx.now); Evolves(s, log, r.svc, r.log)
  {
    var r := CheckStop(s, log, ctx.now);
    if !s.killSent && ctx.now.steady >= s.timers.stopDeadline {
      var e := Escalated(s.child.value.id, ctx.now.steady);
      PhaseAppend(log, e, s.child.value.id);
      EvolvesByEvent(s, log, e, r.svc);
    } else {
      EvolvesQuietly(s, log, r.svc);
    }
  }

  lemma BackoffEvolves(s: Svc, log: Log, ctx: Ctx)
    requires SvcInv(s) && FreshFrom(log, |log|) && Agrees(s, log) && s.state.Backoff?
    ensures var r := Advance(s, log, ctx); Evolves(s, log, r.svc, r.log)
  {
    if ctx.launchAllowed && ctx.now.steady >= s.timers.restartAt {
      var counted := CountRestart(s);
      RelaunchEvolves(counted, log, ctx);
      assert Advance(s, log, ctx) == Relaunch(counted, log, ctx);
      EvolvesFrom(s, counted, log, Relaunch(counted, log, ctx));
    } else {
      EvolvesQuietly(s, log, s);
    }
  }

  lemma AdvanceEvolves(s: Svc, log: Log, ctx: Ctx)
    requires SvcInv(s) && FreshFrom(log, |log|) && Agrees(s, log)
    ensures var r := Advance(s, log, ctx); Evolves(s, log, r.svc, r.log)
  {
    if s.state.Stopping? {
      assert Advance(s, log, ctx) == CheckStop(s, log, ctx.now);
      StoppingEvolves(s, log, ctx);
    } else if s.state.Backoff? {
      BackoffEvolves(s, log, ctx);
    } else if !IsAlive(s.state) {
      EvolvesQuietly(s, log, s);
    } else if HeartbeatEnabled(s.config) {
      assert Advance(s, log, ctx) == CheckHeartbeat(s, log, ctx);
      CheckHeartbeatEvolves(s, log, ctx);
    } else {
      assert Advance(s, log, ctx).log == log;
      EvolvesQuietly(s, log, Advance(s, log, ctx).svc);
    }
  }

  lemma TickEvolves(s: Svc, log: Log, ctx: Ctx)
    requires SvcInv(s) && FreshFrom(log, |log|) && Agrees(s, log)
    ensures var r := Tick(s, log, ctx); Evolves(s, log, r.svc, r.log)
  {
    var polled := PollChild(s, log, ctx);
    PollEvolves(s, log, ctx);
    AdvanceEvolves(polled.svc, polled.log, ctx);
    var r := Tick(s, log, ctx);
    EvolvesTrans(s, log, polled.svc, polled.log, r.svc, r.log);
  }

  lemma FieldsEvolve(s: Svc, log: Log, op: SvcOp, ctx: Ctx)
    requires SvcInv(s) && FreshFrom(log, |log|) && Agrees(s, log)
    requires op.HeartbeatOp? || op.AbandonOp? || op.SampleOp? || op.ReplaceOp? || op.ReaddOp?
    requires op.ReplaceOp? ==> op.config.name == s.config.name
    ensures var r := Step(s, log, op, ctx); Evolves(s, log, r.svc, r.log)
  {
    EvolvesQuietly(s, log, Step(s, log, op, ctx).svc);
  }

  /** Every call on a service keeps its fields and the log in agreement. */
  lemma StepEvolves(s: Svc, log: Log, op: SvcOp, ctx: Ctx)
    requires SvcInv(s) && FreshFrom(log, |log|) && Agrees(s, log)
    requires op.ReplaceOp? ==> op.config.name == s.config.name
    ensures var r := Step(s, log, op, ctx); Evolves(s, log, r.svc, r.log)
  {
    match op
    case TickOp => TickEvolves(s, log, ctx);
    case StartOp => StartEvolves(s, log, ctx);
    case RestartOp => RestartEvolves(s, log, ctx);
    case StopOp => StopEvolves(s, log, ctx);
    case KillOp => KillEvolves(s, log, ctx.now);
    case RetireOp => StopEvolves(s.(removing := true), log, ctx);
    case _ => FieldsEvolve(s, log, op, ctx);
  }

  // ----- when a call launches

  /** Every launch recorded between the two logs was allowed, and names the service, its dependencies and who ran. */
  ghost predicate LaunchesOnlyIf(log: Log, newLog: Log, allowed: bool, config: ServiceConfig, running: set<string>) {
    forall k :: |log| <= k < |newLog| && newLog[k].Launched? ==>
      && allowed && newLog[k].name == config.name
      && newLog[k].dependsOn == config.dependsOn && newLog[k].running == running
  }

  lemma RelaunchLaunches(s: Svc, log: Log, ctx: Ctx)
    ensures var r := Relaunch(s, log, ctx);
            LaunchesOnlyIf(log, r.log, ctx.dependenciesReady, s.config, ctx.running)
  {}

  lemma StartLaunches(s: Svc, log: Log, ctx: Ctx)
    ensures var r := Start(s, log, ctx);
            LaunchesOnlyIf(log, r.log, ctx.dependenciesReady, s.config, ctx.running)
  {
    RelaunchLaunches(s, log, ctx);
    RelaunchLaunches(s.(history := NO_HISTORY), log, ctx);
  }

  lemma ExitLaunches(s: Svc, log: Log, status: ExitStatus, ctx: Ctx)
    requires SvcInv(s)
    ensures var r := HandleExit(s, log, status, ctx);
            log <= r.log &&
            LaunchesOnlyIf(log, r.log, ctx.launchAllowed && ctx.dependenciesReady, s.config, ctx.running)
  {
    if s.state.Stopping? && ctx.launchAllowed && !s.restartAfterStop && s.pendingStart {
      var cleared := Cleared(s, status, ctx.now);
      var counted := if s.pendingStartIsRestart then CountRestart(cleared) else cleared;
      assert HandleExit(s, log, status, ctx) == Relaunch(counted, log, ctx);
      RelaunchLaunches(counted, log, ctx);
    } else {
      assert HandleExit(s, log, status, ctx).log == log;
    }
  }

  lemma PollLaunches(s: Svc, log: Log, ctx: Ctx)
    requires SvcInv(s)
    ensures var r := PollChild(s, log, ctx);
            log <= r.log &&
            LaunchesOnlyIf(log, r.log, ctx.launchAllowed && ctx.dependenciesReady, s.config, ctx.running)
  {
    if s.child.Some? && ctx.env(|log|).exit.Some? {
      ExitLaunches(s, log + [Exited(s.child.value.id)], ctx.env(|log|).exit.value, ctx);
    }
  }

  lemma AdvanceLaunches(s: Svc, log: Log, ctx: Ctx)
    requires SvcInv(s)
    ensures var r := Advance(s, log, ctx);
            log <= r.log &&
            LaunchesOnlyIf(log, r.log, ctx.launchAllowed && ctx.dependenciesReady, s.config, ctx.running)
  {
    if s.state.Backoff? && ctx.launchAllowed && ctx.now.steady >= s.timers.restartAt {
      var counted := CountRestart(s);
      assert Advance(s, log, ctx) == Relaunch(counted, log, ctx);
      RelaunchLaunches(counted, log, ctx);
    }
  }

  lemma TickLaunches(s: Svc, log: Log, ctx: Ctx)
    requires SvcInv(s)
    ensures var r := Tick(s, log, ctx);
            LaunchesOnlyIf(log, r.log, ctx.launchAllowed && ctx.dependenciesReady, s.config, ctx.running)
  {
    PollLaunches(s, log, ctx);
    var polled := PollChild(s, log, ctx);
    AdvanceLaunches(polled.svc, polled.log, ctx);
    forall k | |log| <= k < |polled.log|
      ensures Tick(s, log, ctx).log[k] == polled.log[k]
    {}
  }

  /** Whether a call with this context may launch at all. */
  predicate MayLaunch(op: SvcOp, ctx: Ctx) {
    || (op.TickOp? && ctx.launchAllowed && ctx.dependenciesReady)
    || ((op.StartOp? || op.RestartOp?) && ctx.dependenciesReady)
  }

  /** A call launches only with every dependency up, and from Tick only when the manager allows it. */
  lemma StepLaunches(s: Svc, log: Log, op: SvcOp, ctx: Ctx)
    requires SvcInv(s)
    ensures LaunchesOnlyIf(log, Step(s, log, op, ctx).log, MayLaunch(op, ctx), s.config, ctx.running)
  {
    match op
    case TickOp => TickLaunches(s, log, ctx);
    case StartOp => StartLaunches(s, log, ctx);
    case RestartOp => StartLaunches(s, log, ctx);
    case _ =>
  }
}
