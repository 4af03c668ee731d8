/**
 The other side of the deadline: a service whose process does not go before it is killed is live until
 its own stop time is over, so no shutdown is shorter than the longest of those.
 */
module Outlasting {
  import opened Launching
  import opened ServiceSpec
  import opened ManagerSpec
  import opened Lifecycle
  import opened MicroSteps
  import opened Runs
  import opened Supervision
  import opened ShutdownOrder
  import opened Deadline

  /** From position `from` on, no process exits that was not sent a signal it cannot ignore. */
  ghost predicate OnlyKilledExit(log: Log, from: nat) {
    forall k :: from <= k < |log| && log[k].Exited? ==> Doomed(PhaseOf(log[..k], log[k].id))
  }

  /** Live, and not killed by the clock before `end`, when it is asked to stop at `begin` or later. */
  predicate LastsUntil(s: Svc, begin: int, end: int) {
    && IsAlive(s.state)
    && if s.state.Stopping? then !s.killSent && s.timers.stopDeadline >= end
       else !s.config.stopSignal.Kill? && begin + s.config.stopTimeout >= end
  }

  // ----- one service

  lemma AdvanceLasts(s: Svc, log: Log, ctx: Ctx, begin: int, end: int)
    requires SvcInv(s) && LastsUntil(s, begin, end) && begin <= ctx.now.steady < end
    ensures LastsUntil(Advance(s, log, ctx).svc, begin, end)
  {
    hide ToInt32, Quotient;
  }

  lemma TickLasts(s: Svc, log: Log, ctx: Ctx, begin: int, end: int)
    requires SvcInv(s) && LastsUntil(s, begin, end) && begin <= ctx.now.steady < end
    requires ctx.env(|log|).exit.None?
    ensures LastsUntil(ServiceSpec.Tick(s, log, ctx).svc, begin, end)
  {
    hide Advance;
    AdvanceLasts(s, log + [Polled(s.child.value.id)], ctx, begin, end);
  }

  lemma ExitIsLogged(s: Svc, log: Log, ctx: Ctx)
    requires SvcInv(s) && s.child.Some? && ctx.env(|log|).exit.Some?
    ensures var r := ServiceSpec.Tick(s, log, ctx);
            |r.log| > |log| && r.log[..|log|] == log && r.log[|log|] == Exited(s.child.value.id)
  {
    hide HandleExit;
    var exited := log + [Exited(s.child.value.id)];
    var polled := PollChild(s, log, ctx);
    ExitLogs(s, exited, ctx.env(|log|).exit.value, ctx);
    AdvanceLaunches(polled.svc, polled.log, ctx);
    var r := ServiceSpec.Tick(s, log, ctx);
    assert exited <= polled.log && polled.log <= r.log;
    assert r.log[..|log|] == exited[..|log|];
  }

  lemma ExitLogs(s: Svc, log: Log, status: ExitStatus, ctx: Ctx)
    ensures log <= HandleExit(s, log, status, ctx).log
  {
    hide ScheduleRestart;
  }

  lemma ExitBreaksPromise(s: Svc, log: Log, ctx: Ctx, begin: int, end: int, final: Log, from: nat)
    requires SvcInv(s) && Agrees(s, log) && LastsUntil(s, begin, end)
    requires from <= |log| && ctx.env(|log|).exit.Some? && ServiceSpec.Tick(s, log, ctx).log <= final
    ensures !OnlyKilledExit(final, from)
  {
    ExitIsLogged(s, log, ctx);
    var r := ServiceSpec.Tick(s, log, ctx);
    assert final[|log|] == r.log[|log|] && final[..|log|] == r.log[..|log|];
    assert !Doomed(PhaseOf(final[..|log|], s.child.value.id));
  }

  /** What has not been killed has not exited. */
  lemma FoundAlive(s: Svc, log: Log, ctx: Ctx, begin: int, end: int, final: Log, from: nat)
    requires SvcInv(s) && Agrees(s, log) && LastsUntil(s, begin, end)
    requires from <= |log| && OnlyKilledExit(final, from) && ServiceSpec.Tick(s, log, ctx).log <= final
    ensures ctx.env(|log|).exit.None?
  {
    if ctx.env(|log|).exit.Some? {
      ExitBreaksPromise(s, log, ctx, begin, end, final, from);
    }
  }

  lemma StopLasts(s: Svc, log: Log, ctx: Ctx, begin: int, end: int)
    requires SvcInv(s) && LastsUntil(s, begin, end) && begin <= ctx.now.steady
    ensures LastsUntil(ServiceSpec.Stop(s, log, ctx).svc, begin, end)
  {}

  lemma HeartbeatLasts(s: Svc, log: Log, now: Instant, begin: int, end: int)
    requires LastsUntil(s, begin, end)
    ensures LastsUntil(ServiceSpec.Heartbeat(s, log, now).svc, begin, end)
  {}

  lemma SampleLasts(s: Svc, reading: UsageSample, begin: int, end: int)
    ensures LastsUntil(s, begin, end) ==> LastsUntil(ServiceSpec.Sample(s, reading), begin, end)
  {}

  // ----- the manager

  lemma ActTickLasts(m: Mgr, i: nat, env: Env, now: Instant, begin: int, end: int, final: Log, from: nat)
    requires Inv(m) && i < |m.services| && LastsUntil(m.services[i], begin, end) && begin <= now.steady < end
    requires from <= |m.log| && OnlyKilledExit(final, from) && Act(m, i, TickOp, env, now).mgr.log <= final
    ensures LastsUntil(Act(m, i, TickOp, env, now).mgr.services[i], begin, end)
  {
    hide ServiceSpec.Tick, LastsUntil, OnlyKilledExit, Agrees;
    var s, ctx := m.services[i], CtxFor(m, i, env, now);
    assert Agrees(s, m.log);
    FoundAlive(s, m.log, ctx, begin, end, final, from);
    TickLasts(s, m.log, ctx, begin, end);
  }

  lemma {:induction false} TickServicesLasts(m: Mgr, i: nat, env: Env, now: Instant, begin: int, end: int, final: Log,
                                             from: nat, j: nat)
    requires Inv(m) && m.shuttingDown && i <= j < |m.services|
    requires LastsUntil(m.services[j], begin, end) && begin <= now.steady < end
    requires from <= |m.log| && OnlyKilledExit(final, from) && TickServices(m, i, env, now).log <= final
    ensures LastsUntil(TickServices(m, i, env, now).services[j], begin, end)
    decreases |m.services| - i
  {
    hide Act, LastsUntil, OnlyKilledExit;
    var next := Act(m, i, TickOp, env, now).mgr;
    ActTickLog(m, i, env, now);
    assert TickServices(m, i, env, now) == TickServices(next, i + 1, env, now);
    if j == i {
      TickServicesLog(next, i + 1, env, now);
      PrefixTrans(next.log, TickServices(m, i, env, now).log, final);
      ActTickLasts(m, i, env, now, begin, end, final, from);
      TickServicesLeaves(next, i + 1, env, now, i);
    } else {
      TickServicesLasts(next, i + 1, env, now, begin, end, final, from, j);
    }
  }

  lemma StopFromLasts(m: Mgr, env: Env, now: Instant, begin: int, end: int, j: nat)
    requires AllOk(m.services) && j < |m.services| && LastsUntil(m.services[j], begin, end) && begin <= now.steady
    ensures LastsUntil(StopFrom(m, 0, env, now).services[j], begin, end)
  {
    hide ServiceSpec.Stop, LastsUntil;
    StopFromAt(m, 0, env, now, j);
    StopLasts(m.services[j], m.log, CtxFor(m, j, env, now), begin, end);
  }

  /** Some service lasts. */
  predicate OneLasts(ss: seq<Svc>, begin: int, end: int) {
    exists i :: 0 <= i < |ss| && LastsUntil(ss[i], begin, end)
  }

  lemma ManagerTickLasts(m: Mgr, env: Env, now: Instant, begin: int, end: int, from: nat)
    requires WellManaged(m) && m.shuttingDown && OneLasts(m.services, begin, end) && begin <= now.steady < end
    requires from <= |m.log| && OnlyKilledExit(ManagerSpec.Tick(m, env, now).log, from)
    ensures OneLasts(ManagerSpec.Tick(m, env, now).services, begin, end)
  {
    hide LastsUntil, OnlyKilledExit, ActiveClosed, Processes, LaunchesSafe, DroppedQuiet, UniqueNames;
    var j :| 0 <= j < |m.services| && LastsUntil(m.services[j], begin, end);
    var ticked := TickServices(m, 0, env, now);
    TickServicesLog(m, 0, env, now);
    var f := FollowUps(ticked, 0, env, now);
    FollowUpsReaches(ticked, 0, [], env, now);
    ReachesLaunchesNothing(ticked, f, [], env, now);
    TickServicesLasts(m, 0, env, now, begin, end, f.log, from, j);
    FollowUpsStop(ticked, 0, env, now);
    StopFromLasts(ticked, env, now, begin, end, j);
    LastingStays(f.services, begin, end, j);
  }

  lemma LastingStays(ss: seq<Svc>, begin: int, end: int, j: nat)
    requires j < |ss| && LastsUntil(ss[j], begin, end)
    ensures OneLasts(Kept(ss), begin, end)
  {
    assert ss[j] in Kept(ss);
    var a :| 0 <= a < |Kept(ss)| && Kept(ss)[a] == ss[j];
  }

  // ----- the other calls of a shutdown

  /** What the daemon does while it waits, ticks before `end` included, but for killing everything. */
  predicate Waits(calls: seq<Call>, begin: int, end: int) {
    forall k :: 0 <= k < |calls| ==>
      && ShutdownOp(calls[k].op) && !calls[k].op.KillEverything?
      && (calls[k].op.Clock? ==> begin <= calls[k].now.steady < end)
  }

  lemma SampleNextLasts(m: Mgr, i: nat, readings: nat -> UsageSample, env: Env, now: Instant, begin: int, end: int,
                        j: nat)
    requires AllOk(m.services) && i < |m.services| && j < |m.services| && LastsUntil(m.services[j], begin, end)
    ensures LastsUntil(SampleNext(m, i, readings, env, now).services[j], begin, end)
  {
    hide LastsUntil, Sample;
    SampleLasts(m.services[i], ReadingOf(m.services[i], readings), begin, end);
  }

  lemma {:induction false} SampleFromLasts(m: Mgr, i: nat, readings: nat -> UsageSample, env: Env, now: Instant,
                                           begin: int, end: int, j: nat)
    requires AllOk(m.services) && i <= |m.services| && j < |m.services| && LastsUntil(m.services[j], begin, end)
    ensures LastsUntil(SampleFrom(m, i, readings, env, now).services[j], begin, end)
    decreases |m.services| - i
  {
    hide LastsUntil, SampleNext;
    if i < |m.services| {
      SampleNextLasts(m, i, readings, env, now, begin, end, j);
      SampleFromLasts(SampleNext(m, i, readings, env, now), i + 1, readings, env, now, begin, end, j);
    }
  }

  lemma ExecuteLasts(m: Mgr, command: int, name: string, env: Env, now: Instant, begin: int, end: int, j: nat)
    requires AllOk(m.services) && m.shuttingDown && j < |m.services| && LastsUntil(m.services[j], begin, end)
    ensures LastsUntil(Execute(m, command, name, env, now).mgr.services[j], begin, end)
  {
    hide LastsUntil, Heartbeat;
    var k := FindIndex(m.services, name);
    HeartbeatLasts(m.services[j], m.log, now, begin, end);
  }

  lemma OtherLasts(m: Mgr, op: Op, env: Env, now: Instant, begin: int, end: int)
    requires AllOk(m.services) && m.shuttingDown && OneLasts(m.services, begin, end)
    requires op.Command? || op.Measure?
    ensures OneLasts(OpStep(m, op, env, now).services, begin, end)
  {
    hide LastsUntil;
    var j :| 0 <= j < |m.services| && LastsUntil(m.services[j], begin, end);
    match op
    case Command(command, name) => ExecuteLasts(m, command, name, env, now, begin, end, j);
    case Measure(readings) => SampleFromLasts(m, 0, readings, env, now, begin, end, j);
  }

  lemma {:induction false} WaitingRunOk(m: Mgr, calls: seq<Call>, env: Env, begin: int, end: int)
    requires AllOk(m.services) && Waits(calls, begin, end)
    ensures RunOk(m, calls, env)
    decreases |calls|
  {
    hide OpStep;
    if calls != [] {
      WaitingRunOk(OpStep(m, calls[0].op, env, calls[0].now), calls[1..], env, begin, end);
    }
  }

  lemma OnlyKilledSoFar(log: Log, final: Log, from: nat)
    requires log <= final && OnlyKilledExit(final, from)
    ensures OnlyKilledExit(log, from)
  {
    forall k | from <= k < |log| && log[k].Exited?
      ensures Doomed(PhaseOf(log[..k], log[k].id))
    {
      assert log[..k] == final[..k] && log[k] == final[k];
    }
  }

  lemma {:induction false} RunLasts(m: Mgr, calls: seq<Call>, env: Env, begin: int, end: int, from: nat)
    requires WellManaged(m) && m.shuttingDown && OneLasts(m.services, begin, end) && Waits(calls, begin, end)
    requires from <= |m.log| && OnlyKilledExit(Run(m, calls, env).log, from)
    ensures OneLasts(Run(m, calls, env).services, begin, end)
    decreases |calls|
  {
    hide ManagerSpec.Tick, OneLasts, Execute, SampleFrom, OnlyKilledExit, KillAll;
    hide ActiveClosed, Processes, LaunchesSafe, DroppedQuiet, UniqueNames;
    if calls != [] {
      var op, now := calls[0].op, calls[0].now;
      var next := OpStep(m, op, env, now);
      WaitingRunOk(m, calls, env, begin, end);
      OpKeepsManaged(m, op, env, now);
      OpReaches(m, op, env, now);
      ReachesLaunchesNothing(m, next, Wakes(op), env, now);
      ShutdownLaunchesNothing(next, calls[1..], env);
      if op.Clock? {
        OnlyKilledSoFar(next.log, Run(m, calls, env).log, from);
        ManagerTickLasts(m, env, now, begin, end, from);
      } else {
        OtherLasts(m, op, env, now, begin, end);
      }
      RunLasts(next, calls[1..], env, begin, end, from);
    }
  }

  /**
   When no process exits that has not been killed, a live service is still live at every tick before
   its own stop time is over, counted from StopAll or, if it is stopping already, by its deadline:
   whatever waits a shorter time for the shutdown waits in vain.
   */
  lemma OwnStopTimeIsNeeded(m: Mgr, begin: Instant, calls: seq<Call>, env: Env, i: nat, end: int)
    requires WellManaged(m) && i < |m.services| && LastsUntil(m.services[i], begin.steady, end)
    requires Waits(calls, begin.steady, end)
    requires OnlyKilledExit(Run(StopAll(m, env, begin), calls, env).log, |StopAll(m, env, begin).log|)
    ensures !AllStopped(Run(StopAll(m, env, begin), calls, env))
  {
    hide Run, OnlyKilledExit, LastsUntil, Processes, LaunchesSafe, DroppedQuiet, UniqueNames, ActiveClosed;
    var stopped := StopAll(m, env, begin);
    OpKeepsManaged(m, Shutdown, env, begin);
    StopFromLasts(m.(shuttingDown := true), env, begin, begin.steady, end, i);
    RunLasts(stopped, calls, env, begin.steady, end, |stopped.log|);
    LastingIsLive(Run(stopped, calls, env), begin.steady, end);
  }

  lemma LastingIsLive(m: Mgr, begin: int, end: int)
    requires OneLasts(m.services, begin, end)
    ensures !AllStopped(m)
  {}
}
