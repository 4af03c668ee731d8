/**
 The order of stops over a whole shutdown, read off the log: a service is asked to stop only when
 no live service depends on it, except that lost heartbeats stop one at once.
 */
module StopOrder {
  import opened Launching
  import opened ServiceSpec
  import opened Heartbeats
  import opened ManagerSpec
  import opened Supervision
  import opened ShutdownOrder

  /** Since `log`, every stop request found no live dependent or, if `silence` is allowed, had lost heartbeats. */
  ghost predicate InOrder(log: Log, newLog: Log, silence: bool) {
    log <= newLog &&
    forall k :: |log| <= k < |newLog| && newLog[k].StopRequested? ==>
      newLog[k].dependents == {} || (silence && newLog[k].silence)
  }

  /** No service is set up to be restarted when its heartbeats are lost. */
  predicate NoneRestartsOnSilence(ss: seq<Svc>) {
    forall i :: 0 <= i < |ss| ==> !RestartsOnSilence(ss[i].config)
  }

  lemma InOrderSelf(log: Log, silence: bool)
    ensures InOrder(log, log, silence)
  {}

  lemma InOrderTrans(a: Log, b: Log, c: Log, silence: bool)
    requires InOrder(a, b, silence) && InOrder(b, c, silence)
    ensures InOrder(a, c, silence)
  {
    forall k | |a| <= k < |c| && c[k].StopRequested?
      ensures c[k].dependents == {} || (silence && c[k].silence)
    {
      if k < |b| {
        assert c[k] == b[k];
      }
    }
  }

  lemma NoneRestartsSame(ss: seq<Svc>, tt: seq<Svc>)
    requires SameConfigs(ss, tt) && NoneRestartsOnSilence(ss)
    ensures NoneRestartsOnSilence(tt)
  {
    forall i | 0 <= i < |tt|
      ensures !RestartsOnSilence(tt[i].config)
    {
      assert SameSettings(ss[i], tt[i]);
    }
  }

  // ----- the loops of a shutdown

  lemma FreeHasNoDependents(ss: seq<Svc>, name: string)
    ensures DependentsStopped(ss, name) <==> LiveDependents(ss, name) == {}
  {
    if !DependentsStopped(ss, name) {
      var i :| 0 <= i < |ss| && name in ss[i].config.dependsOn && IsAlive(ss[i].state);
      assert ss[i].config.name in LiveDependents(ss, name);
    }
  }

  lemma StopAsks(s: Svc, log: Log, ctx: Ctx)
    requires SvcInv(s) && ctx.dependents == {}
    ensures InOrder(log, ServiceSpec.Stop(s, log, ctx).log, false)
  {}

  lemma StopNextInOrder(m: Mgr, i: nat, env: Env, now: Instant)
    requires AllOk(m.services) && i < |m.services|
    ensures InOrder(m.log, StopNext(m, i, env, now).log, false)
  {
    hide ServiceSpec.Stop, DependentsStopped, LiveDependents;
    if Stoppable(m, i) {
      FreeHasNoDependents(m.services, m.services[i].config.name);
      StopAsks(m.services[i], m.log, CtxFor(m, i, env, now));
    }
  }

  lemma {:induction false} StopFromInOrder(m: Mgr, i: nat, env: Env, now: Instant)
    requires AllOk(m.services) && i <= |m.services|
    ensures InOrder(m.log, StopFrom(m, i, env, now).log, false)
    decreases |m.services| - i
  {
    hide StopNext, InOrder;
    InOrderSelf(m.log, false);
    if i < |m.services| {
      var next := StopNext(m, i, env, now);
      StopNextInOrder(m, i, env, now);
      StopFromInOrder(next, i + 1, env, now);
      InOrderTrans(m.log, next.log, StopFrom(next, i + 1, env, now).log, false);
    }
  }

  lemma {:induction false} TickServicesInOrder(m: Mgr, i: nat, env: Env, now: Instant, silence: bool)
    requires AllOk(m.services) && i <= |m.services| && (silence || NoneRestartsOnSilence(m.services))
    ensures InOrder(m.log, TickServices(m, i, env, now).log, silence)
    decreases |m.services| - i
  {
    hide Act, InOrder, NoneRestartsOnSilence;
    InOrderSelf(m.log, silence);
    if i < |m.services| {
      var next := Act(m, i, TickOp, env, now).mgr;
      TickActInOrder(m, i, env, now, silence);
      if !silence {
        NoneRestartsSame(m.services, next.services);
      }
      TickServicesInOrder(next, i + 1, env, now, silence);
      InOrderTrans(m.log, next.log, TickServices(next, i + 1, env, now).log, silence);
    }
  }

  lemma TickActInOrder(m: Mgr, i: nat, env: Env, now: Instant, silence: bool)
    requires AllOk(m.services) && i < |m.services| && (silence || NoneRestartsOnSilence(m.services))
    ensures InOrder(m.log, Act(m, i, TickOp, env, now).mgr.log, silence)
  {
    hide ServiceSpec.Tick, RestartsOnSilence;
    TickAsksForSilence(m.services[i], m.log, CtxFor(m, i, env, now));
  }

  lemma {:induction false} KillFromInOrder(m: Mgr, i: nat, env: Env, now: Instant)
    requires AllOk(m.services) && i <= |m.services|
    ensures InOrder(m.log, KillFrom(m, i, env, now).log, false)
    decreases |m.services| - i
  {
    hide InOrder;
    InOrderSelf(m.log, false);
    if i < |m.services| {
      var next := Act(m, i, KillOp, env, now).mgr;
      KillAsks(m.services[i], m.log, now);
      KillFromInOrder(next, i + 1, env, now);
      InOrderTrans(m.log, next.log, KillFrom(next, i + 1, env, now).log, false);
    }
  }

  lemma KillAsks(s: Svc, log: Log, now: Instant)
    ensures InOrder(log, KillNow(s, log, now).log, false)
  {}

  lemma {:induction false} SampleLogsNothing(m: Mgr, i: nat, readings: nat -> UsageSample, env: Env, now: Instant)
    requires AllOk(m.services) && i <= |m.services|
    ensures SampleFrom(m, i, readings, env, now).log == m.log
    decreases |m.services| - i
  {
    if i < |m.services| {
      SampleLogsNothing(SampleNext(m, i, readings, env, now), i + 1, readings, env, now);
    }
  }

  lemma WidenOrder(log: Log, newLog: Log, silence: bool)
    requires InOrder(log, newLog, false)
    ensures InOrder(log, newLog, silence)
  {}

  /** The calls of a shutdown: the daemon answers a reload with a refusal. */
  predicate NoReload(calls: seq<Call>) {
    forall k :: 0 <= k < |calls| ==> !calls[k].op.ReloadWith?
  }

  lemma TickInOrder(m: Mgr, env: Env, now: Instant, silence: bool)
    requires AllOk(m.services) && m.shuttingDown && (silence || NoneRestartsOnSilence(m.services))
    ensures var r := ManagerSpec.Tick(m, env, now);
            && InOrder(m.log, r.log, silence)
            && (NoneRestartsOnSilence(m.services) ==> NoneRestartsOnSilence(r.services))
  {
    hide InOrder, RestartsOnSilence;
    var ticked := TickServices(m, 0, env, now);
    TickServicesInOrder(m, 0, env, now, silence);
    FollowUpsStop(ticked, 0, env, now);
    var f := StopFrom(ticked, 0, env, now);
    StopFromInOrder(ticked, 0, env, now);
    WidenOrder(ticked.log, f.log, silence);
    InOrderTrans(m.log, ticked.log, f.log, silence);
    if NoneRestartsOnSilence(m.services) {
      SameConfigsTrans(m.services, ticked.services, f.services);
      NoneRestartsSame(m.services, f.services);
      var r := Sweep(f);
      forall a | 0 <= a < |r.services|
        ensures !RestartsOnSilence(r.services[a].config)
      {
        assert r.services[a] in Kept(f.services);
      }
    }
  }

  lemma HeartbeatLogsNothing(m: Mgr, command: int, name: string, env: Env, now: Instant)
    requires AllOk(m.services) && m.shuttingDown
    ensures Execute(m, command, name, env, now).mgr.log == m.log
  {}

  lemma OpInOrder(m: Mgr, op: Op, env: Env, now: Instant, silence: bool)
    requires AllOk(m.services) && m.shuttingDown && OpOk(m, op) && !op.ReloadWith?
    requires silence || NoneRestartsOnSilence(m.services)
    ensures var r := OpStep(m, op, env, now);
            && r.shuttingDown && InOrder(m.log, r.log, silence)
            && (NoneRestartsOnSilence(m.services) ==> NoneRestartsOnSilence(r.services))
  {
    hide InOrder, NoneRestartsOnSilence, Execute;
    InOrderSelf(m.log, silence);
    var r := OpStep(m, op, env, now);
    if !op.Clock? && NoneRestartsOnSilence(m.services) {
      NoneRestartsSame(m.services, r.services);
    }
    match op
    case Command(command, name) =>
      HeartbeatLogsNothing(m, command, name, env, now);
    case Clock => TickInOrder(m, env, now, silence);
    case Measure(readings) =>
      SampleLogsNothing(m, 0, readings, env, now);
    case Shutdown =>
      StopFromInOrder(m.(shuttingDown := true), 0, env, now);
      WidenOrder(m.log, r.log, silence);
    case KillEverything =>
      KillFromInOrder(m.(shuttingDown := true), 0, env, now);
      WidenOrder(m.log, r.log, silence);
    case Autostart =>
  }

  lemma {:induction false} CallsInOrder(m: Mgr, calls: seq<Call>, env: Env, silence: bool)
    requires AllOk(m.services) && m.shuttingDown && RunOk(m, calls, env) && NoReload(calls)
    requires silence || NoneRestartsOnSilence(m.services)
    ensures InOrder(m.log, Run(m, calls, env).log, silence)
    decreases |calls|
  {
    hide InOrder, NoneRestartsOnSilence, OpStep;
    InOrderSelf(m.log, silence);
    if calls != [] {
      var next := OpStep(m, calls[0].op, env, calls[0].now);
      OpInOrder(m, calls[0].op, env, calls[0].now, silence);
      CallsInOrder(next, calls[1..], env, silence);
      InOrderTrans(m.log, next.log, Run(next, calls[1..], env).log, silence);
    }
  }

  /**
   The order of a whole shutdown. From StopAll on, whatever commands, ticks, crashes and kills
   follow, a process is asked to stop only when no live service depends on its service, unless its
   heartbeats are lost; with no service set up to be restarted for that, without exception.
   */
  lemma ShutdownKeepsOrder(m: Mgr, begin: Instant, calls: seq<Call>, env: Env)
    requires AllOk(m.services) && RunOk(StopAll(m, env, begin), calls, env) && NoReload(calls)
    ensures InOrder(m.log, Run(StopAll(m, env, begin), calls, env).log, !NoneRestartsOnSilence(m.services))
  {
    hide InOrder, NoneRestartsOnSilence, RunOk, Run;
    var silence := !NoneRestartsOnSilence(m.services);
    var stopped := StopAll(m, env, begin);
    StopFromInOrder(m.(shuttingDown := true), 0, env, begin);
    WidenOrder(m.log, stopped.log, silence);
    if !silence {
      NoneRestartsSame(m.services, stopped.services);
    }
    CallsInOrder(stopped, calls, env, silence);
    InOrderTrans(m.log, stopped.log, Run(stopped, calls, env).log, silence);
  }

  // ----- exactly which services a tick stops

  /** The manager at the moment the first loop of a tick comes to service j. */
  function TickedUpTo(m: Mgr, j: nat, env: Env, now: Instant): (r: Mgr)
    requires AllOk(m.services) && j <= |m.services|
    ensures AllOk(r.services) && |r.services| == |m.services| && r.shuttingDown == m.shuttingDown
    ensures forall k :: j <= k < |m.services| ==> r.services[k] == m.services[k]
  {
    if j == 0 then m else Act(TickedUpTo(m, j - 1, env, now), j - 1, TickOp, env, now).mgr
  }

  lemma {:induction false} TickedOn(m: Mgr, j: nat, env: Env, now: Instant)
    requires AllOk(m.services) && j <= |m.services|
    ensures TickServices(m, 0, env, now) == TickServices(TickedUpTo(m, j, env, now), j, env, now)
  {
    hide Act;
    if j > 0 {
      TickedOn(m, j - 1, env, now);
    }
  }

  lemma {:induction false} TickServicesLeave(m: Mgr, i: nat, env: Env, now: Instant, j: nat)
    requires AllOk(m.services) && j < i <= |m.services|
    ensures TickServices(m, i, env, now).services[j] == m.services[j]
    decreases |m.services| - i
  {
    hide Act;
    if i < |m.services| {
      TickServicesLeave(Act(m, i, TickOp, env, now).mgr, i + 1, env, now, j);
    }
  }

  /** Whether service j has lost its heartbeats when its turn comes. */
  predicate LostAtTurn(m: Mgr, j: nat, env: Env, now: Instant)
    requires AllOk(m.services) && j < |m.services|
  {
    var turn := TickedUpTo(m, j, env, now);
    LostToSilence(m.services[j], turn.log, CtxFor(turn, j, env, now))
  }

  lemma TickedAt(m: Mgr, env: Env, now: Instant, j: nat)
    requires AllOk(m.services) && j < |m.services|
    ensures var turn := TickedUpTo(m, j, env, now);
            && SvcInv(m.services[j])
            && TickServices(m, 0, env, now).services[j] ==
               ServiceSpec.Tick(m.services[j], turn.log, CtxFor(turn, j, env, now)).svc
  {
    hide ServiceSpec.Tick, SvcInv;
    var turn := TickedUpTo(m, j, env, now);
    var next := Act(turn, j, TickOp, env, now).mgr;
    TickedOn(m, j, env, now);
    assert TickServices(turn, j, env, now) == TickServices(next, j + 1, env, now);
    TickServicesLeave(next, j + 1, env, now, j);
    assert turn.services[j] == m.services[j];
  }

  /**
   Exactly which services a tick of a shutdown begins to stop: those whose heartbeats are lost when
   their turn comes, and those still live that no live service depends on.
   */
  lemma TickStopsExactly(m: Mgr, env: Env, now: Instant, j: nat)
    requires AllOk(m.services) && m.shuttingDown && j < |m.services| && !m.services[j].state.Stopping?
    ensures var ticked := TickServices(m, 0, env, now);
            && (ticked.services[j].state.Stopping? <==> LostAtTurn(m, j, env, now))
            && (BeforeSweep(m, env, now).services[j].state.Stopping? <==>
                  || LostAtTurn(m, j, env, now)
                  || (IsAlive(ticked.services[j].state)
                      && DependentsStopped(ticked.services, m.services[j].config.name)))
  {
    hide ServiceSpec.Tick, LostToSilence, TickServices, StopFrom, DependentsStopped;
    var ticked := TickServices(m, 0, env, now);
    var turn := TickedUpTo(m, j, env, now);
    TickedAt(m, env, now, j);
    TickStopsExactlyTheSilent(m.services[j], turn.log, CtxFor(turn, j, env, now));
    FollowUpsStop(ticked, 0, env, now);
    StopFromAt(ticked, 0, env, now, j);
    assert SameSettings(m.services[j], ticked.services[j]);
    StopMakesStopping(ticked, j, env, now);
  }

  lemma StopMakesStopping(m: Mgr, j: nat, env: Env, now: Instant)
    requires AllOk(m.services) && j < |m.services|
    ensures StoppedIfFree(m, j, env, now).state.Stopping? <==>
            m.services[j].state.Stopping? ||
            (IsAlive(m.services[j].state) && DependentsStopped(m.services, m.services[j].config.name))
  {
    hide DependentsStopped;
  }
}
