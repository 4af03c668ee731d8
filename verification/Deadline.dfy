/**
 A shutdown meets a deadline. Every live service owns a budget of time; while any service is
 live, some stopping service spends its budget as fast as the clock runs, and no service's
 budget ever grows, whatever crashes, heartbeats and kills happen meanwhile.
 */
module Deadline {
  import opened Launching
  import opened ServiceSpec
  import opened ManagerSpec
  import opened Lifecycle
  import opened MicroSteps
  import opened Runs
  import opened Supervision
  import opened ShutdownOrder

  /** The time a service may still be live for, seen at time t, when ticks are at most d apart. */
  function Remaining(s: Svc, t: int, d: nat): nat {
    if !IsAlive(s.state) then 0
    else if !s.state.Stopping? then s.config.stopTimeout + 2 * d
    else if s.killSent then d
    else (if s.timers.stopDeadline > t then s.timers.stopDeadline - t else 0) + 2 * d
  }

  function Total(ss: seq<Svc>, t: int, d: nat): nat {
    if ss == [] then 0 else Total(ss[..|ss| - 1], t, d) + Remaining(ss[|ss| - 1], t, d)
  }

  /** From position `from` on, a poll finds every process that was sent a kill gone. */
  ghost predicate PromptKills(log: Log, from: nat) {
    forall k :: from <= k < |log| && log[k].Polled? ==> !Doomed(PhaseOf(log[..k], log[k].id))
  }

  // ----- one service

  /** No service's budget grows, and a stopping one spends the time that passed. */
  ghost predicate Spends(s: Svc, t: int, r: Svc, u: int, d: nat) {
    && Remaining(r, u, d) <= Remaining(s, t, d)
    && (s.state.Stopping? ==> Remaining(r, u, d) + (u - t) <= Remaining(s, t, d))
    && (IsAlive(r.state) ==> IsAlive(s.state))
  }

  lemma ExitSpends(s: Svc, log: Log, status: ExitStatus, ctx: Ctx)
    requires SvcInv(s) && s.child.Some? && !ctx.launchAllowed
    ensures !IsAlive(HandleExit(s, log, status, ctx).svc.state)
  {}

  lemma CheckHeartbeatSpends(s: Svc, log: Log, ctx: Ctx, t: int, d: nat)
    requires SvcInv(s) && s.child.Some? && !s.state.Stopping? && HeartbeatEnabled(s.config)
    ensures var r := CheckHeartbeat(s, log, ctx).svc;
            IsAlive(r.state) && Remaining(r, ctx.now.steady, d) <= s.config.stopTimeout + 2 * d
  {}

  lemma StoppingSpends(s: Svc, log: Log, now: Instant, t: int, d: nat)
    requires SvcInv(s) && s.state.Stopping? && !s.killSent && t <= now.steady <= t + d
    ensures Spends(s, t, CheckStop(s, log, now).svc, now.steady, d)
  {}

  lemma AdvanceSpends(s: Svc, log: Log, ctx: Ctx, t: int, d: nat)
    requires SvcInv(s) && !ctx.launchAllowed && t <= ctx.now.steady <= t + d
    requires s.state.Stopping? ==> !s.killSent
    ensures Spends(s, t, Advance(s, log, ctx).svc, ctx.now.steady, d)
  {
    if s.state.Stopping? {
      StoppingSpends(s, log, ctx.now, t, d);
    } else if IsAlive(s.state) && HeartbeatEnabled(s.config) {
      CheckHeartbeatSpends(s, log, ctx, t, d);
      assert Advance(s, log, ctx) == CheckHeartbeat(s, log, ctx);
    }
  }

  /** A tick during a shutdown, when a killed process is found gone. */
  lemma TickSpends(s: Svc, log: Log, ctx: Ctx, t: int, d: nat)
    requires SvcInv(s) && !ctx.launchAllowed && t <= ctx.now.steady <= t + d
    requires s.state.Stopping? && s.killSent ==> ctx.env(|log|).exit.Some?
    ensures Spends(s, t, ServiceSpec.Tick(s, log, ctx).svc, ctx.now.steady, d)
  {
    var polled := PollChild(s, log, ctx);
    if s.child.Some? && ctx.env(|log|).exit.Some? {
      ExitSpends(s, log + [Exited(s.child.value.id)], ctx.env(|log|).exit.value, ctx);
    } else {
      assert polled.svc == s;
    }
    if IsAlive(polled.svc.state) {
      AdvanceSpends(s, polled.log, ctx, t, d);
    } else {
      AdvanceSpends(polled.svc, polled.log, ctx, t, d);
    }
  }

  lemma SilentPoll(s: Svc, log: Log, ctx: Ctx)
    requires SvcInv(s) && s.child.Some? && ctx.env(|log|).exit.None?
    ensures var r := ServiceSpec.Tick(s, log, ctx);
            |r.log| > |log| && r.log[..|log|] == log && r.log[|log|] == Polled(s.child.value.id)
  {
    var polled := PollChild(s, log, ctx);
    assert polled == Outcome(s, log + [Polled(s.child.value.id)], Ok);
    AdvanceLaunches(s, polled.log, ctx);
    var r := ServiceSpec.Tick(s, log, ctx);
    assert r.log[..|log|] == polled.log[..|log|];
  }

  lemma SilentPollBreaksPromise(s: Svc, log: Log, ctx: Ctx, final: Log, from: nat)
    requires SvcInv(s) && Agrees(s, log) && s.state.Stopping? && s.killSent
    requires from <= |log| && ctx.env(|log|).exit.None?
    requires ServiceSpec.Tick(s, log, ctx).log <= final
    ensures !PromptKills(final, from)
  {
    SilentPoll(s, log, ctx);
    var r := ServiceSpec.Tick(s, log, ctx);
    assert final[|log|] == r.log[|log|];
    assert final[..|log|] == r.log[..|log|];
    assert Doomed(PhaseOf(final[..|log|], s.child.value.id));
  }

  /** The promise about kills, at the moment a service is polled. */
  lemma KilledIsGone(s: Svc, log: Log, ctx: Ctx, final: Log, from: nat)
    requires SvcInv(s) && Agrees(s, log) && s.state.Stopping? && s.killSent
    requires from <= |log| && PromptKills(final, from)
    requires ServiceSpec.Tick(s, log, ctx).log <= final
    ensures ctx.env(|log|).exit.Some?
  {
    if ctx.env(|log|).exit.None? {
      SilentPollBreaksPromise(s, log, ctx, final, from);
    }
  }

  // ----- all services

  lemma {:induction false} TotalDrops(ss: seq<Svc>, t: int, tt: seq<Svc>, u: int, d: nat)
    requires |ss| == |tt| && t <= u
    requires forall i :: 0 <= i < |ss| ==> Spends(ss[i], t, tt[i], u, d)
    ensures Total(tt, u, d) <= Total(ss, t, d)
    ensures AnyStopping(ss) ==> Total(tt, u, d) + (u - t) <= Total(ss, t, d)
    decreases |ss|
  {
    if ss != [] {
      var n := |ss| - 1;
      var s, r := ss[..n], tt[..n];
      TotalDrops(s, t, r, u, d);
      assert Spends(ss[n], t, tt[n], u, d);
      if AnyStopping(ss) && !ss[n].state.Stopping? {
        var i :| 0 <= i < |ss| && ss[i].state.Stopping?;
        assert s[i].state.Stopping?;
      }
    }
  }

  lemma {:induction false} TotalKept(ss: seq<Svc>, t: int, d: nat)
    ensures Total(Kept(ss), t, d) == Total(ss, t, d)
    decreases |ss|
  {
    if ss != [] {
      var rest := ss[..|ss| - 1];
      TotalKept(rest, t, d);
      if !Finished(ss[|ss| - 1]) {
        var kept := Kept(ss);
        assert kept[..|kept| - 1] == Kept(rest);
      }
    }
  }

  lemma {:induction false} AliveCosts(ss: seq<Svc>, t: int, d: nat)
    requires AnyAlive(ss)
    ensures Total(ss, t, d) >= d
    decreases |ss|
  {
    var i :| 0 <= i < |ss| && IsAlive(ss[i].state);
    if i < |ss| - 1 {
      assert IsAlive(ss[..|ss| - 1][i].state);
      AliveCosts(ss[..|ss| - 1], t, d);
    }
  }

  // ----- a tick of the manager

  lemma ActTicks(m: Mgr, i: nat, env: Env, now: Instant, t: int, d: nat, final: Log, from: nat)
    requires Inv(m) && m.shuttingDown && i < |m.services| && t <= now.steady <= t + d
    requires from <= |m.log| && PromptKills(final, from)
    requires Act(m, i, SvcOp.TickOp, env, now).mgr.log <= final
    ensures Spends(m.services[i], t, Act(m, i, SvcOp.TickOp, env, now).mgr.services[i], now.steady, d)
  {
    var s := m.services[i];
    var ctx := CtxFor(m, i, env, now);
    assert Agrees(s, m.log);
    if s.state.Stopping? && s.killSent {
      KilledIsGone(s, m.log, ctx, final, from);
    }
    TickSpends(s, m.log, ctx, t, d);
  }

  lemma TickServicesLog(m: Mgr, i: nat, env: Env, now: Instant)
    requires Inv(m) && m.shuttingDown && i <= |m.services|
    ensures var r := TickServices(m, i, env, now); r.shuttingDown && m.log <= r.log && Inv(r)
  {
    TickServicesReaches(m, i, [], env, now);
    ReachesLaunchesNothing(m, TickServices(m, i, env, now), [], env, now);
    ReachesKeepsInv(m, TickServices(m, i, env, now), [], env, now);
  }

  lemma ActTickLog(m: Mgr, i: nat, env: Env, now: Instant)
    requires Inv(m) && m.shuttingDown && i < |m.services|
    ensures var r := Act(m, i, SvcOp.TickOp, env, now).mgr;
            && r.shuttingDown && m.log <= r.log && Inv(r)
            && forall j :: 0 <= j < |m.services| && j != i ==> r.services[j] == m.services[j]
  {
    ActReaches(m, i, SvcOp.TickOp, [], env, now);
    ReachesLaunchesNothing(m, Act(m, i, SvcOp.TickOp, env, now).mgr, [], env, now);
  }

  lemma {:induction false} TickServicesLeaves(m: Mgr, i: nat, env: Env, now: Instant, j: nat)
    requires AllOk(m.services) && j < i <= |m.services|
    ensures TickServices(m, i, env, now).services[j] == m.services[j]
    decreases |m.services| - i
  {
    hide Act;
    if i < |m.services| {
      var next := Act(m, i, SvcOp.TickOp, env, now).mgr;
      assert next.services[j] == m.services[j];
      TickServicesLeaves(next, i + 1, env, now, j);
      assert TickServices(m, i, env, now) == TickServices(next, i + 1, env, now);
    }
  }

  lemma PrefixTrans(a: Log, b: Log, c: Log)
    requires a <= b && b <= c
    ensures a <= c
  {}

  lemma {:induction false} TickServicesSpends(m: Mgr, i: nat, env: Env, now: Instant, t: int, d: nat, final: Log,
                                              from: nat, j: nat)
    requires Inv(m) && m.shuttingDown && i <= j < |m.services| && t <= now.steady <= t + d
    requires from <= |m.log| && PromptKills(final, from)
    requires TickServices(m, i, env, now).log <= final
    ensures Spends(m.services[j], t, TickServices(m, i, env, now).services[j], now.steady, d)
    decreases |m.services| - i
  {
    hide Act;
    var next := Act(m, i, SvcOp.TickOp, env, now).mgr;
    ActTickLog(m, i, env, now);
    assert TickServices(m, i, env, now) == TickServices(next, i + 1, env, now);
    if j == i {
      TickServicesLog(next, i + 1, env, now);
      PrefixTrans(next.log, TickServices(m, i, env, now).log, final);
      ActTicks(m, i, env, now, t, d, final, from);
      TickServicesLeaves(next, i + 1, env, now, i);
    } else {
      TickServicesSpends(next, i + 1, env, now, t, d, final, from, j);
    }
  }

  lemma StopSpends(s: Svc, log: Log, ctx: Ctx, d: nat)
    requires SvcInv(s)
    ensures var r := ServiceSpec.Stop(s, log, ctx).svc;
            IsAlive(r.state) == IsAlive(s.state) &&
            Remaining(r, ctx.now.steady, d) <= Remaining(s, ctx.now.steady, d)
  {}

  lemma {:induction false} TotalPointwise(ss: seq<Svc>, tt: seq<Svc>, t: int, d: nat)
    requires |ss| == |tt| && forall i :: 0 <= i < |ss| ==> Remaining(tt[i], t, d) <= Remaining(ss[i], t, d)
    ensures Total(tt, t, d) <= Total(ss, t, d)
    decreases |ss|
  {
    if ss != [] {
      TotalPointwise(ss[..|ss| - 1], tt[..|tt| - 1], t, d);
    }
  }

  lemma StopFromSpends(m: Mgr, env: Env, now: Instant, d: nat)
    requires AllOk(m.services)
    ensures Total(StopFrom(m, 0, env, now).services, now.steady, d) <= Total(m.services, now.steady, d)
  {
    var r := StopFrom(m, 0, env, now);
    forall j | 0 <= j < |m.services|
      ensures Remaining(r.services[j], now.steady, d) <= Remaining(m.services[j], now.steady, d)
    {
      StopFromAt(m, 0, env, now, j);
      StopSpends(m.services[j], m.log, CtxFor(m, j, env, now), d);
    }
    TotalPointwise(m.services, r.services, now.steady, d);
  }

  /** While a shutdown that never stalls has a live service, each tick spends the time since the last. */
  lemma ManagerTickSpends(m: Mgr, env: Env, now: Instant, t: int, d: nat, from: nat)
    requires WellManaged(m) && m.shuttingDown && NoStall(m.services) && t <= now.steady <= t + d
    requires from <= |m.log| && PromptKills(ManagerSpec.Tick(m, env, now).log, from)
    ensures var r := ManagerSpec.Tick(m, env, now);
            && Total(r.services, now.steady, d) + (if AnyAlive(m.services) then now.steady - t else 0)
                 <= Total(m.services, t, d)
            && (AnyAlive(r.services) ==> AnyAlive(m.services))
  {
    var ticked := TickServices(m, 0, env, now);
    TickServicesLog(m, 0, env, now);
    var f := FollowUps(ticked, 0, env, now);
    FollowUpsReaches(ticked, 0, [], env, now);
    ReachesLaunchesNothing(ticked, f, [], env, now);
    forall j | 0 <= j < |m.services|
      ensures Spends(m.services[j], t, ticked.services[j], now.steady, d)
    {
      TickServicesSpends(m, 0, env, now, t, d, f.log, from, j);
    }
    TotalDrops(m.services, t, ticked.services, now.steady, d);
    FollowUpsStop(ticked, 0, env, now);
    StopFromSpends(ticked, env, now, d);
    StopFromLife(ticked, env, now);
    TotalKept(f.services, now.steady, d);
    AliveBefore(m.services, t, ticked.services, f.services, now.steady, d);
  }

  lemma AliveBefore(ss: seq<Svc>, t: int, tt: seq<Svc>, ff: seq<Svc>, u: int, d: nat)
    requires |ss| == |tt| && SameLife(tt, ff)
    requires forall i :: 0 <= i < |ss| ==> Spends(ss[i], t, tt[i], u, d)
    ensures AnyAlive(Kept(ff)) ==> AnyAlive(ss)
  {
    if AnyAlive(Kept(ff)) {
      var a :| 0 <= a < |Kept(ff)| && IsAlive(Kept(ff)[a].state);
      assert Kept(ff)[a] in Kept(ff);
      var i :| 0 <= i < |ff| && ff[i] == Kept(ff)[a];
      assert IsAlive(tt[i].state);
      assert Spends(ss[i], t, tt[i], u, d);
    }
  }

  // ----- between ticks

  lemma HeartbeatSpends(s: Svc, log: Log, now: Instant, t: int, d: nat)
    requires SvcInv(s)
    ensures var r := ServiceSpec.Heartbeat(s, log, now).svc;
            && IsAlive(r.state) == IsAlive(s.state) && r.state.Stopping? == s.state.Stopping?
            && Remaining(r, t, d) <= Remaining(s, t, d)
  {}

  lemma KillSpends(s: Svc, log: Log, now: Instant, t: int, d: nat)
    requires SvcInv(s)
    ensures var r := KillNow(s, log, now).svc;
            && IsAlive(r.state) == IsAlive(s.state) && (IsAlive(s.state) ==> r.state.Stopping?)
            && Remaining(r, t, d) <= Remaining(s, t, d)
  {}

  /** The same services are live, no stop was taken back, and no budget grew. */
  ghost predicate NotWorse(ss: seq<Svc>, tt: seq<Svc>, t: int, d: nat) {
    && |ss| == |tt|
    && forall i :: 0 <= i < |ss| ==>
         && IsAlive(tt[i].state) == IsAlive(ss[i].state)
         && (ss[i].state.Stopping? ==> tt[i].state.Stopping?)
         && Remaining(tt[i], t, d) <= Remaining(ss[i], t, d)
  }

  lemma NotWorseKeeps(ss: seq<Svc>, tt: seq<Svc>, t: int, d: nat)
    requires NotWorse(ss, tt, t, d)
    ensures Total(tt, t, d) <= Total(ss, t, d)
    ensures NoStall(ss) ==> NoStall(tt)
    ensures AnyAlive(tt) ==> AnyAlive(ss)
  {
    TotalPointwise(ss, tt, t, d);
    if AnyAlive(tt) {
      var i :| 0 <= i < |tt| && IsAlive(tt[i].state);
      assert IsAlive(ss[i].state);
    }
    if AnyStopping(ss) {
      var i :| 0 <= i < |ss| && ss[i].state.Stopping?;
      assert tt[i].state.Stopping?;
    }
  }

  lemma SampledNotWorse(s: Svc, reading: UsageSample, t: int, d: nat)
    ensures var r := ServiceSpec.Sample(s, reading);
            r.state == s.state && Remaining(r, t, d) == Remaining(s, t, d)
  {}

  lemma NotWorseAt(ss: seq<Svc>, i: nat, r: Svc, t: int, d: nat)
    requires i < |ss| && IsAlive(r.state) == IsAlive(ss[i].state) && (ss[i].state.Stopping? ==> r.state.Stopping?)
    requires Remaining(r, t, d) <= Remaining(ss[i], t, d)
    ensures NotWorse(ss, ss[i := r], t, d)
  {}

  lemma NotWorseTrans(ss: seq<Svc>, tt: seq<Svc>, uu: seq<Svc>, t: int, d: nat)
    requires NotWorse(ss, tt, t, d) && NotWorse(tt, uu, t, d)
    ensures NotWorse(ss, uu, t, d)
  {}

  lemma ExecuteNotWorse(m: Mgr, command: int, name: string, env: Env, now: Instant, t: int, d: nat)
    requires AllOk(m.services) && m.shuttingDown
    ensures NotWorse(m.services, Execute(m, command, name, env, now).mgr.services, t, d)
  {
    var parsed := CommandCodeFromByte(command);
    var k := FindIndex(m.services, name);
    if parsed.Some? && parsed.value.HeartbeatCommand? && name != ALL_SERVICES && k < |m.services| {
      HeartbeatSpends(m.services[k], m.log, now, t, d);
    }
  }

  lemma KillOneNotWorse(m: Mgr, i: nat, env: Env, now: Instant, t: int, d: nat)
    requires AllOk(m.services) && i < |m.services|
    ensures NotWorse(m.services, Act(m, i, KillOp, env, now).mgr.services, t, d)
  {
    var r := KillNow(m.services[i], m.log, now).svc;
    KillSpends(m.services[i], m.log, now, t, d);
    NotWorseAt(m.services, i, r, t, d);
    assert Act(m, i, KillOp, env, now).mgr.services == m.services[i := r];
  }

  lemma {:induction false} KillFromNotWorse(m: Mgr, i: nat, env: Env, now: Instant, t: int, d: nat)
    requires AllOk(m.services) && i <= |m.services|
    ensures NotWorse(m.services, KillFrom(m, i, env, now).services, t, d)
    decreases |m.services| - i
  {
    hide Act;
    if i < |m.services| {
      var next := Act(m, i, KillOp, env, now).mgr;
      KillOneNotWorse(m, i, env, now, t, d);
      KillFromNotWorse(next, i + 1, env, now, t, d);
      NotWorseTrans(m.services, next.services, KillFrom(next, i + 1, env, now).services, t, d);
    }
  }

  lemma SampleOneNotWorse(m: Mgr, i: nat, readings: nat -> UsageSample, env: Env, now: Instant, t: int, d: nat)
    requires AllOk(m.services) && i < |m.services|
    ensures NotWorse(m.services, SampleNext(m, i, readings, env, now).services, t, d)
  {
    var r := ServiceSpec.Sample(m.services[i], ReadingOf(m.services[i], readings));
    SampledNotWorse(m.services[i], ReadingOf(m.services[i], readings), t, d);
    NotWorseAt(m.services, i, r, t, d);
    assert SampleNext(m, i, readings, env, now).services == m.services[i := r];
  }

  lemma {:induction false} SampleNotWorse(m: Mgr, i: nat, readings: nat -> UsageSample, env: Env, now: Instant,
                                          t: int, d: nat)
    requires AllOk(m.services) && i <= |m.services|
    ensures NotWorse(m.services, SampleFrom(m, i, readings, env, now).services, t, d)
    decreases |m.services| - i
  {
    hide SampleNext;
    if i < |m.services| {
      var next := SampleNext(m, i, readings, env, now);
      SampleOneNotWorse(m, i, readings, env, now, t, d);
      SampleNotWorse(next, i + 1, readings, env, now, t, d);
      NotWorseTrans(m.services, next.services, SampleFrom(next, i + 1, readings, env, now).services, t, d);
    }
  }

  // ----- the whole shutdown

  /** What the daemon still does once it shuts down; it answers a reload with a refusal. */
  predicate ShutdownOp(op: Op) {
    op.Clock? || op.Command? || op.Measure? || op.KillEverything?
  }

  /** Only shutdown calls, each tick within d of the one before (of StopAll, for the first). */
  predicate Paced(calls: seq<Call>, last: int, d: nat) {
    calls == [] ||
    (ShutdownOp(calls[0].op) &&
     if calls[0].op.Clock? then
       last <= calls[0].now.steady <= last + d && Paced(calls[1..], calls[0].now.steady, d)
     else
       Paced(calls[1..], last, d))
  }

  /** The time of the last tick. */
  function LastTick(calls: seq<Call>, last: int): int {
    if calls == [] then last
    else LastTick(calls[1..], if calls[0].op.Clock? then calls[0].now.steady else last)
  }

  lemma OtherNotWorse(m: Mgr, op: Op, env: Env, now: Instant, t: int, d: nat)
    requires AllOk(m.services) && m.shuttingDown && ShutdownOp(op) && !op.Clock?
    ensures NotWorse(m.services, OpStep(m, op, env, now).services, t, d)
  {
    match op
    case Command(command, name) => ExecuteNotWorse(m, command, name, env, now, t, d);
    case Measure(readings) => SampleNotWorse(m, 0, readings, env, now, t, d);
    case KillEverything => KillFromNotWorse(m.(shuttingDown := true), 0, env, now, t, d);
  }

  lemma PacedRunOk(m: Mgr, calls: seq<Call>, env: Env, last: int, d: nat)
    requires AllOk(m.services) && Paced(calls, last, d)
    ensures RunOk(m, calls, env)
    decreases |calls|
  {
    if calls != [] {
      PacedRunOk(OpStep(m, calls[0].op, env, calls[0].now), calls[1..], env,
                 if calls[0].op.Clock? then calls[0].now.steady else last, d);
    }
  }

  /** While a service is live, the budget left has shrunk by all the time the ticks covered. */
  lemma {:induction false} RunSpends(m: Mgr, calls: seq<Call>, env: Env, last: int, d: nat, from: nat)
    requires WellManaged(m) && m.shuttingDown && NoStall(m.services) && Paced(calls, last, d)
    requires from <= |m.log| && PromptKills(Run(m, calls, env).log, from)
    ensures var r := Run(m, calls, env);
            AnyAlive(r.services) ==>
              AnyAlive(m.services) &&
              Total(r.services, LastTick(calls, last), d) + (LastTick(calls, last) - last) <= Total(m.services, last, d)
    decreases |calls|
  {
    hide ManagerSpec.Tick, Total, Execute, SampleFrom, KillAll;
    if calls != [] {
      var op, now := calls[0].op, calls[0].now;
      var next := OpStep(m, op, env, now);
      OpKeepsManaged(m, op, env, now);
      OpReaches(m, op, env, now);
      ReachesLaunchesNothing(m, next, Wakes(op), env, now);
      var later := if op.Clock? then now.steady else last;
      PacedRunOk(next, calls[1..], env, later, d);
      ShutdownLaunchesNothing(next, calls[1..], env);
      if op.Clock? {
        PromptSoFar(next.log, Run(m, calls, env).log, from);
        ManagerTickSpends(m, env, now, last, d, from);
        TickNeverStalls(m, env, now);
      } else {
        OtherNotWorse(m, op, env, now, last, d);
        NotWorseKeeps(m.services, next.services, last, d);
      }
      RunSpends(next, calls[1..], env, later, d, from);
    }
  }

  lemma PromptSoFar(log: Log, final: Log, from: nat)
    requires log <= final && PromptKills(final, from)
    ensures PromptKills(log, from)
  {
    forall k | from <= k < |log| && log[k].Polled?
      ensures !Doomed(PhaseOf(log[..k], log[k].id))
    {
      assert log[..k] == final[..k] && log[k] == final[k];
    }
  }

  /**
   The deadline: with ticks at most d apart and killed processes found gone by the next poll,
   every service is down once the ticks have covered the time left to the services when StopAll
   was called.
   */
  lemma ShutdownMeetsDeadline(m: Mgr, begin: Instant, calls: seq<Call>, env: Env, d: nat)
    requires WellManaged(m) && d > 0 && Paced(calls, begin.steady, d)
    requires PromptKills(Run(StopAll(m, env, begin), calls, env).log, |StopAll(m, env, begin).log|)
    requires LastTick(calls, begin.steady) - begin.steady >= Total(m.services, begin.steady, d)
    ensures AllStopped(Run(StopAll(m, env, begin), calls, env))
  {
    var stopped := StopAll(m, env, begin);
    var r := Run(stopped, calls, env);
    OpKeepsManaged(m, Shutdown, env, begin);
    StopAllNeverStalls(m, env, begin);
    RunSpends(stopped, calls, env, begin.steady, d, |stopped.log|);
    StopFromSpends(m.(shuttingDown := true), env, begin, d);
    if AnyAlive(r.services) {
      AliveCosts(r.services, LastTick(calls, begin.steady), d);
    }
  }

  /** The sum over live services of the stop timeout and two tick gaps. */
  function Budget(ss: seq<Svc>, d: nat): nat {
    if ss == [] then 0
    else
      var last := ss[|ss| - 1];
      Budget(ss[..|ss| - 1], d) + if IsAlive(last.state) then last.config.stopTimeout + 2 * d else 0
  }

  /** Every stop in progress was given no longer than the stop timeout, counted from t. */
  predicate StopsInTime(ss: seq<Svc>, t: int) {
    forall i :: 0 <= i < |ss| && ss[i].state.Stopping? && !ss[i].killSent ==>
      ss[i].timers.stopDeadline <= t + ss[i].config.stopTimeout
  }

  lemma {:induction false} TotalWithinBudget(ss: seq<Svc>, t: int, d: nat)
    requires StopsInTime(ss, t)
    ensures Total(ss, t, d) <= Budget(ss, d)
    decreases |ss|
  {
    if ss != [] {
      var rest := ss[..|ss| - 1];
      assert forall i :: 0 <= i < |rest| ==> rest[i] == ss[i];
      TotalWithinBudget(rest, t, d);
    }
  }

  /**
   In terms of the settings: as long as no stop in progress was given more than the present stop
   timeout, the sum of stop timeout and twice d over the live services is time enough.
   */
  lemma ShutdownWithinTimeouts(m: Mgr, begin: Instant, calls: seq<Call>, env: Env, d: nat)
    requires WellManaged(m) && StopsInTime(m.services, begin.steady) && d > 0
    requires Paced(calls, begin.steady, d)
    requires PromptKills(Run(StopAll(m, env, begin), calls, env).log, |StopAll(m, env, begin).log|)
    requires LastTick(calls, begin.steady) - begin.steady >= Budget(m.services, d)
    ensures AllStopped(Run(StopAll(m, env, begin), calls, env))
  {
    hide WellManaged, Run, StopAll, Total, Budget, StopsInTime, PromptKills, AllStopped;
    TotalWithinBudget(m.services, begin.steady, d);
    ShutdownMeetsDeadline(m, begin, calls, env, d);
  }
}
