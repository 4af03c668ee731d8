/**
 What a tick decides about the services that wait: each is launched, given up or left waiting by the
 states of its dependencies when its turn comes, and nothing else is touched.
 */
module SecondLoop {
  import opened ServiceConfigs
  import opened Launching
  import opened ServiceSpec
  import opened ManagerSpec
  import opened MicroSteps
  import opened Runs
  import opened Supervision
  import opened Execution

  predicate IsRunning(ss: seq<Svc>, name: string) {
    exists i :: 0 <= i < |ss| && ss[i].config.name == name && ss[i].state.Running?
  }

  /** No service of this name is held, or it has failed or is stopped. */
  predicate WillNotRun(ss: seq<Svc>, name: string) {
    forall i :: 0 <= i < |ss| && ss[i].config.name == name ==> ss[i].state.Failed? || ss[i].state.Stopped?
  }

  predicate AllAreRunning(ss: seq<Svc>, dependsOn: seq<string>) {
    forall d :: d in dependsOn ==> IsRunning(ss, d)
  }

  predicate OneWillNotRun(ss: seq<Svc>, dependsOn: seq<string>) {
    exists d :: d in dependsOn && WillNotRun(ss, d)
  }

  lemma FoundAt(ss: seq<Svc>, i: nat)
    requires UniqueNames(ss) && i < |ss|
    ensures FindIndex(ss, ss[i].config.name) == i
  {}

  lemma RunningMeans(ss: seq<Svc>, dependsOn: seq<string>)
    requires UniqueNames(ss)
    ensures DependenciesRunning(ss, dependsOn) <==> AllAreRunning(ss, dependsOn)
  {
    forall d | d in dependsOn
      ensures IsRunning(ss, d) <==> FindIndex(ss, d) < |ss| && ss[FindIndex(ss, d)].state.Running?
    {
      if IsRunning(ss, d) {
        var i :| 0 <= i < |ss| && ss[i].config.name == d && ss[i].state.Running?;
        FoundAt(ss, i);
      }
    }
  }

  lemma BlockedMeans(ss: seq<Svc>, dependsOn: seq<string>)
    requires UniqueNames(ss)
    ensures DependencyBlocked(ss, dependsOn) <==> OneWillNotRun(ss, dependsOn)
  {
    forall d
      ensures var k := FindIndex(ss, d);
              WillNotRun(ss, d) <==> k == |ss| || ss[k].state.Failed? || ss[k].state.Stopped?
    {
      var k := FindIndex(ss, d);
      forall i | 0 <= i < |ss| && ss[i].config.name == d
        ensures i == k
      {
        FoundAt(ss, i);
      }
    }
    if OneWillNotRun(ss, dependsOn) {
      var d :| d in dependsOn && WillNotRun(ss, d);
      var j :| 0 <= j < |dependsOn| && dependsOn[j] == d;
      assert FindIndex(ss, dependsOn[j]) == FindIndex(ss, d);
    }
  }

  /** Since `log` there was neither a launch of this name nor a refused one. */
  predicate Unmentioned(log: Log, newLog: Log, name: string) {
    forall k :: |log| <= k < |newLog| ==>
      !(newLog[k].Launched? && newLog[k].name == name) && newLog[k] != LaunchRefused(name)
  }

  /** The service has a process that was launched under its name since `log`. */
  predicate HasNewProcess(x: Svc, log: Log, newLog: Log) {
    && x.state.Starting? && x.child.Some? && |log| <= x.child.value.id < |newLog|
    && var e := newLog[x.child.value.id];
       e.Launched? && e.id == x.child.value.id && e.name == x.config.name && e.dependsOn == x.config.dependsOn
  }

  predicate WasRefused(x: Svc, log: Log, newLog: Log) {
    (x.state.Failed? || x.state.Backoff?) && x.child.None? && RefusedSince(newLog, |log|, x.config.name)
  }

  /**
   What becomes of a service s, when the services are in the states of `turn`: waiting, it is launched,
   or its launch refused, exactly when every dependency runs; it is given up exactly when something
   it depends on will not run; it waits on otherwise. Any other service stays as it is.
   */
  predicate Decided(s: Svc, x: Svc, turn: seq<Svc>, log: Log, newLog: Log) {
    if s.state.Waiting? && AllAreRunning(turn, s.config.dependsOn) then
      x.config == s.config && (HasNewProcess(x, log, newLog) || WasRefused(x, log, newLog))
    else
      && Unmentioned(log, newLog, s.config.name)
      && x == if s.state.Waiting? && OneWillNotRun(turn, s.config.dependsOn) then s.(state := Failed) else s
  }

  // ----- one turn

  lemma WaitingStarts(s: Svc, log: Log, ctx: Ctx)
    requires SvcInv(s) && s.state.Waiting? && ctx.dependenciesReady
    ensures var r := Start(s, log, ctx);
            && r.svc.config == s.config && log <= r.log && |r.log| == |log| + 1
            && (HasNewProcess(r.svc, log, r.log) || WasRefused(r.svc, log, r.log))
            && (r.log[|log|] == LaunchRefused(s.config.name)
                || (r.log[|log|].Launched? && r.log[|log|].name == s.config.name))
  {
    hide ScheduleRestart;
    ScheduleRests(s.(report := s.report.(lastExitCode := 127, lastExitTime := ctx.now.wallNs)), ctx.now);
    var r := Start(s, log, ctx);
    assert r.log[|log|] == if ctx.env(|log|).pid.Some?
      then Launched(|log|, s.config.name, s.config.dependsOn, ctx.running) else LaunchRefused(s.config.name);
  }

  /** Every event since `log` is a launch, or a refused one, of a service from position i on. */
  predicate OnlyStartsFrom(log: Log, newLog: Log, ss: seq<Svc>, i: nat) {
    log <= newLog && forall k :: |log| <= k < |newLog| ==> IsStartFrom(newLog[k], ss, i)
  }

  predicate IsStartFrom(e: Event, ss: seq<Svc>, i: nat) {
    exists j :: i <= j < |ss| && IsStartOf(e, ss[j].config.name)
  }

  predicate IsStartOf(e: Event, name: string) {
    e == LaunchRefused(name) || (e.Launched? && e.name == name)
  }

  lemma NextDecides(m: Mgr, i: nat, env: Env, now: Instant)
    requires AllOk(m.services) && UniqueNames(m.services) && !m.shuttingDown && i < |m.services|
    ensures var r := FollowUpNext(m, i, env, now);
            && Decided(m.services[i], r.services[i], m.services, m.log, r.log)
            && OnlyStartsFrom(m.log, r.log, m.services, i)
            && forall j :: 0 <= j < |m.services| && j != i ==> r.services[j] == m.services[j]
  {
    hide Start, DependenciesRunning, DependencyBlocked, AllAreRunning, OneWillNotRun, UniqueNames;
    var s := m.services[i];
    RunningMeans(m.services, s.config.dependsOn);
    BlockedMeans(m.services, s.config.dependsOn);
    if s.state.Waiting? && DependenciesRunning(m.services, s.config.dependsOn) {
      WaitingStarts(s, m.log, CtxFor(m, i, env, now));
      var r := FollowUpNext(m, i, env, now);
      assert IsStartOf(r.log[|m.log|], m.services[i].config.name);
    }
  }

  // ----- the whole loop

  lemma LaterStarts(a: Log, b: Log, c: Log, ss: seq<Svc>, tt: seq<Svc>, i: nat)
    requires OnlyStartsFrom(a, b, ss, i) && OnlyStartsFrom(b, c, tt, i + 1) && SameConfigs(ss, tt)
    ensures OnlyStartsFrom(a, c, ss, i)
  {
    forall k | |a| <= k < |c|
      ensures IsStartFrom(c[k], ss, i)
    {
      if k < |b| {
        assert c[k] == b[k];
      } else {
        assert IsStartFrom(c[k], tt, i + 1);
        var j :| i + 1 <= j < |tt| && IsStartOf(c[k], tt[j].config.name);
        assert SameSettings(ss[j], tt[j]);
        assert IsStartOf(c[k], ss[j].config.name);
      }
    }
  }

  /** What was decided about service i stands, since the later events are about others. */
  lemma DecisionStands(s: Svc, x: Svc, turn: seq<Svc>, a: Log, b: Log, c: Log, ss: seq<Svc>, i: nat)
    requires Decided(s, x, turn, a, b) && a <= b && OnlyStartsFrom(b, c, ss, i + 1)
    requires UniqueNames(ss) && i < |ss| && ss[i].config.name == s.config.name
    ensures Decided(s, x, turn, a, c)
  {
    hide AllAreRunning, OneWillNotRun;
    forall k | |b| <= k < |c|
      ensures !IsStartOf(c[k], s.config.name)
    {
      assert IsStartFrom(c[k], ss, i + 1);
      var j :| i + 1 <= j < |ss| && IsStartOf(c[k], ss[j].config.name);
    }
    forall k | 0 <= k < |b|
      ensures c[k] == b[k]
    {}
    if RefusedSince(b, |a|, x.config.name) {
      var k :| |a| <= k < |b| && b[k] == LaunchRefused(x.config.name);
      assert c[k] == b[k];
    }
  }

  /** Nor did the events before it come to service p. */
  lemma DecisionCovers(s: Svc, x: Svc, turn: seq<Svc>, a: Log, b: Log, c: Log, name: string)
    requires Decided(s, x, turn, b, c) && a <= b && b <= c && name != s.config.name
    requires forall k :: |a| <= k < |b| ==> IsStartOf(b[k], name)
    ensures Decided(s, x, turn, a, c)
  {
    hide AllAreRunning, OneWillNotRun;
    forall k | |a| <= k < |b|
      ensures c[k] == b[k] && !IsStartOf(c[k], s.config.name)
    {}
    if RefusedSince(c, |b|, x.config.name) {
      var k :| |b| <= k < |c| && c[k] == LaunchRefused(x.config.name);
      assert RefusedSince(c, |a|, x.config.name);
    }
  }

  /** The services when the turn of p comes: those before it as the loop left them. */
  function AtTurn(before: seq<Svc>, later: seq<Svc>, p: nat): seq<Svc>
    requires p <= |before| && p <= |later|
  {
    later[..p] + before[p..]
  }

  lemma {:induction false} LoopDecides(m: Mgr, i: nat, env: Env, now: Instant, p: nat)
    requires AllOk(m.services) && UniqueNames(m.services) && !m.shuttingDown && i <= |m.services| && p < |m.services|
    ensures var r := FollowUps(m, i, env, now);
            && OnlyStartsFrom(m.log, r.log, m.services, i)
            && if p < i then r.services[p] == m.services[p]
               else Decided(m.services[p], r.services[p], AtTurn(m.services, r.services, p), m.log, r.log)
    decreases |m.services| - i
  {
    hide FollowUpNext, UniqueNames, Decided, OnlyStartsFrom;
    if i == |m.services| {
      NothingStarts(m.log, m.services, i);
    } else {
      var next := FollowUpNext(m, i, env, now);
      NextDecides(m, i, env, now);
      UniqueSame(m.services, next.services);
      LoopDecides(next, i + 1, env, now, p);
      var r := FollowUps(next, i + 1, env, now);
      LaterStarts(m.log, next.log, r.log, m.services, next.services, i);
      if p == i {
        forall j | 0 <= j < i
          ensures r.services[j] == m.services[j]
        {
          LoopDecides(next, i + 1, env, now, j);
        }
        assert AtTurn(m.services, r.services, p) == m.services;
        assert SameSettings(m.services[i], next.services[i]);
        Prefixes(m.log, next.log, m.services, i);
        DecisionStands(m.services[p], next.services[p], m.services, m.log, next.log, r.log, next.services, i);
      } else if p > i {
        assert AtTurn(m.services, r.services, p) == AtTurn(next.services, r.services, p);
        OnlyOneStart(m, i, env, now);
        Differ(m.services, i, p);
        Prefixes(next.log, r.log, next.services, i + 1);
        DecisionCovers(m.services[p], r.services[p], AtTurn(m.services, r.services, p), m.log, next.log, r.log,
                       m.services[i].config.name);
      }
    }
  }

  lemma NothingStarts(log: Log, ss: seq<Svc>, i: nat)
    ensures OnlyStartsFrom(log, log, ss, i)
  {}

  lemma Prefixes(a: Log, b: Log, ss: seq<Svc>, i: nat)
    requires OnlyStartsFrom(a, b, ss, i)
    ensures a <= b
  {}

  lemma Differ(ss: seq<Svc>, i: nat, p: nat)
    requires UniqueNames(ss) && i < p < |ss|
    ensures ss[i].config.name != ss[p].config.name
  {}

  lemma OnlyOneStart(m: Mgr, i: nat, env: Env, now: Instant)
    requires AllOk(m.services) && !m.shuttingDown && i < |m.services|
    ensures var r := FollowUpNext(m, i, env, now);
            m.log <= r.log && forall k :: |m.log| <= k < |r.log| ==> IsStartOf(r.log[k], m.services[i].config.name)
  {
    hide Start, DependenciesRunning, DependencyBlocked;
    var s := m.services[i];
    if s.state.Waiting? && DependenciesRunning(m.services, s.config.dependsOn) {
      WaitingStarts(s, m.log, CtxFor(m, i, env, now));
    }
  }

  // ----- the loop before it

  /** Service j is ticked between these two, with what the manager knows at that moment, and nothing else changes. */
  predicate TicksOne(a: Mgr, b: Mgr, j: nat, env: Env, now: Instant)
    requires AllOk(a.services) && j < |a.services|
  {
    var s := a.services[j];
    var ctx := CtxFor(a, j, env, now);
    var o := ServiceSpec.Tick(s, a.log, ctx);
    && b == a.(services := a.services[j := o.svc], log := o.log)
    && ctx.now == now && ctx.launchAllowed == !a.shuttingDown
    && (ctx.dependenciesReady <==> AllAreRunning(a.services, s.config.dependsOn))
  }

  /** The services from i to n are ticked one after the other, each as it was before. */
  predicate TicksInTurn(m: Mgr, turns: seq<Mgr>, i: nat, env: Env, now: Instant) {
    && i + |turns| == |m.services| + 1 && turns != [] && turns[0] == m
    && forall j :: 0 <= j < |turns| - 1 ==>
         && AllOk(turns[j].services) && |turns[j].services| == |m.services|
         && turns[j].services[i + j] == m.services[i + j]
         && TicksOne(turns[j], turns[j + 1], i + j, env, now)
  }

  lemma OneTicks(m: Mgr, i: nat, env: Env, now: Instant)
    requires AllOk(m.services) && UniqueNames(m.services) && i < |m.services|
    ensures TicksOne(m, Act(m, i, TickOp, env, now).mgr, i, env, now)
  {
    hide ServiceSpec.Tick, DependenciesRunning, AllAreRunning, UniqueNames;
    RunningMeans(m.services, m.services[i].config.dependsOn);
  }

  lemma NoneToTick(m: Mgr, env: Env, now: Instant)
    ensures TicksInTurn(m, [m], |m.services|, env, now)
  {}

  lemma TurnsAre(m: Mgr, turns: seq<Mgr>, i: nat, env: Env, now: Instant)
    requires TicksInTurn(m, turns, i, env, now)
    ensures i + |turns| == |m.services| + 1
  {}

  lemma TicksBefore(m: Mgr, next: Mgr, rest: seq<Mgr>, i: nat, env: Env, now: Instant)
    requires AllOk(m.services) && i < |m.services| && TicksOne(m, next, i, env, now)
    requires TicksInTurn(next, rest, i + 1, env, now) && |next.services| == |m.services|
    requires forall j :: i < j < |m.services| ==> next.services[j] == m.services[j]
    ensures TicksInTurn(m, [m] + rest, i, env, now)
  {
    hide TicksOne;
    var turns := [m] + rest;
    forall j | 0 <= j < |turns| - 1
      ensures && AllOk(turns[j].services) && |turns[j].services| == |m.services|
              && turns[j].services[i + j] == m.services[i + j]
              && TicksOne(turns[j], turns[j + 1], i + j, env, now)
    {
      if j > 0 {
        assert turns[j] == rest[j - 1] && turns[j + 1] == rest[j];
      }
    }
  }

  /** The first loop of a tick ticks every service once, whatever its state, in their order. */
  lemma {:induction false} EachIsTicked(m: Mgr, i: nat, env: Env, now: Instant) returns (turns: seq<Mgr>)
    requires AllOk(m.services) && UniqueNames(m.services) && i <= |m.services|
    ensures TicksInTurn(m, turns, i, env, now) && turns[|m.services| - i] == TickServices(m, i, env, now)
    decreases |m.services| - i
  {
    hide Act, TicksOne, TicksInTurn, UniqueNames;
    if i == |m.services| {
      turns := [m];
      NoneToTick(m, env, now);
    } else {
      var next := Act(m, i, TickOp, env, now).mgr;
      UniqueSame(m.services, next.services);
      var rest := EachIsTicked(next, i + 1, env, now);
      OneTicks(m, i, env, now);
      TicksBefore(m, next, rest, i, env, now);
      TurnsAre(next, rest, i + 1, env, now);
      turns := [m] + rest;
    }
  }

  // ----- a tick, and every run

  /**
   The verdict of a tick outside a shutdown on every service, once each has been ticked on its own: one
   that waits is launched, or its launch refused, exactly when every dependency runs at its turn;
   it is given up exactly when something it depends on is unknown, failed or stopped; it waits on
   otherwise, and no other service is touched. `after` is what the tick leaves before finished services go.
   */
  lemma TickDecides(m: Mgr, env: Env, now: Instant) returns (after: seq<Svc>)
    requires AllOk(m.services) && UniqueNames(m.services) && !m.shuttingDown
    ensures var ticked, r := TickServices(m, 0, env, now), ManagerSpec.Tick(m, env, now);
            && |after| == |ticked.services| && r.services == Kept(after) && ticked.log <= r.log
            && forall p :: 0 <= p < |after| ==>
                 Decided(ticked.services[p], after[p], AtTurn(ticked.services, after, p), ticked.log, r.log)
  {
    hide Decided, TickServices, FollowUps, UniqueNames, OnlyStartsFrom;
    var ticked := TickServices(m, 0, env, now);
    UniqueSame(m.services, ticked.services);
    after := FollowUps(ticked, 0, env, now).services;
    LoopStarts(ticked, env, now);
    forall p | 0 <= p < |after|
      ensures Decided(ticked.services[p], after[p], AtTurn(ticked.services, after, p), ticked.log,
                      ManagerSpec.Tick(m, env, now).log)
    {
      LoopDecides(ticked, 0, env, now, p);
    }
  }

  lemma LoopStarts(m: Mgr, env: Env, now: Instant)
    requires AllOk(m.services) && UniqueNames(m.services) && !m.shuttingDown
    ensures m.log <= FollowUps(m, 0, env, now).log
  {
    hide Decided, FollowUps, UniqueNames;
    if m.services != [] {
      LoopDecides(m, 0, env, now, 0);
    } else {
      NothingFollows(m, env, now);
    }
  }

  lemma NothingFollows(m: Mgr, env: Env, now: Instant)
    requires m.services == []
    ensures FollowUps(m, 0, env, now) == m
  {}

  /** The same at every tick of every run from a valid configuration. */
  lemma EveryRunDecides(configs: seq<ServiceConfig>, calls: seq<Call>, env: Env, now: Instant)
    returns (after: seq<Svc>)
    requires ValidConfigs(configs) && RunOk(Load(configs), calls, env)
    requires !Run(Load(configs), calls, env).shuttingDown
    ensures var m := Run(Load(configs), calls, env);
            var ticked, r := TickServices(m, 0, env, now), ManagerSpec.Tick(m, env, now);
            && |after| == |ticked.services| && r.services == Kept(after) && ticked.log <= r.log
            && forall p :: 0 <= p < |after| ==>
                 Decided(ticked.services[p], after[p], AtTurn(ticked.services, after, p), ticked.log, r.log)
  {
    hide Decided, TickServices, ManagerSpec.Tick, ValidConfigs, RunOk, Run, Processes, LaunchesSafe, DroppedQuiet;
    LoadIsManaged(configs);
    RunKeepsManaged(Load(configs), calls, env);
    after := TickDecides(Run(Load(configs), calls, env), env, now);
  }
}
