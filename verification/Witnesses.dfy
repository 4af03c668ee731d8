/** Concrete runs in which something one might expect of the program does not hold. */
module Witnesses {
  import opened Wrappers
  import opened ServiceConfigs
  import opened Launching
  import opened ServiceSpec
  import opened Heartbeats
  import opened ManagerSpec
  import opened Lifecycle
  import opened MicroSteps
  import opened Graphs
  import opened Runs
  import opened Supervision
  import opened ShutdownOrder
  import opened Deadline
  import opened Timing
  import opened StopOrder

  /** Every launch works and no process ever exits. */
  function Steady(n: nat): Answer {
    Answer(Some(1), None)
  }

  function At(steady: int): Instant {
    Instant(steady, 0)
  }

  // ----- a manager with one service

  lemma OneStays(s: Svc)
    requires !Finished(s)
    ensures Kept([s]) == [s] && RemovedNames([s]) == []
  {
    assert [s][..0] == [];
    assert Kept([]) == [] && RemovedNames([]) == [];
  }

  /** What a tick does to a service that the second loop leaves alone. */
  lemma OneTicked(m: Mgr, s: Svc, env: Env, now: Instant)
    requires m.services == [s] && SvcInv(s)
    requires var x := ServiceSpec.Tick(s, m.log, CtxFor(m, 0, env, now)).svc;
             !Finished(x) && if m.shuttingDown then x.state.Stopping? else !x.state.Waiting?
    ensures AllOk(m.services)
    ensures var o := ServiceSpec.Tick(s, m.log, CtxFor(m, 0, env, now));
            OpStep(m, Clock, env, now) == m.(services := [o.svc], log := o.log)
  {
    hide ServiceSpec.Tick, Kept, RemovedNames;
    var r := Act(m, 0, TickOp, env, now).mgr;
    assert TickServices(r, 1, env, now) == r;
    assert FollowUpNext(r, 0, env, now) == r;
    assert FollowUps(r, 1, env, now) == r;
    OneStays(r.services[0]);
    assert r.services == [r.services[0]];
    assert r.removed + [] == r.removed;
  }

  lemma OneMerged(m: Mgr, s: Svc, d: ServiceConfig, env: Env, now: Instant)
    requires m.services == [s] && SvcInv(s) && !s.removing && s.config.name == d.name
    ensures AllOk(m.services)
    ensures var b := MergeOne(Merge(m, [], ReloadSummary(0, 0, 0)), d, env, now);
            b.mgr == m.(services := [s.(config := d)]) && b.added == []
  {
    assert s.config == d ==> s.(config := d) == s;
  }

  /** A list that names it as before leaves it with its new settings. */
  lemma OneReplaced(m: Mgr, s: Svc, d: ServiceConfig, env: Env, now: Instant)
    requires m.services == [s] && SvcInv(s) && !s.removing && s.config.name == d.name
    ensures AllOk(m.services)
    ensures OpStep(m, ReloadWith([d]), env, now) == m.(services := [s.(config := d)])
  {
    var a := Merge(m, [], ReloadSummary(0, 0, 0));
    hide MergeOne;
    OneMerged(m, s, d, env, now);
    var b := MergeOne(a, d, env, now);
    assert [d][1..] == [];
    assert MergeAll(b, [], env, now) == b;
    assert [d][0].name == d.name;
    assert Listed([d], b.mgr.services[0].config.name);
    assert RetireFrom(b, [d], 1, env, now) == b;
    assert StartAdded(b.mgr, [], env, now) == b.mgr;
  }

  lemma OpsAllowed(start: Mgr, m: Mgr, d: ServiceConfig)
    requires ValidConfigs([d]) && NoneRemoving(start.services) && !start.shuttingDown
    ensures OpOk(start, Autostart) && OpOk(m, ReloadWith([d])) && OpOk(m, Clock)
  {}

  // ----- lost heartbeats break the order of a shutdown

  /** A service that sends heartbeats and may miss none, and is restarted if it does. */
  function Sender(name: string, dependsOn: seq<string>): ServiceConfig {
    ServiceConfig(name, "", "/bin/true", [], "", [], true, Never, 0, 0, 0, 0, 0, Terminate, 10_000, 1000, 1, RestartIt,
                  dependsOn, Auto, "", 0, 0)
  }

  const BASE := Sender("a", [])
  const ON_TOP := Sender("b", ["a"])

  /** Started, beaten once, one tick to launch the second service, a shutdown, and a tick after a second. */
  const LATE_BEAT: seq<Call> :=
    [Call(Autostart, At(0)), Call(Command(90, "a"), At(0)), Call(Clock, At(0)), Call(Shutdown, At(0)),
     Call(Clock, At(1000))]

  lemma BothValid()
    ensures ValidConfigs([BASE, ON_TOP])
  {
    var g := GraphOf([BASE, ON_TOP]);
    RankedIsAcyclic(g, map["a" := 0, "b" := 1]);
    assert [BASE, ON_TOP][0].name == "a";
  }

  predicate TheseTwo(m: Mgr, a: Svc, b: Svc) {
    m.services == [a, b] && a.config == BASE && b.config == ON_TOP && SvcInv(a) && SvcInv(b)
    && !a.removing && !b.removing
  }

  lemma FindTheTwo(m: Mgr, a: Svc, b: Svc)
    requires TheseTwo(m, a, b)
    ensures FindIndex(m.services, "a") == 0 && FindIndex(m.services, "b") == 1
    ensures AllOk(m.services) && |m.services| == 2 && m.services[0].config == BASE
  {
    assert m.services[1..] == [b];
    assert FindIndex([b], "b") == 0;
  }

  lemma StartUpChangesNothing(t: Traversal, a: Svc, b: Svc)
    requires TheseTwo(t.mgr, a, b) && a.state.Starting?
    ensures AllOk(t.mgr.services) && StartDependency(t, 0, Steady, At(0)).mgr == t.mgr
  {
    FindTheTwo(t.mgr, a, b);
    assert t.mgr.services[0 := a] == t.mgr.services;
  }

  lemma VisitsTheFirst(t: Traversal, a: Svc, b: Svc)
    requires TheseTwo(t.mgr, a, b) && a.state.Starting?
    ensures AllOk(t.mgr.services) && StartDependencies(t, ["a"], Steady, At(0)).mgr == t.mgr
  {
    hide StartDependency, AllOk, TheseTwo;
    FindTheTwo(t.mgr, a, b);
    var visited := VisitDependency(t, "a", Steady, At(0));
    assert visited.mgr == t.mgr by {
      var entered := t.(visiting := t.visiting + ["a"]);
      assert StartDependencies(entered, [], Steady, At(0)) == entered;
      StartUpChangesNothing(entered, a, b);
      StartUpChangesNothing(t, a, b);
    }
    assert ["a"][1..] == [];
    assert StartDependencies(visited, [], Steady, At(0)) == visited;
  }

  /** Starting the second service passes over the first, which is up, and waits for it. */
  lemma SecondWaits(m: Mgr, a: Svc, b: Svc)
    requires TheseTwo(m, a, b) && a.state.Starting? && b.state.Stopped?
    ensures AllOk(m.services)
    ensures StartWithDependencies(m, 1, false, [], Steady, At(0)).mgr ==
            m.(services := [a, b.(state := Waiting, history := NO_HISTORY)])
  {
    hide StartDependencies;
    FindTheTwo(m, a, b);
    VisitsTheFirst(Traversal(m, ["b"], [], []), a, b);
    assert ON_TOP.dependsOn[0] == "a";
    assert !DependenciesRunning(m.services, ON_TOP.dependsOn);
  }

  lemma FirstStarts() returns (m: Mgr, a: Svc, b: Svc)
    ensures m == StartAutostart(Load([BASE, ON_TOP]), 0, Steady, At(0)) && TheseTwo(m, a, b) && !m.shuttingDown
    ensures a.state.Starting? && a.child == Some(Child(0, 1)) && b.state.Waiting?
    ensures |m.log| == 1
  {
    var start := Load([BASE, ON_TOP]);
    a, b := NewService(BASE), NewService(ON_TOP);
    assert TheseTwo(start, a, b);
    FindTheTwo(start, a, b);
    var next := AutostartNext(start, 0, Steady, At(0));
    a := next.services[0];
    assert TheseTwo(next, a, b);
    FindTheTwo(next, a, b);
    m := AutostartNext(next, 1, Steady, At(0));
    SecondWaits(next, a, b);
    b := m.services[1];
    assert m == StartAutostart(next, 1, Steady, At(0)) by {
      assert StartAutostart(m, 2, Steady, At(0)) == m;
    }
  }

  lemma FirstBeats(m: Mgr, a: Svc, b: Svc) returns (r: Mgr, a2: Svc)
    requires TheseTwo(m, a, b) && a.state.Starting? && !m.shuttingDown
    ensures AllOk(m.services) && r == Execute(m, 90, "a", Steady, At(0)).mgr
    ensures TheseTwo(r, a2, b) && a2.state.Running? && a2.timers.lastBeat == 0 && a2.child == a.child
    ensures r.log == m.log && !r.shuttingDown
  {
    FindTheTwo(m, a, b);
    r := Execute(m, 90, "a", Steady, At(0)).mgr;
    a2 := r.services[0];
  }

  lemma TickBoth(m: Mgr, a: Svc, b: Svc, now: Instant) returns (mid: Mgr, r: Mgr)
    requires TheseTwo(m, a, b)
    ensures AllOk(m.services)
    ensures AllOk(mid.services) && |mid.services| == 2 && mid == Act(m, 0, TickOp, Steady, now).mgr
    ensures r == Act(mid, 1, TickOp, Steady, now).mgr
    ensures r == TickServices(m, 0, Steady, now)
  {
    hide Act;
    FindTheTwo(m, a, b);
    mid := Act(m, 0, TickOp, Steady, now).mgr;
    r := Act(mid, 1, TickOp, Steady, now).mgr;
    assert TickServices(r, 2, Steady, now) == r;
    assert TickServices(mid, 1, Steady, now) == r;
  }

  /** A beat at 0 and no process that exits: a tick at 0 leaves both as they are. */
  lemma NothingYet(m: Mgr, a: Svc, b: Svc) returns (r: Mgr, a2: Svc)
    requires TheseTwo(m, a, b) && a.state.Running? && a.timers.lastBeat == 0 && b.state.Waiting?
    ensures AllOk(m.services) && r == TickServices(m, 0, Steady, At(0))
    ensures TheseTwo(r, a2, b) && a2.state.Running? && a2.timers.lastBeat == 0 && a2.child == a.child
    ensures r.log == m.log + [Polled(a.child.value.id)] && r.shuttingDown == m.shuttingDown
  {
    hide ServiceSpec.Tick;
    var mid;
    mid, r := TickBoth(m, a, b, At(0));
    BeatenStays(a, m.log, CtxFor(m, 0, Steady, At(0)));
    a2 := mid.services[0];
    assert mid.services[1] == b;
    WaitingStays(b, mid.log, CtxFor(mid, 1, Steady, At(0)));
  }

  lemma BeatenStays(a: Svc, log: Log, ctx: Ctx)
    requires SvcInv(a) && a.config == BASE && a.state.Running? && a.timers.lastBeat == 0
    requires ctx.env == Steady && ctx.now == At(0)
    ensures var r := ServiceSpec.Tick(a, log, ctx);
            && r.svc.state.Running? && r.svc.child == a.child && r.svc.timers.lastBeat == 0
            && r.log == log + [Polled(a.child.value.id)]
  {
    OverdueInRange(BASE, 0);
    HeartbeatVerdict(a, log, ctx);
  }

  lemma WaitingStays(b: Svc, log: Log, ctx: Ctx)
    requires SvcInv(b) && b.state.Waiting?
    ensures var r := ServiceSpec.Tick(b, log, ctx); r.svc == b && r.log == log
  {}

  /** The first is up, so the second is launched. */
  lemma SecondStarts(m: Mgr, a: Svc, b: Svc) returns (r: Mgr, b2: Svc)
    requires TheseTwo(m, a, b) && a.state.Running? && b.state.Waiting? && !m.shuttingDown
    ensures AllOk(m.services) && r == FollowUps(m, 0, Steady, At(0))
    ensures TheseTwo(r, a, b2) && b2.state.Starting? && m.log <= r.log && !r.shuttingDown
  {
    FindTheTwo(m, a, b);
    assert FollowUpNext(m, 0, Steady, At(0)) == m;
    assert DependenciesRunning(m.services, ON_TOP.dependsOn);
    r := Act(m, 1, StartOp, Steady, At(0)).mgr;
    b2 := r.services[1];
    assert FollowUpNext(m, 1, Steady, At(0)) == r;
    assert FollowUps(r, 2, Steady, At(0)) == r;
    assert FollowUps(m, 1, Steady, At(0)) == r;
  }

  lemma NoneSwept(m: Mgr, a: Svc, b: Svc)
    requires TheseTwo(m, a, b)
    ensures AllOk(m.services) && Sweep(m) == m
  {
    hide Kept, RemovedNames, SvcInv;
    FindTheTwo(m, a, b);
    BothKept(a, b);
    assert m.removed + [] == m.removed;
  }

  lemma BothKept(a: Svc, b: Svc)
    requires !a.removing && !b.removing
    ensures Kept([a, b]) == [a, b] && RemovedNames([a, b]) == []
  {
    assert [a][..0] == [];
    assert Kept([a]) == [a] && RemovedNames([a]) == [];
    assert [a, b][..1] == [a];
  }

  /** The shutdown stops the second, which nothing depends on, and leaves the first for later. */
  lemma SecondStopsFirst(m: Mgr, a: Svc, b: Svc) returns (r: Mgr, b2: Svc)
    requires TheseTwo(m, a, b) && a.state.Running? && b.state.Starting?
    ensures AllOk(m.services) && r == StopAll(m, Steady, At(0))
    ensures TheseTwo(r, a, b2) && b2.state.Stopping? && r.shuttingDown
  {
    FindTheTwo(m, a, b);
    var begun := m.(shuttingDown := true);
    assert "a" in m.services[1].config.dependsOn;
    assert StopNext(begun, 0, Steady, At(0)) == begun;
    assert DependentsStopped(m.services, "b");
    r := Act(begun, 1, StopOp, Steady, At(0)).mgr;
    b2 := r.services[1];
    assert StopNext(begun, 1, Steady, At(0)) == r;
    assert StopFrom(r, 2, Steady, At(0)) == r;
    assert StopFrom(begun, 1, Steady, At(0)) == r;
  }

  /** A second later the first has missed its beat: it is asked to stop while the second is still live. */
  lemma FirstIsLost(m: Mgr, a: Svc, b: Svc) returns (r: Mgr)
    requires TheseTwo(m, a, b) && a.state.Running? && a.timers.lastBeat == 0 && b.state.Stopping?
    ensures AllOk(m.services) && r == TickServices(m, 0, Steady, At(1000))
    ensures |r.log| > |m.log| + 1
    ensures r.log[|m.log| + 1] == StopRequested(a.child.value.id, 11_000, false, {"b"}, true)
  {
    hide ServiceSpec.Tick;
    FindTheTwo(m, a, b);
    var mid;
    mid, r := TickBoth(m, a, b, At(1000));
    OverdueInRange(BASE, 1000);
    HeartbeatVerdict(a, m.log, CtxFor(m, 0, Steady, At(1000)));
    assert m.services[1].config.name in LiveDependents(m.services, "a");
    assert LiveDependents(m.services, "a") == {"b"};
    TickAsksForSilence(mid.services[1], mid.log, CtxFor(mid, 1, Steady, At(1000)));
  }

  /** The manager at each call of that run, the last one excepted. */
  lemma BeforeTheLateTick() returns (m1: Mgr, m2: Mgr, m3: Mgr, m4: Mgr, a: Svc, b: Svc)
    ensures m1 == OpStep(Load([BASE, ON_TOP]), Autostart, Steady, At(0)) && !m1.shuttingDown
    ensures m2 == OpStep(m1, Command(90, "a"), Steady, At(0)) && !m2.shuttingDown
    ensures m3 == OpStep(m2, Clock, Steady, At(0))
    ensures m4 == OpStep(m3, Shutdown, Steady, At(0)) && m4.shuttingDown
    ensures TheseTwo(m4, a, b) && a.state.Running? && a.timers.lastBeat == 0 && b.state.Stopping?
  {
    hide StartAutostart, Execute, TickServices, FollowUps, Sweep, StopAll, TheseTwo, FindIndex;
    var a1, b1, t3, f3;
    m1, a1, b1 := FirstStarts();
    m2, a := FirstBeats(m1, a1, b1);
    t3, a := NothingYet(m2, a, b1);
    f3, b := SecondStarts(t3, a, b1);
    m3 := f3;
    NoneSwept(f3, a, b);
    m4, b := SecondStopsFirst(m3, a, b);
  }

  lemma LateTick(m: Mgr, a: Svc, b: Svc)
    requires TheseTwo(m, a, b) && a.state.Running? && a.timers.lastBeat == 0 && b.state.Stopping? && m.shuttingDown
    ensures AllOk(m.services)
    ensures var r := OpStep(m, Clock, Steady, At(1000));
            exists k :: 0 <= k < |r.log| && r.log[k].StopRequested? && r.log[k].dependents == {"b"}
  {
    hide TickServices, TheseTwo;
    FindTheTwo(m, a, b);
    var ticked := FirstIsLost(m, a, b);
    FollowUpsStop(ticked, 0, Steady, At(1000));
    StopFromInOrder(ticked, 0, Steady, At(1000));
    var r := OpStep(m, Clock, Steady, At(1000));
    assert r == ManagerSpec.Tick(m, Steady, At(1000));
    assert r.log[|m.log| + 1] == ticked.log[|m.log| + 1];
  }

  /** A run in which a service is asked to stop while another, which depends on it, is live. */
  lemma LateBeatBreaksOrder()
    ensures ValidConfigs([BASE, ON_TOP]) && RunOk(Load([BASE, ON_TOP]), LATE_BEAT, Steady)
    ensures var log := Run(Load([BASE, ON_TOP]), LATE_BEAT, Steady).log;
            exists k :: 0 <= k < |log| && log[k].StopRequested? && log[k].dependents == {"b"}
  {
    hide OpStep, TheseTwo, ValidConfigs, Run, RunOk;
    BothValid();
    var m0 := Load([BASE, ON_TOP]);
    var m1, m2, m3, m4, a, b := BeforeTheLateTick();
    LateTick(m4, a, b);
    var c := LATE_BEAT;
    RunNone(m0, Steady);
    RunSnoc(m0, [], c[0], Steady);
    RunSnoc(m0, [] + [c[0]], c[1], Steady);
    RunSnoc(m0, [] + [c[0]] + [c[1]], c[2], Steady);
    RunSnoc(m0, [] + [c[0]] + [c[1]] + [c[2]], c[3], Steady);
    RunSnoc(m0, [] + [c[0]] + [c[1]] + [c[2]] + [c[3]], c[4], Steady);
    assert c == [] + [c[0]] + [c[1]] + [c[2]] + [c[3]] + [c[4]];
  }

  // ----- the daemon's budget can be too short

  /** A service without heartbeats, with a stop timeout. */
  function Slow(stopTimeout: nat): ServiceConfig {
    ServiceConfig("slow", "", "/bin/true", [], "", [], true, Never, 0, 0, 0, 0, 0, Terminate, stopTimeout, 0, 0,
                  LeaveAlone, [], Auto, "", 0, 0)
  }

  lemma SlowValid(stopTimeout: nat)
    ensures ValidConfigs([Slow(stopTimeout)]) && ValidConfigs([])
  {
    RankedIsAcyclic(GraphOf([Slow(stopTimeout)]), map["slow" := 0]);
    RankedIsAcyclic(GraphOf([]), map[]);
  }

  predicate OneSlow(m: Mgr, s: Svc, stopTimeout: nat) {
    m.services == [s] && s.config == Slow(stopTimeout) && SvcInv(s)
  }

  lemma SlowStarts(stopTimeout: nat) returns (m: Mgr, s: Svc)
    ensures m == OpStep(Load([Slow(stopTimeout)]), Autostart, Steady, At(0))
    ensures OneSlow(m, s, stopTimeout) && s.state.Starting? && !s.removing && !m.shuttingDown && |m.log| == 1
  {
    var start := Load([Slow(stopTimeout)]);
    m := AutostartNext(start, 0, Steady, At(0));
    assert StartAutostart(m, 1, Steady, At(0)) == m;
    s := m.services[0];
  }

  /** The moment its stop ends by itself at the latest. */
  predicate StoppingUntil(s: Svc, deadline: int) {
    s.state.Stopping? && !s.killSent && s.timers.stopDeadline == deadline
  }

  lemma SlowDropped(m: Mgr, s: Svc, stopTimeout: nat) returns (r: Mgr, s2: Svc)
    requires OneSlow(m, s, stopTimeout) && s.state.Starting? && !s.removing
    ensures AllOk(m.services) && r == OpStep(m, ReloadWith([]), Steady, At(0))
    ensures OneSlow(r, s2, stopTimeout) && StoppingUntil(s2, stopTimeout)
  {
    var a := Merge(m, [], ReloadSummary(0, 0, 0));
    var b := RetireNext(a, [], 0, Steady, At(0));
    assert !Listed([], s.config.name);
    assert RetireFrom(b, [], 1, Steady, At(0)) == b;
    r := b.mgr;
    s2 := r.services[0];
  }

  lemma StopFromSlow(m: Mgr, s: Svc, stopTimeout: nat) returns (r: Mgr, s2: Svc)
    requires OneSlow(m, s, stopTimeout) && (s.state.Starting? || StoppingUntil(s, stopTimeout))
    ensures AllOk(m.services) && r == OpStep(m, Shutdown, Steady, At(0))
    ensures OneSlow(r, s2, stopTimeout) && StoppingUntil(s2, stopTimeout) && r.shuttingDown
    ensures m.log <= r.log
  {
    var begun := m.(shuttingDown := true);
    assert DependentsStopped(m.services, "slow");
    r := StopNext(begun, 0, Steady, At(0));
    assert StopFrom(r, 1, Steady, At(0)) == r;
    s2 := r.services[0];
  }

  lemma SlowTick(s: Svc, log: Log, ctx: Ctx, deadline: int)
    requires SvcInv(s) && StoppingUntil(s, deadline) && ctx.now.steady < deadline && ctx.env(|log|).exit.None?
    ensures var r := ServiceSpec.Tick(s, log, ctx); r.svc == s && r.log == log + [Polled(s.child.value.id)]
  {}

  /** A tick before the stop deadline leaves it stopping. */
  lemma SlowStays(m: Mgr, s: Svc, stopTimeout: nat, now: int) returns (r: Mgr)
    requires OneSlow(m, s, stopTimeout) && StoppingUntil(s, stopTimeout) && m.shuttingDown && now < stopTimeout
    ensures AllOk(m.services) && r == OpStep(m, Clock, Steady, At(now))
    ensures r.services == [s] && r.shuttingDown && r.log == m.log + [Polled(s.child.value.id)]
  {
    hide ServiceSpec.Tick, OpStep;
    SlowTick(s, m.log, CtxFor(m, 0, Steady, At(now)), stopTimeout);
    OneTicked(m, s, Steady, At(now));
    r := OpStep(m, Clock, Steady, At(now));
  }

  lemma PollIsPrompt(m: Mgr, s: Svc, stopTimeout: nat)
    requires WellManaged(m) && OneSlow(m, s, stopTimeout) && StoppingUntil(s, stopTimeout)
    ensures PromptKills(m.log + [Polled(s.child.value.id)], |m.log|)
  {
    assert Agrees(m.services[0], m.log);
    var longer := m.log + [Polled(s.child.value.id)];
    assert longer[..|m.log|] == m.log;
  }

  /** Ticks alone, all of them before this moment. */
  predicate TicksBefore(calls: seq<Call>, end: int) {
    forall k :: 0 <= k < |calls| ==>
      calls[k].op.Clock? && calls[k].now.steady < end && calls[k].now == At(calls[k].now.steady)
  }

  lemma PromptOn(log: Log, middle: Log, final: Log)
    requires log <= middle && middle <= final
    requires PromptKills(middle, |log|) && PromptKills(final, |middle|)
    ensures PromptKills(final, |log|)
  {
    forall k | |log| <= k < |final| && final[k].Polled?
      ensures !Doomed(PhaseOf(final[..k], final[k].id))
    {
      if k < |middle| {
        assert middle[..k] == final[..k] && middle[k] == final[k];
      }
    }
  }

  /** Whatever the pace, ticks before the stop deadline leave it stopping, and no kill is awaited. */
  lemma {:induction false} SlowStaysOn(m: Mgr, s: Svc, stopTimeout: nat, calls: seq<Call>) returns (r: Mgr)
    requires WellManaged(m) && OneSlow(m, s, stopTimeout) && StoppingUntil(s, stopTimeout) && m.shuttingDown
    requires TicksBefore(calls, stopTimeout)
    ensures r == Run(m, calls, Steady) && r.services == [s] && m.log <= r.log && PromptKills(r.log, |m.log|)
    decreases |calls|
  {
    hide OpStep, PromptKills, ActiveClosed, Processes, LaunchesSafe, DroppedQuiet, UniqueNames;
    if calls == [] {
      r := m;
      NothingPolled(m.log);
    } else {
      var next := SlowStays(m, s, stopTimeout, calls[0].now.steady);
      PollIsPrompt(m, s, stopTimeout);
      OpKeepsManaged(m, Clock, Steady, calls[0].now);
      r := SlowStaysOn(next, s, stopTimeout, calls[1..]);
      PromptOn(m.log, next.log, r.log);
    }
  }

  lemma NothingPolled(log: Log)
    ensures PromptKills(log, |log|)
  {}

  /** Asked to stop at 0 at the earliest, it outlasts every series of ticks that ends before its stop timeout. */
  lemma SlowOutlasts(m: Mgr, s: Svc, stopTimeout: nat, calls: seq<Call>)
    requires WellManaged(m) && OneSlow(m, s, stopTimeout) && TicksBefore(calls, stopTimeout)
    requires s.state.Starting? || StoppingUntil(s, stopTimeout)
    ensures var stopped := StopAll(m, Steady, At(0));
            var r := Run(stopped, calls, Steady);
            PromptKills(r.log, |stopped.log|) && !AllStopped(r)
  {
    hide PromptKills, StopAll, WellManaged;
    var stopped, s2 := StopFromSlow(m, s, stopTimeout);
    OpKeepsManaged(m, Shutdown, Steady, At(0));
    var r := SlowStaysOn(stopped, s2, stopTimeout, calls);
    assert IsAlive(r.services[0].state);
  }

  // The daemon polls at least this often while it waits, in milliseconds.
  const PACE: nat := 50

  /** Ticks at the daemon's pace, counted from `from`. */
  function Polls(from: nat, n: nat): seq<Call> {
    seq(n, i requires 0 <= i < n => Call(Clock, At((from + i + 1) * PACE)))
  }

  lemma {:induction false} PollsArePaced(from: nat, n: nat)
    ensures Paced(Polls(from, n), from * PACE, PACE) && LastTick(Polls(from, n), from * PACE) == (from + n) * PACE
    ensures TicksBefore(Polls(from, n), (from + n) * PACE + 1)
    decreases n
  {
    if n > 0 {
      assert Polls(from, n)[0] == Call(Clock, At((from + 1) * PACE));
      assert Polls(from, n)[1..] == Polls(from + 1, n - 1);
      PollsArePaced(from + 1, n - 1);
    }
  }

  const DROPPED: seq<Call> := [Call(Autostart, At(0)), Call(ReloadWith([]), At(0))]

  /**
   With nothing listed the daemon waits too short for a dropped service that is still stopping, at the
   pace at which it polls.
   */
  lemma DroppedOutlastsBudget()
    ensures ValidConfigs([Slow(60_000)]) && RunOk(Load([Slow(60_000)]), DROPPED, Steady) && Forward(DROPPED, 0)
    ensures var m := Run(Load([Slow(60_000)]), DROPPED, Steady);
            var budget := DaemonBudget(CurrentList([Slow(60_000)], DROPPED));
            var polls := Polls(0, 140);
            var r := Run(StopAll(m, Steady, At(0)), polls, Steady);
            && budget == 7000
            && Paced(polls, 0, PACE) && LastTick(polls, 0) == budget
            && PromptKills(r.log, |StopAll(m, Steady, At(0)).log|)
            && !AllStopped(r)
  {
    hide OpStep, OneSlow, ValidConfigs, Run, RunOk, PromptKills, Polls;
    SlowValid(60_000);
    var m0 := Load([Slow(60_000)]);
    var m1, s1 := SlowStarts(60_000);
    var m2, s2 := SlowDropped(m1, s1, 60_000);
    RunNone(m0, Steady);
    RunSnoc(m0, [], DROPPED[0], Steady);
    RunSnoc(m0, [] + [DROPPED[0]], DROPPED[1], Steady);
    assert DROPPED == [] + [DROPPED[0]] + [DROPPED[1]];
    LoadIsManaged([Slow(60_000)]);
    RunKeepsManaged(m0, DROPPED, Steady);
    PollsArePaced(0, 140);
    SlowOutlasts(m2, s2, 60_000, Polls(0, 140));
    assert DROPPED[1..][1..] == [];
  }

  const STARTED: seq<Call> := [Call(Autostart, At(0))]

  /** So is the cap for a service with a longer stop timeout. */
  lemma CapIsTooShort()
    ensures ValidConfigs([Slow(700_000)]) && RunOk(Load([Slow(700_000)]), STARTED, Steady) && Forward(STARTED, 0)
    ensures var m := Run(Load([Slow(700_000)]), STARTED, Steady);
            var budget := DaemonBudget(CurrentList([Slow(700_000)], STARTED));
            var polls := Polls(0, 12_000);
            var r := Run(StopAll(m, Steady, At(0)), polls, Steady);
            && budget == MAX_SHUTDOWN
            && Paced(polls, 0, PACE) && LastTick(polls, 0) == budget
            && PromptKills(r.log, |StopAll(m, Steady, At(0)).log|)
            && !AllStopped(r)
  {
    hide OpStep, OneSlow, ValidConfigs, Run, RunOk, PromptKills, Polls;
    SlowValid(700_000);
    var m0 := Load([Slow(700_000)]);
    var m1, s1 := SlowStarts(700_000);
    RunNone(m0, Steady);
    RunSnoc(m0, [], STARTED[0], Steady);
    assert STARTED == [] + [STARTED[0]];
    LoadIsManaged([Slow(700_000)]);
    RunKeepsManaged(m0, STARTED, Steady);
    PollsArePaced(0, 12_000);
    SlowOutlasts(m1, s1, 700_000, Polls(0, 12_000));
    assert STARTED[1..] == [];
  }

  /** What is listed and not above the cap is down in time at that pace. */
  lemma ListedIsInTime(stopTimeout: nat, after: seq<Call>, env: Env, begin: Instant)
    requires stopTimeout + KILL_GRACE + SHUTDOWN_MARGIN <= MAX_SHUTDOWN && begin.steady >= 0
    requires var m := Run(Load([Slow(stopTimeout)]), STARTED, env);
             PromptKills(Run(StopAll(m, env, begin), after, env).log, |StopAll(m, env, begin).log|)
    requires Paced(after, begin.steady, PACE)
    requires LastTick(after, begin.steady) - begin.steady >= DaemonBudget([Slow(stopTimeout)])
    ensures AllStopped(Run(StopAll(Run(Load([Slow(stopTimeout)]), STARTED, env), env, begin), after, env))
  {
    hide OpStep, ValidConfigs, Paced, PromptKills, StopAll, AllStopped, NoneRemoving;
    var m0, limit := Load([Slow(stopTimeout)]), (name: string) => stopTimeout;
    SlowValid(stopTimeout);
    OneListed(m0, stopTimeout);
    RunNone(m0, env);
    RunSnoc(m0, [], STARTED[0], env);
    assert STARTED == [] + [STARTED[0]] && STARTED[1..] == [];
    StartedKeepsAll(m0, env);
    SettledDeadlineSuffices([Slow(stopTimeout)], STARTED, begin, 0, after, env, limit, PACE);
  }

  lemma OneListed(m: Mgr, stopTimeout: nat)
    requires m == Load([Slow(stopTimeout)])
    ensures NoneRemoving(m.services) && OpOk(m, Autostart)
    ensures StopTimeouts([Slow(stopTimeout)]) == stopTimeout
    ensures CurrentList([Slow(stopTimeout)], STARTED) == [Slow(stopTimeout)]
  {
    assert StopTimeouts([Slow(stopTimeout)][..0]) == 0;
    assert STARTED[1..] == [];
  }

  lemma StartedKeepsAll(m: Mgr, env: Env)
    requires AllOk(m.services) && NoneRemoving(m.services)
    ensures DroppedAreDown(OpStep(m, Autostart, env, At(0)).services)
  {
    NoneRemovingSame(m.services, OpStep(m, Autostart, env, At(0)).services);
  }

  // ----- heartbeats switched on late

  /** A service without a grace time; with an interval of 0 it sends no heartbeats. */
  function Beating(interval: nat): ServiceConfig {
    ServiceConfig("beat", "", "/bin/true", [], "", [], true, Never, 0, 0, 0, 0, 0, Terminate, 0, interval, 3,
                  LeaveAlone, [], Auto, "", 0, 0)
  }

  lemma BeatingValid(interval: nat)
    ensures ValidConfigs([Beating(interval)])
  {
    RankedIsAcyclic(GraphOf([Beating(interval)]), map["beat" := 0]);
  }

  /** Up since 0, with no beat since then. */
  predicate UpSilently(m: Mgr, interval: nat, state: ServiceState) {
    && |m.services| == 1 && !m.shuttingDown && SvcInv(m.services[0]) && !m.services[0].removing
    && var s := m.services[0];
       && s.config == Beating(interval) && s.state == state && s.timers.launchedAt == 0 && s.timers.lastBeat == 0
       && IsUp(s)
  }

  lemma BeatingStarts() returns (m: Mgr)
    ensures m == OpStep(Load([Beating(0)]), Autostart, Steady, At(0)) && UpSilently(m, 0, Starting)
  {
    var start := Load([Beating(0)]);
    m := AutostartNext(start, 0, Steady, At(0));
    assert StartAutostart(m, 1, Steady, At(0)) == m;
    assert StartDependencies(Traversal(start, ["beat"], [], []), [], Steady, At(0)).mgr == start;
  }

  lemma UpTick(s: Svc, log: Log, ctx: Ctx)
    requires SvcInv(s) && s.config == Beating(0) && (s.state.Starting? || s.state.Running?)
    requires ctx.env(|log|).exit.None? && s.timers.launchedAt == 0 && ctx.now.steady >= 0
    ensures var r := ServiceSpec.Tick(s, log, ctx).svc;
            r.state.Running? && r.timers == s.timers && r.child == s.child
  {}

  /** Without heartbeats a tick finds it running, and counts nothing as a beat. */
  lemma UpTicked(m: Mgr, state: ServiceState, now: nat) returns (r: Mgr)
    requires UpSilently(m, 0, state) && (state.Starting? || state.Running?)
    ensures AllOk(m.services) && r == OpStep(m, Clock, Steady, At(now)) && UpSilently(r, 0, Running)
  {
    hide ServiceSpec.Tick, OpStep;
    UpTick(m.services[0], m.log, CtxFor(m, 0, Steady, At(now)));
    OneTicked(m, m.services[0], Steady, At(now));
    r := OpStep(m, Clock, Steady, At(now));
  }

  /** Ticks alone, none before 0. */
  predicate TicksOnly(calls: seq<Call>) {
    forall k :: 0 <= k < |calls| ==>
      calls[k].op.Clock? && calls[k].now.steady >= 0 && calls[k].now == At(calls[k].now.steady)
  }

  lemma {:induction false} UpThroughTicks(m: Mgr, calls: seq<Call>) returns (r: Mgr)
    requires UpSilently(m, 0, Running) && TicksOnly(calls)
    ensures AllOk(m.services) && r == Run(m, calls, Steady) && RunOk(m, calls, Steady) && UpSilently(r, 0, Running)
    decreases |calls|
  {
    hide OpStep;
    if calls == [] {
      r := m;
    } else {
      var next := UpTicked(m, Running, calls[0].now.steady);
      r := UpThroughTicks(next, calls[1..]);
    }
  }

  lemma SwitchedOn(m: Mgr, at: nat) returns (n: Mgr, r: Mgr)
    requires UpSilently(m, 0, Running)
    ensures AllOk(m.services) && n == OpStep(m, ReloadWith([Beating(1)]), Steady, At(at))
    ensures AllOk(n.services) && r == OpStep(n, Clock, Steady, At(at))
    ensures UpSilently(r, 1, if 3 <= at % 0x1_0000_0000 < 0x8000_0000 then Unhealthy else Running)
  {
    hide ServiceSpec.Tick, OpStep, Overdue;
    OneReplaced(m, m.services[0], Beating(1), Steady, At(at));
    n := OpStep(m, ReloadWith([Beating(1)]), Steady, At(at));
    HeartbeatVerdict(n.services[0], n.log, CtxFor(n, 0, Steady, At(at)));
    OverdueExactly(Beating(1), at);
    OneTicked(n, n.services[0], Steady, At(at));
    r := OpStep(n, Clock, Steady, At(at));
  }

  function SwitchedOnLate(ticks: seq<Call>, at: nat): seq<Call> {
    [Call(Autostart, At(0)), Call(Clock, At(0))] + ticks +
      [Call(ReloadWith([Beating(1)]), At(at)), Call(Clock, At(at))]
  }

  /**
   Heartbeats of one a millisecond, switched on by a reload: the service has never sent one, and after
   whatever ticks there were before, the first tick that counts finds it unhealthy when the silence
   began at least three milliseconds and less than 2^31 ago, and healthy when it began 2^31 ago.
   */
  lemma LateHeartbeats(ticks: seq<Call>, at: nat)
    requires TicksOnly(ticks)
    ensures ValidConfigs([Beating(0)]) && RunOk(Load([Beating(0)]), SwitchedOnLate(ticks, at), Steady)
    ensures var ss := Run(Load([Beating(0)]), SwitchedOnLate(ticks, at), Steady).services;
            && |ss| == 1 && ss[0].timers.lastBeat == 0 && ss[0].config == Beating(1)
            && (3 <= at < 0x8000_0000 ==> ss[0].state.Unhealthy?)
            && (at == 0x8000_0000 ==> ss[0].state.Running?)
    ensures Forward(ticks, 0) && LastTime(ticks, 0) <= at ==> Forward(SwitchedOnLate(ticks, at), 0)
  {
    SwitchedInOrder(ticks, at);
    hide OpStep, UpSilently, ValidConfigs, Run, RunOk, TicksOnly;
    BeatingValid(0);
    BeatingValid(1);
    var m0, first, second := Load([Beating(0)]), Call(Autostart, At(0)), Call(Clock, At(0));
    var reload, last := Call(ReloadWith([Beating(1)]), At(at)), Call(Clock, At(at));
    var m1 := BeatingStarts();
    var m2 := UpTicked(m1, Starting, 0);
    var m3 := UpThroughTicks(m2, ticks);
    var m4, m5 := SwitchedOn(m3, at);
    RunNone(m0, Steady);
    RunSnoc(m0, [], first, Steady);
    RunSnoc(m0, [] + [first], second, Steady);
    RunJoins(m0, [] + [first] + [second], ticks, Steady);
    RunSnoc(m0, [] + [first] + [second] + ticks, reload, Steady);
    RunSnoc(m0, [] + [first] + [second] + ticks + [reload], last, Steady);
    assert SwitchedOnLate(ticks, at) == [] + [first] + [second] + ticks + [reload] + [last];
    OpsAllowed(m0, m3, Beating(1));
    UpIs(m5, at);
  }

  lemma SwitchedInOrder(ticks: seq<Call>, at: nat)
    ensures Forward(ticks, 0) && LastTime(ticks, 0) <= at ==> Forward(SwitchedOnLate(ticks, at), 0)
  {
    var start := [Call(Autostart, At(0)), Call(Clock, At(0))];
    var end := [Call(ReloadWith([Beating(1)]), At(at)), Call(Clock, At(at))];
    assert start[1..][1..] == [] && end[1..][1..] == [];
    assert Forward(start[1..], 0) && LastTime(start[1..], 0) == 0 && LastTime(start, 0) == 0;
    assert Forward(end[1..], at) && (LastTime(ticks, 0) <= at ==> Forward(end, LastTime(ticks, 0)));
    ForwardJoins(start, ticks, 0);
    ForwardJoins(start + ticks, end, 0);
  }

  lemma UpIs(m: Mgr, at: nat)
    requires UpSilently(m, 1, if 3 <= at % 0x1_0000_0000 < 0x8000_0000 then Unhealthy else Running)
    ensures |m.services| == 1 && m.services[0].timers.lastBeat == 0 && m.services[0].config == Beating(1)
    ensures 3 <= at < 0x8000_0000 ==> m.services[0].state.Unhealthy?
    ensures at == 0x8000_0000 ==> m.services[0].state.Running?
  {}
}
