/**
 Every call on the manager is a sequence of small steps: one call on one service, a service
 added, the finished ones swept out, or the switch to shutting down. What each small step
 keeps, every run keeps.
 */
module MicroSteps {
  import opened ServiceConfigs
  import opened Launching
  import opened ServiceSpec
  import opened ManagerSpec
  import opened Lifecycle

  datatype Micro =
    | ActStep(i: nat, op: SvcOp)
    | AddStep(config: ServiceConfig)
    | SweepStep
    | ShutdownStep

  /**
   What the manager guarantees about each small step: it starts nothing while shutting down and
   nothing that is being removed, replaced settings keep the name, and an added name is new.
   `wake` is the list a reload carries: only its entries are added, come back from removal or give
   a service new settings.
   */
  predicate MicroOk(m: Mgr, s: Micro, wake: seq<ServiceConfig>) {
    match s
    case ActStep(i, op) =>
      && i < |m.services|
      && (op.StartOp? || op.RestartOp? ==> !m.shuttingDown && !m.services[i].removing)
      && (op.ReplaceOp? ==> op.config.name == m.services[i].config.name && op.config in wake)
      && (op.ReaddOp? ==> Listed(wake, m.services[i].config.name))
    case AddStep(config) => config.name !in Names(m.services) && config in wake
    case SweepStep => true
    case ShutdownStep => true
  }

  predicate Applicable(m: Mgr, s: Micro) {
    s.ActStep? ==> s.i < |m.services|
  }

  function MicroStep(m: Mgr, s: Micro, env: Env, now: Instant): (r: Mgr)
    requires AllOk(m.services) && Applicable(m, s)
    ensures AllOk(r.services)
  {
    match s
    case ActStep(i, op) => Act(m, i, op, env, now).mgr
    case AddStep(config) => m.(services := m.services + [NewService(config)])
    case SweepStep => Sweep(m)
    case ShutdownStep => m.(shuttingDown := true)
  }

  // ----- the invariant

  predicate UniqueNames(ss: seq<Svc>) {
    forall i, j :: 0 <= i < j < |ss| ==> ss[i].config.name != ss[j].config.name
  }

  /** Every service agrees with the log about its process. */
  predicate AllAgree(ss: seq<Svc>, log: Log) {
    forall i :: 0 <= i < |ss| ==> Agrees(ss[i], log)
  }

  /** No process is held twice. */
  predicate HeldApart(ss: seq<Svc>) {
    forall i, j :: 0 <= i < j < |ss| ==> Held(ss[i]) !! Held(ss[j])
  }

  /** No live process is forgotten. */
  ghost predicate NoOrphans(ss: seq<Svc>, log: Log) {
    forall id: nat :: Lives(PhaseOf(log, id)) ==> exists i :: 0 <= i < |ss| && id in Held(ss[i])
  }

  /** Every launch in the log happened with every dependency running. */
  predicate LaunchesSafe(log: Log) {
    forall k :: 0 <= k < |log| && log[k].Launched? ==> forall d :: d in log[k].dependsOn ==> d in log[k].running
  }

  /** A service dropped by a reload is stopping or stopped, with nothing queued. */
  predicate Quiet(s: Svc) {
    (s.state.Stopping? || s.state.Stopped?) && !s.pendingStart && !s.restartAfterStop
  }

  predicate DroppedQuiet(ss: seq<Svc>) {
    forall i :: 0 <= i < |ss| && ss[i].removing ==> Quiet(ss[i])
  }

  ghost predicate Processes(ss: seq<Svc>, log: Log) {
    && AllAgree(ss, log) && HeldApart(ss) && NoOrphans(ss, log)
    && FreshFrom(log, |log|) && NothingBroken(log)
  }

  ghost predicate Inv(m: Mgr) {
    && AllOk(m.services) && UniqueNames(m.services)
    && Processes(m.services, m.log)
    && LaunchesSafe(m.log)
    && DroppedQuiet(m.services)
  }

  // ----- one call on one service

  lemma ProcessesAfter(ss: seq<Svc>, log: Log, i: nat, t: Svc, newLog: Log)
    requires i < |ss| && Processes(ss, log) && Evolves(ss[i], log, t, newLog)
    ensures Processes(ss[i := t], newLog)
  {
    var s := ss[i];
    var tt := ss[i := t];
    forall j | 0 <= j < |ss|
      ensures Agrees(tt[j], newLog)
    {
      if j != i && ss[j].child.Some? {
        var id := ss[j].child.value.id;
        assert id in Held(ss[j]);
        assert id !in Held(s);
        assert newLog[id] == newLog[..|log|][id];
      }
    }
    forall a, b | 0 <= a < b < |tt|
      ensures Held(tt[a]) !! Held(tt[b])
    {
      HeldOld(ss, log, a);
      HeldOld(ss, log, b);
    }
    forall id: nat | Lives(PhaseOf(newLog, id))
      ensures exists j :: 0 <= j < |tt| && id in Held(tt[j])
    {
      if id in Held(t) {
        assert id in Held(tt[i]);
      } else {
        var j :| 0 <= j < |ss| && id in Held(ss[j]);
        assert id in Held(tt[j]);
      }
    }
  }

  lemma HeldOld(ss: seq<Svc>, log: Log, j: nat)
    requires j < |ss| && AllAgree(ss, log)
    ensures forall id :: id in Held(ss[j]) ==> id < |log|
  {
    assert Agrees(ss[j], log);
  }

  lemma RunningCovers(ss: seq<Svc>, dependsOn: seq<string>)
    requires DependenciesRunning(ss, dependsOn)
    ensures forall d :: d in dependsOn ==> d in RunningNames(ss)
  {
    forall d | d in dependsOn
      ensures d in RunningNames(ss)
    {
      var j :| 0 <= j < |dependsOn| && dependsOn[j] == d;
      var k := FindIndex(ss, dependsOn[j]);
      assert ss[k].state.Running? && ss[k].config.name == d;
    }
  }

  lemma LaunchesStaySafe(m: Mgr, i: nat, op: SvcOp, env: Env, now: Instant)
    requires AllOk(m.services) && i < |m.services| && LaunchesSafe(m.log)
    requires m.log <= Act(m, i, op, env, now).mgr.log
    ensures LaunchesSafe(Act(m, i, op, env, now).mgr.log)
  {
    var s := m.services[i];
    var ctx := CtxFor(m, i, env, now);
    var newLog := Act(m, i, op, env, now).mgr.log;
    StepLaunches(s, m.log, op, ctx);
    if ctx.dependenciesReady {
      RunningCovers(m.services, s.config.dependsOn);
    }
    forall k | 0 <= k < |newLog| && newLog[k].Launched?
      ensures forall d :: d in newLog[k].dependsOn ==> d in newLog[k].running
    {
      if k < |m.log| {
        assert newLog[k] == m.log[k];
      }
    }
  }

  lemma QuietTick(s: Svc, log: Log, ctx: Ctx)
    requires SvcInv(s) && Quiet(s)
    ensures Quiet(ServiceSpec.Tick(s, log, ctx).svc)
  {
    var polled := PollChild(s, log, ctx);
    assert Quiet(polled.svc);
  }

  /** Only a start, a restart or coming back from removal can wake a quiet service. */
  lemma StaysQuiet(s: Svc, log: Log, op: SvcOp, ctx: Ctx)
    requires SvcInv(s)
    requires (Quiet(s) && !op.StartOp? && !op.RestartOp?) || op.RetireOp?
    ensures Quiet(Step(s, log, op, ctx).svc)
  {
    if op.TickOp? {
      QuietTick(s, log, ctx);
    }
  }

  lemma ActKeepsInv(m: Mgr, i: nat, op: SvcOp, wake: seq<ServiceConfig>, env: Env, now: Instant)
    requires Inv(m) && MicroOk(m, ActStep(i, op), wake)
    ensures Inv(Act(m, i, op, env, now).mgr)
  {
    var s := m.services[i];
    var ctx := CtxFor(m, i, env, now);
    assert Agrees(s, m.log);
    StepEvolves(s, m.log, op, ctx);
    var o := Step(s, m.log, op, ctx);
    ProcessesAfter(m.services, m.log, i, o.svc, o.log);
    assert m.log <= o.log by {
      assert o.log[..|m.log|] == m.log;
    }
    LaunchesStaySafe(m, i, op, env, now);
    if o.svc.removing {
      StaysQuiet(s, m.log, op, ctx);
    }
  }

  // ----- the other small steps

  lemma AddKeepsInv(m: Mgr, config: ServiceConfig)
    requires Inv(m) && config.name !in Names(m.services)
    ensures Inv(m.(services := m.services + [NewService(config)]))
  {
    var tt := m.services + [NewService(config)];
    assert Held(NewService(config)) == {};
    forall id: nat | Lives(PhaseOf(m.log, id))
      ensures exists i :: 0 <= i < |tt| && id in Held(tt[i])
    {
      var i :| 0 <= i < |m.services| && id in Held(m.services[i]);
      assert id in Held(tt[i]);
    }
    forall i | 0 <= i < |m.services|
      ensures tt[i].config.name != config.name
    {
      assert m.services[i].config.name in Names(m.services);
    }
  }

  /** Which of the old services each kept one was. */
  lemma KeptFrom(ss: seq<Svc>) returns (at: seq<nat>)
    ensures |at| == |Kept(ss)|
    ensures forall a :: 0 <= a < |at| ==> at[a] < |ss| && Kept(ss)[a] == ss[at[a]]
    ensures forall a, b :: 0 <= a < b < |at| ==> at[a] < at[b]
  {
    if ss == [] {
      at := [];
    } else {
      at := KeptFrom(ss[..|ss| - 1]);
      if !Finished(ss[|ss| - 1]) {
        at := at + [|ss| - 1];
      }
    }
  }

  lemma KeptForgetsNone(ss: seq<Svc>, log: Log)
    requires AllOk(ss) && NoOrphans(ss, log)
    ensures NoOrphans(Kept(ss), log)
  {
    var kept := Kept(ss);
    forall id: nat | Lives(PhaseOf(log, id))
      ensures exists i :: 0 <= i < |kept| && id in Held(kept[i])
    {
      var i :| 0 <= i < |ss| && id in Held(ss[i]);
      assert SvcInv(ss[i]);
      assert ss[i] in kept;
      var a :| 0 <= a < |kept| && kept[a] == ss[i];
      assert id in Held(kept[a]);
    }
  }

  lemma SweepKeepsInv(m: Mgr)
    requires Inv(m)
    ensures Inv(Sweep(m))
  {
    hide Agrees, Held, Quiet, NoOrphans, FreshFrom, NothingBroken, LaunchesSafe;
    var kept := Kept(m.services);
    var at := KeptFrom(m.services);
    KeptForgetsNone(m.services, m.log);
    forall a | 0 <= a < |kept|
      ensures Agrees(kept[a], m.log) && (kept[a].removing ==> Quiet(kept[a]))
    {
      assert kept[a] == m.services[at[a]];
    }
    forall a, b | 0 <= a < b < |kept|
      ensures Held(kept[a]) !! Held(kept[b]) && kept[a].config.name != kept[b].config.name
    {
      assert Held(m.services[at[a]]) !! Held(m.services[at[b]]);
    }
  }

  lemma MicroKeepsInv(m: Mgr, s: Micro, wake: seq<ServiceConfig>, env: Env, now: Instant)
    requires Inv(m) && MicroOk(m, s, wake)
    ensures Inv(MicroStep(m, s, env, now))
  {
    match s
    case ActStep(i, op) => ActKeepsInv(m, i, op, wake, env, now);
    case AddStep(config) => AddKeepsInv(m, config);
    case SweepStep => SweepKeepsInv(m);
    case ShutdownStep =>
  }

  /** While shutting down, no small step launches. */
  lemma MicroLaunchesNothing(m: Mgr, s: Micro, wake: seq<ServiceConfig>, env: Env, now: Instant)
    requires Inv(m) && MicroOk(m, s, wake) && m.shuttingDown
    ensures var r := MicroStep(m, s, env, now);
            r.shuttingDown && m.log <= r.log && LaunchesNothing(m.log, r.log)
  {
    if s.ActStep? {
      var ctx := CtxFor(m, s.i, env, now);
      assert Agrees(m.services[s.i], m.log);
      StepEvolves(m.services[s.i], m.log, s.op, ctx);
      StepLaunches(m.services[s.i], m.log, s.op, ctx);
      var o := Step(m.services[s.i], m.log, s.op, ctx);
      assert o.log[..|m.log|] == m.log;
    }
  }

  ghost predicate LaunchesNothing(log: Log, newLog: Log) {
    forall k :: |log| <= k < |newLog| ==> !newLog[k].Launched?
  }

  // ----- sequences of small steps

  ghost predicate MicrosOk(m: Mgr, steps: seq<Micro>, wake: seq<ServiceConfig>, env: Env, now: Instant)
    requires AllOk(m.services)
    decreases |steps|
  {
    steps == [] ||
    (MicroOk(m, steps[0], wake) && MicrosOk(MicroStep(m, steps[0], env, now), steps[1..], wake, env, now))
  }

  ghost function Micros(m: Mgr, steps: seq<Micro>, wake: seq<ServiceConfig>, env: Env, now: Instant): (r: Mgr)
    requires AllOk(m.services) && MicrosOk(m, steps, wake, env, now)
    ensures AllOk(r.services)
    decreases |steps|
  {
    if steps == [] then m else Micros(MicroStep(m, steps[0], env, now), steps[1..], wake, env, now)
  }

  /** r comes from m by small steps alone. */
  ghost predicate Reaches(m: Mgr, r: Mgr, wake: seq<ServiceConfig>, env: Env, now: Instant)
    requires AllOk(m.services)
  {
    exists steps :: MicrosOk(m, steps, wake, env, now) && Micros(m, steps, wake, env, now) == r
  }

  lemma ReachesSelf(m: Mgr, wake: seq<ServiceConfig>, env: Env, now: Instant)
    requires AllOk(m.services)
    ensures Reaches(m, m, wake, env, now)
  {
    assert MicrosOk(m, [], wake, env, now) && Micros(m, [], wake, env, now) == m;
  }

  lemma ReachesBy(m: Mgr, s: Micro, wake: seq<ServiceConfig>, env: Env, now: Instant)
    requires AllOk(m.services) && MicroOk(m, s, wake)
    ensures Reaches(m, MicroStep(m, s, env, now), wake, env, now)
  {
    var r := MicroStep(m, s, env, now);
    assert [s][1..] == [];
    assert MicrosOk(r, [], wake, env, now) && Micros(r, [], wake, env, now) == r;
    assert MicrosOk(m, [s], wake, env, now) && Micros(m, [s], wake, env, now) == r;
  }

  lemma MicrosAppend(m: Mgr, a: seq<Micro>, b: seq<Micro>, wake: seq<ServiceConfig>, env: Env, now: Instant)
    requires AllOk(m.services) && MicrosOk(m, a, wake, env, now)
    requires MicrosOk(Micros(m, a, wake, env, now), b, wake, env, now)
    ensures MicrosOk(m, a + b, wake, env, now)
    ensures Micros(m, a + b, wake, env, now) == Micros(Micros(m, a, wake, env, now), b, wake, env, now)
    decreases |a|
  {
    hide MicroStep, Listed;
    if a == [] {
      assert a + b == b;
    } else {
      assert (a + b)[0] == a[0] && (a + b)[1..] == a[1..] + b;
      MicrosAppend(MicroStep(m, a[0], env, now), a[1..], b, wake, env, now);
    }
  }

  lemma ReachesTrans(m: Mgr, r: Mgr, q: Mgr, wake: seq<ServiceConfig>, env: Env, now: Instant)
    requires AllOk(m.services) && AllOk(r.services)
    requires Reaches(m, r, wake, env, now) && Reaches(r, q, wake, env, now)
    ensures Reaches(m, q, wake, env, now)
  {
    var a :| MicrosOk(m, a, wake, env, now) && Micros(m, a, wake, env, now) == r;
    var b :| MicrosOk(r, b, wake, env, now) && Micros(r, b, wake, env, now) == q;
    MicrosAppend(m, a, b, wake, env, now);
  }

  lemma {:induction false} MicrosKeepInv(m: Mgr, steps: seq<Micro>, wake: seq<ServiceConfig>, env: Env, now: Instant)
    requires Inv(m) && MicrosOk(m, steps, wake, env, now)
    ensures Inv(Micros(m, steps, wake, env, now))
    decreases |steps|
  {
    if steps != [] {
      MicroKeepsInv(m, steps[0], wake, env, now);
      MicrosKeepInv(MicroStep(m, steps[0], env, now), steps[1..], wake, env, now);
    }
  }

  lemma ReachesKeepsInv(m: Mgr, r: Mgr, wake: seq<ServiceConfig>, env: Env, now: Instant)
    requires Inv(m) && Reaches(m, r, wake, env, now)
    ensures Inv(r)
  {
    var steps :| MicrosOk(m, steps, wake, env, now) && Micros(m, steps, wake, env, now) == r;
    MicrosKeepInv(m, steps, wake, env, now);
  }

  lemma {:induction false} MicrosLaunchNothing(m: Mgr, steps: seq<Micro>, wake: seq<ServiceConfig>, env: Env,
                                               now: Instant)
    requires Inv(m) && m.shuttingDown && MicrosOk(m, steps, wake, env, now)
    ensures var r := Micros(m, steps, wake, env, now);
            r.shuttingDown && m.log <= r.log && LaunchesNothing(m.log, r.log)
    decreases |steps|
  {
    if steps != [] {
      var next := MicroStep(m, steps[0], env, now);
      MicroKeepsInv(m, steps[0], wake, env, now);
      MicroLaunchesNothing(m, steps[0], wake, env, now);
      MicrosLaunchNothing(next, steps[1..], wake, env, now);
      var r := Micros(m, steps, wake, env, now);
      forall k | |m.log| <= k < |r.log|
        ensures !r.log[k].Launched?
      {
        if k < |next.log| {
          assert r.log[k] == next.log[k];
        }
      }
    }
  }

  lemma ReachesLaunchesNothing(m: Mgr, r: Mgr, wake: seq<ServiceConfig>, env: Env, now: Instant)
    requires Inv(m) && m.shuttingDown && Reaches(m, r, wake, env, now)
    ensures r.shuttingDown && m.log <= r.log && LaunchesNothing(m.log, r.log)
  {
    var steps :| MicrosOk(m, steps, wake, env, now) && Micros(m, steps, wake, env, now) == r;
    MicrosLaunchNothing(m, steps, wake, env, now);
  }

  // ----- dropped services

  /** Nothing by this name stays: it is unknown or being removed. */
  predicate Dropped(ss: seq<Svc>, name: string) {
    forall i :: 0 <= i < |ss| && ss[i].config.name == name ==> ss[i].removing
  }

  ghost predicate LaunchesNone(log: Log, newLog: Log, name: string) {
    forall k :: |log| <= k < |newLog| && newLog[k].Launched? ==> newLog[k].name != name
  }

  lemma QuietTickLaunchesNothing(s: Svc, log: Log, ctx: Ctx)
    requires SvcInv(s) && Quiet(s)
    ensures LaunchesNothing(log, ServiceSpec.Tick(s, log, ctx).log)
  {
    var polled := PollChild(s, log, ctx);
    assert Quiet(polled.svc);
    assert polled.log == log || (|polled.log| == |log| + 1 && !polled.log[|log|].Launched?);
    var r := Advance(polled.svc, polled.log, ctx);
    assert r.log == polled.log || (|r.log| == |polled.log| + 1 && !r.log[|polled.log|].Launched?);
  }

  lemma ActOnDropped(m: Mgr, i: nat, op: SvcOp, name: string, wake: seq<ServiceConfig>, env: Env, now: Instant)
    requires Inv(m) && MicroOk(m, ActStep(i, op), wake) && !Listed(wake, name) && Dropped(m.services, name)
    ensures var r := Act(m, i, op, env, now).mgr;
            Dropped(r.services, name) && m.log <= r.log && LaunchesNone(m.log, r.log, name)
  {
    var s := m.services[i];
    var ctx := CtxFor(m, i, env, now);
    assert Agrees(s, m.log);
    StepEvolves(s, m.log, op, ctx);
    StepLaunches(s, m.log, op, ctx);
    var o := Step(s, m.log, op, ctx);
    assert o.log[..|m.log|] == m.log;
    if s.config.name == name && op.TickOp? {
      QuietTickLaunchesNothing(s, m.log, ctx);
    }
  }

  lemma MicroOnDropped(m: Mgr, s: Micro, name: string, wake: seq<ServiceConfig>, env: Env, now: Instant)
    requires Inv(m) && MicroOk(m, s, wake) && !Listed(wake, name) && Dropped(m.services, name)
    ensures var r := MicroStep(m, s, env, now);
            Dropped(r.services, name) && m.log <= r.log && LaunchesNone(m.log, r.log, name)
  {
    match s
    case ActStep(i, op) => ActOnDropped(m, i, op, name, wake, env, now);
    case AddStep(config) =>
    case SweepStep =>
      var at := KeptFrom(m.services);
    case ShutdownStep =>
  }

  lemma {:induction false} MicrosOnDropped(m: Mgr, steps: seq<Micro>, name: string, wake: seq<ServiceConfig>, env: Env,
                                           now: Instant)
    requires Inv(m) && MicrosOk(m, steps, wake, env, now) && !Listed(wake, name) && Dropped(m.services, name)
    ensures var r := Micros(m, steps, wake, env, now);
            Dropped(r.services, name) && m.log <= r.log && LaunchesNone(m.log, r.log, name)
    decreases |steps|
  {
    if steps != [] {
      var next := MicroStep(m, steps[0], env, now);
      MicroKeepsInv(m, steps[0], wake, env, now);
      MicroOnDropped(m, steps[0], name, wake, env, now);
      MicrosOnDropped(next, steps[1..], name, wake, env, now);
      var r := Micros(m, steps, wake, env, now);
      forall k | |m.log| <= k < |r.log| && r.log[k].Launched?
        ensures r.log[k].name != name
      {
        if k < |next.log| {
          assert r.log[k] == next.log[k];
        }
      }
    }
  }

  lemma ReachesOnDropped(m: Mgr, r: Mgr, name: string, wake: seq<ServiceConfig>, env: Env, now: Instant)
    requires Inv(m) && Reaches(m, r, wake, env, now) && !Listed(wake, name) && Dropped(m.services, name)
    ensures Dropped(r.services, name) && m.log <= r.log && LaunchesNone(m.log, r.log, name)
  {
    var steps :| MicrosOk(m, steps, wake, env, now) && Micros(m, steps, wake, env, now) == r;
    MicrosOnDropped(m, steps, name, wake, env, now);
  }
}
