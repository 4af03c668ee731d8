/** The main results about whole runs of the manager. */
module Supervision {
  import opened ServiceConfigs
  import opened Launching
  import opened ServiceSpec
  import opened ManagerSpec
  import opened Lifecycle
  import opened MicroSteps
  import opened Graphs
  import opened Runs
  import opened Reload

  /** The calls the daemon makes on the manager. */
  datatype Op =
    | Autostart
    | Command(command: int, name: string)
    | ReloadWith(configs: seq<ServiceConfig>)
    | Clock
    | Measure(readings: nat -> UsageSample)
    | Shutdown
    | KillEverything

  ghost function OpStep(m: Mgr, op: Op, env: Env, now: Instant): (r: Mgr)
    requires AllOk(m.services)
    ensures AllOk(r.services)
  {
    match op
    case Autostart => StartAutostart(m, 0, env, now)
    case Command(command, name) => Execute(m, command, name, env, now).mgr
    case ReloadWith(configs) => Apply(m, configs, env, now).mgr
    case Clock => ManagerSpec.Tick(m, env, now)
    case Measure(readings) => SampleFrom(m, 0, readings, env, now)
    case Shutdown => StopAll(m, env, now)
    case KillEverything => KillAll(m, env, now)
  }

  /**
   A reload carries a configuration the parser accepted. Autostart belongs to the beginning: it
   checks neither for a shutdown nor for services being removed.
   */
  ghost predicate OpOk(m: Mgr, op: Op) {
    match op
    case Autostart => !m.shuttingDown && NoneRemoving(m.services)
    case ReloadWith(configs) => ValidConfigs(configs)
    case _ => true
  }

  /** The entries a call may add, bring back from removal or take settings from. */
  ghost function Wakes(op: Op): seq<ServiceConfig> {
    match op
    case ReloadWith(configs) => configs
    case _ => []
  }

  lemma OpReaches(m: Mgr, op: Op, env: Env, now: Instant)
    requires WellManaged(m) && OpOk(m, op)
    ensures Reaches(m, OpStep(m, op, env, now), Wakes(op), env, now)
  {
    match op
    case Autostart => StartAutostartReaches(m, 0, [], env, now);
    case Command(command, name) => ExecuteReaches(m, command, name, [], env, now);
    case ReloadWith(configs) => ApplyRefines(m, configs, env, now);
    case Clock => TickReaches(m, [], env, now);
    case Measure(readings) => SampleReaches(m, 0, readings, [], env, now);
    case Shutdown => StopAllReaches(m, [], env, now);
    case KillEverything => KillAllReaches(m, [], env, now);
  }

  // ----- sweeping keeps the graph closed and acyclic

  lemma KeptActive(ss: seq<Svc>, n: string)
    requires UniqueNames(ss) && DepsActive(ss, [n])
    ensures DepsActive(Kept(ss), [n])
  {
    assert n in [n];
    var k := FindIndex(ss, n);
    var kept := Kept(ss);
    assert ss[k] in kept;
    var a :| 0 <= a < |kept| && kept[a] == ss[k];
    var at := KeptFrom(ss);
    var b := FindIndex(kept, n);
    assert b <= a;
    assert ss[at[b]] == ss[k];
  }

  lemma SweepKeepsManaged(m: Mgr)
    requires WellManaged(m)
    ensures WellManaged(Sweep(m))
  {
    var ss, kept := m.services, Kept(m.services);
    SweepKeepsInv(m);
    var at := KeptFrom(ss);
    forall a | 0 <= a < |kept| && !kept[a].removing
      ensures DepsActive(kept, kept[a].config.dependsOn)
    {
      assert DepsActive(ss, ss[at[a]].config.dependsOn);
      forall d | d in kept[a].config.dependsOn
        ensures var k := FindIndex(kept, d); k < |kept| && !kept[k].removing
      {
        assert DepsActive(ss, [d]);
        KeptActive(ss, d);
        assert d in [d];
      }
    }
    forall u, v | Edge(HeldGraph(kept), u, v)
      ensures Edge(HeldGraph(ss), u, v)
    {
      var i, j := HeldEdge(kept, u, v);
      HeldEdgeIs(ss, at[i], at[j]);
    }
    AcyclicWithin(HeldGraph(kept), HeldGraph(ss));
  }

  // ----- every call keeps the manager well managed

  lemma SameManaged(m: Mgr, r: Mgr, wake: seq<ServiceConfig>, env: Env, now: Instant)
    requires WellManaged(m) && Reaches(m, r, wake, env, now) && SameConfigs(m.services, r.services)
    ensures WellManaged(r)
  {
    ReachesKeepsInv(m, r, wake, env, now);
    SameConfigsKeep(m.services, r.services);
  }

  lemma TickKeepsManaged(m: Mgr, env: Env, now: Instant)
    requires WellManaged(m)
    ensures WellManaged(ManagerSpec.Tick(m, env, now))
  {
    var ticked := TickServices(m, 0, env, now);
    TickServicesReaches(m, 0, [], env, now);
    SameManaged(m, ticked, [], env, now);
    FollowUpsReaches(ticked, 0, [], env, now);
    var followed := FollowUps(ticked, 0, env, now);
    SameManaged(ticked, followed, [], env, now);
    SweepKeepsManaged(followed);
  }

  lemma OpKeepsManaged(m: Mgr, op: Op, env: Env, now: Instant)
    requires WellManaged(m) && OpOk(m, op)
    ensures WellManaged(OpStep(m, op, env, now))
  {
    match op
    case ReloadWith(configs) => ApplyRefines(m, configs, env, now);
    case Clock => TickKeepsManaged(m, env, now);
    case _ =>
      OpReaches(m, op, env, now);
      SameManaged(m, OpStep(m, op, env, now), [], env, now);
  }

  // ----- runs

  datatype Call = Call(op: Op, now: Instant)

  ghost predicate RunOk(m: Mgr, calls: seq<Call>, env: Env)
    requires AllOk(m.services)
    decreases |calls|
  {
    calls == [] ||
    (OpOk(m, calls[0].op) && RunOk(OpStep(m, calls[0].op, env, calls[0].now), calls[1..], env))
  }

  ghost function Run(m: Mgr, calls: seq<Call>, env: Env): (r: Mgr)
    requires AllOk(m.services)
    ensures AllOk(r.services)
    decreases |calls|
  {
    if calls == [] then m else Run(OpStep(m, calls[0].op, env, calls[0].now), calls[1..], env)
  }

  lemma {:induction false} RunJoins(m: Mgr, a: seq<Call>, b: seq<Call>, env: Env)
    requires AllOk(m.services)
    ensures Run(m, a + b, env) == Run(Run(m, a, env), b, env)
    ensures RunOk(m, a + b, env) <==> RunOk(m, a, env) && RunOk(Run(m, a, env), b, env)
    decreases |a|
  {
    hide OpStep, OpOk;
    if a == [] {
      assert a + b == b;
    } else {
      assert (a + b)[0] == a[0] && (a + b)[1..] == a[1..] + b;
      RunJoins(OpStep(m, a[0].op, env, a[0].now), a[1..], b, env);
    }
  }

  lemma RunSnoc(m: Mgr, calls: seq<Call>, last: Call, env: Env)
    requires AllOk(m.services)
    ensures Run(m, calls + [last], env) == OpStep(Run(m, calls, env), last.op, env, last.now)
    ensures RunOk(m, calls + [last], env) <==> RunOk(m, calls, env) && OpOk(Run(m, calls, env), last.op)
  {
    hide OpStep, OpOk;
    RunJoins(m, calls, [last], env);
    assert [last][1..] == [];
  }

  lemma RunNone(m: Mgr, env: Env)
    requires AllOk(m.services)
    ensures Run(m, [], env) == m && RunOk(m, [], env)
  {}

  lemma {:induction false} RunKeepsManaged(m: Mgr, calls: seq<Call>, env: Env)
    requires WellManaged(m) && RunOk(m, calls, env)
    ensures WellManaged(Run(m, calls, env))
    decreases |calls|
  {
    if calls != [] {
      OpKeepsManaged(m, calls[0].op, env, calls[0].now);
      RunKeepsManaged(OpStep(m, calls[0].op, env, calls[0].now), calls[1..], env);
    }
  }

  lemma LoadIsClosed(configs: seq<ServiceConfig>)
    requires DependenciesListed(configs)
    ensures ActiveClosed(NewServices(configs))
  {
    var ss := NewServices(configs);
    forall i, d | 0 <= i < |ss| && d in ss[i].config.dependsOn
      ensures var k := FindIndex(ss, d); k < |ss| && !ss[k].removing
    {
      assert d in configs[i].dependsOn;
      var c :| 0 <= c < |configs| && configs[c].name == d;
      assert ss[c].config.name == d;
    }
  }

  /** A manager that has just loaded a valid configuration is well managed. */
  lemma LoadIsManaged(configs: seq<ServiceConfig>)
    requires ValidConfigs(configs)
    ensures WellManaged(Load(configs)) && !Load(configs).shuttingDown && Load(configs).log == []
    ensures |Load(configs).services| == |configs|
    ensures forall i :: 0 <= i < |configs| ==>
              var s := Load(configs).services[i];
              s.config == configs[i] && s.state.Stopped? && !s.removing && s.history == NO_HISTORY
  {
    var ss := NewServices(configs);
    LoadIsClosed(configs);
    assert forall i :: 0 <= i < |ss| ==> Held(ss[i]) == {};
    assert HeldGraph(ss) == GraphOf(configs);
  }

  // ----- main results

  /**
   Safety of every run from a valid configuration. Every launch found all its dependencies
   running, and nothing ever happened to a process out of turn: one launch, at most one stop
   request, at most one kill by the clock and that never before the deadline, nothing after the exit.
   */
  lemma EveryRunIsSafe(configs: seq<ServiceConfig>, calls: seq<Call>, env: Env)
    requires ValidConfigs(configs) && RunOk(Load(configs), calls, env)
    ensures var r := Run(Load(configs), calls, env);
            && LaunchesSafe(r.log)
            && NothingBroken(r.log)
            && (forall s :: s in r.services ==> SvcInv(s))
            && DroppedQuiet(r.services)
  {
    LoadIsManaged(configs);
    RunKeepsManaged(Load(configs), calls, env);
  }

  /** The dependencies among everything held stay acyclic over any reloads. */
  lemma EveryRunStaysAcyclic(configs: seq<ServiceConfig>, calls: seq<Call>, env: Env)
    requires ValidConfigs(configs) && RunOk(Load(configs), calls, env)
    ensures Acyclic(HeldGraph(Run(Load(configs), calls, env).services))
  {
    LoadIsManaged(configs);
    RunKeepsManaged(Load(configs), calls, env);
  }

  /** A live process belongs to exactly one service, and a service never has two. */
  ghost predicate OneProcessEach(m: Mgr) {
    forall a: nat, b: nat :: Lives(PhaseOf(m.log, a)) && Lives(PhaseOf(m.log, b)) ==>
      && LaunchedAs(m.log, a) && LaunchedAs(m.log, b)
      && (exists i :: HoldsProcess(m, i, a))
      && (m.log[a].name == m.log[b].name ==> a == b)
  }

  predicate LaunchedAs(log: Log, id: nat) {
    id < |log| && log[id].Launched?
  }

  predicate HoldsProcess(m: Mgr, i: int, id: nat) {
    && 0 <= i < |m.services| && m.services[i].child.Some? && m.services[i].child.value.id == id
    && LaunchedAs(m.log, id) && m.log[id].name == m.services[i].config.name
  }

  lemma LiveIsHeld(m: Mgr, id: nat) returns (i: nat)
    requires Inv(m) && Lives(PhaseOf(m.log, id))
    ensures HoldsProcess(m, i, id)
  {
    i :| 0 <= i < |m.services| && id in Held(m.services[i]);
    assert Agrees(m.services[i], m.log);
  }

  lemma InvOneProcess(m: Mgr)
    requires Inv(m)
    ensures OneProcessEach(m)
  {
    forall a: nat, b: nat | Lives(PhaseOf(m.log, a)) && Lives(PhaseOf(m.log, b))
      ensures LaunchedAs(m.log, a) && LaunchedAs(m.log, b)
      ensures exists i :: HoldsProcess(m, i, a)
      ensures m.log[a].name == m.log[b].name ==> a == b
    {
      var i := LiveIsHeld(m, a);
      var j := LiveIsHeld(m, b);
    }
  }

  lemma EveryRunKeepsOneProcessEach(configs: seq<ServiceConfig>, calls: seq<Call>, env: Env)
    requires ValidConfigs(configs) && RunOk(Load(configs), calls, env)
    ensures OneProcessEach(Run(Load(configs), calls, env))
  {
    LoadIsManaged(configs);
    RunKeepsManaged(Load(configs), calls, env);
    InvOneProcess(Run(Load(configs), calls, env));
  }

  /** Once the manager shuts down, no call launches anything. */
  lemma {:induction false} ShutdownLaunchesNothing(m: Mgr, calls: seq<Call>, env: Env)
    requires WellManaged(m) && m.shuttingDown && RunOk(m, calls, env)
    ensures var r := Run(m, calls, env);
            r.shuttingDown && m.log <= r.log && LaunchesNothing(m.log, r.log)
    decreases |calls|
  {
    if calls != [] {
      var next := OpStep(m, calls[0].op, env, calls[0].now);
      OpReaches(m, calls[0].op, env, calls[0].now);
      ReachesLaunchesNothing(m, next, Wakes(calls[0].op), env, calls[0].now);
      OpKeepsManaged(m, calls[0].op, env, calls[0].now);
      ShutdownLaunchesNothing(next, calls[1..], env);
      var r := Run(m, calls, env);
      forall k | |m.log| <= k < |r.log|
        ensures !r.log[k].Launched?
      {
        if k < |next.log| {
          assert r.log[k] == next.log[k];
        }
      }
    }
  }

  ghost predicate NeverListed(calls: seq<Call>, name: string) {
    forall k :: 0 <= k < |calls| ==> !Listed(Wakes(calls[k].op), name)
  }

  /** A dropped service is not launched again until a reload lists it. */
  lemma {:induction false} DroppedStaysDown(m: Mgr, calls: seq<Call>, env: Env, name: string)
    requires WellManaged(m) && RunOk(m, calls, env)
    requires Dropped(m.services, name) && NeverListed(calls, name)
    ensures var r := Run(m, calls, env);
            Dropped(r.services, name) && m.log <= r.log && LaunchesNone(m.log, r.log, name)
    decreases |calls|
  {
    if calls != [] {
      var next := OpStep(m, calls[0].op, env, calls[0].now);
      OpReaches(m, calls[0].op, env, calls[0].now);
      ReachesOnDropped(m, next, name, Wakes(calls[0].op), env, calls[0].now);
      OpKeepsManaged(m, calls[0].op, env, calls[0].now);
      DroppedStaysDown(next, calls[1..], env, name);
      var r := Run(m, calls, env);
      forall k | |m.log| <= k < |r.log| && r.log[k].Launched?
        ensures r.log[k].name != name
      {
        if k < |next.log| {
          assert r.log[k] == next.log[k];
        }
      }
    }
  }

  // ----- leaving through Tick

  lemma {:induction false} RemovedExactly(ss: seq<Svc>, name: string)
    requires UniqueNames(ss)
    ensures name in RemovedNames(ss) <==> HasFinished(ss, name)
    ensures multiset(RemovedNames(ss))[name] <= 1
    decreases |ss|
  {
    if ss != [] {
      var rest, last := ss[..|ss| - 1], ss[|ss| - 1];
      RemovedExactly(rest, name);
      if Finished(last) {
        assert RemovedNames(ss) == RemovedNames(rest) + [last.config.name];
        if last.config.name == name {
          assert ss[|ss| - 1].config.name == name;
          assert multiset(RemovedNames(ss)) == multiset(RemovedNames(rest)) + multiset{name};
        }
      }
      if HasFinished(ss, name) {
        var i :| 0 <= i < |ss| && ss[i].config.name == name && Finished(ss[i]);
        if i < |rest| {
          assert rest[i] == ss[i];
        }
      }
    }
  }

  /** The services after both loops of a tick, before the finished ones are swept out. */
  function BeforeSweep(m: Mgr, env: Env, now: Instant): (f: Mgr)
    requires AllOk(m.services)
    ensures AllOk(f.services) && f.removed == m.removed
  {
    FollowUps(TickServices(m, 0, env, now), 0, env, now)
  }

  lemma BeforeSweepManaged(m: Mgr, env: Env, now: Instant)
    requires WellManaged(m)
    ensures WellManaged(BeforeSweep(m, env, now)) && SameConfigs(m.services, BeforeSweep(m, env, now).services)
  {
    var ticked := TickServices(m, 0, env, now);
    TickServicesReaches(m, 0, [], env, now);
    SameManaged(m, ticked, [], env, now);
    FollowUpsReaches(ticked, 0, [], env, now);
    var f := FollowUps(ticked, 0, env, now);
    SameManaged(ticked, f, [], env, now);
    SameConfigsTrans(m.services, ticked.services, f.services);
  }

  predicate HasFinished(ss: seq<Svc>, name: string) {
    exists i :: 0 <= i < |ss| && ss[i].config.name == name && Finished(ss[i])
  }

  /**
   A dropped service that has stopped leaves at the next tick, once: its name is reported exactly
   once and no service of that name is left; every other service stays.
   */
  lemma DroppedLeavesOnce(m: Mgr, env: Env, now: Instant, name: string)
    requires WellManaged(m)
    ensures var gone := HasFinished(BeforeSweep(m, env, now).services, name);
            var r := ManagerSpec.Tick(m, env, now);
            && m.removed <= r.removed
            && multiset(r.removed[|m.removed|..])[name] == (if gone then 1 else 0)
            && (name in Names(r.services) <==> name in Names(m.services) && !gone)
            && (forall s :: s in r.services ==> !Finished(s))
  {
    var f := BeforeSweep(m, env, now);
    BeforeSweepManaged(m, env, now);
    var r := ManagerSpec.Tick(m, env, now);
    assert r == Sweep(f);
    assert r.removed[|m.removed|..] == RemovedNames(f.services);
    RemovedExactly(f.services, name);
    NamesSame(m.services, f.services);
    NamesKept(f.services, name);
  }

  /** One call: the name is reported exactly when its service leaves. */
  lemma OpReportsOnce(m: Mgr, op: Op, env: Env, now: Instant, name: string)
    requires WellManaged(m) && OpOk(m, op) && !Listed(Wakes(op), name)
    ensures var r := OpStep(m, op, env, now);
            && m.removed <= r.removed && (name in Names(r.services) ==> name in Names(m.services))
            && multiset(r.removed[|m.removed|..])[name] ==
               if name in Names(m.services) && name !in Names(r.services) then 1 else 0
  {
    hide ActiveClosed, Processes, LaunchesSafe, DroppedQuiet, UniqueNames, ManagerSpec.Tick, Apply;
    var r := OpStep(m, op, env, now);
    if op.Clock? {
      DroppedLeavesOnce(m, env, now, name);
    } else {
      if op.ReloadWith? {
        ReloadKeepsOtherNames(m, op.configs, env, now, name);
      } else {
        NamesSame(m.services, r.services);
      }
      assert r.removed[|m.removed|..] == [];
    }
  }

  lemma CountJoins(a: seq<string>, b: seq<string>, c: seq<string>, name: string)
    requires a <= b && b <= c
    ensures multiset(c[|a|..])[name] == multiset(b[|a|..])[name] + multiset(c[|b|..])[name]
  {
    assert c[|a|..] == b[|a|..] + c[|b|..];
  }

  /**
   Over any run that never lists a name, its service is reported as removed exactly once if it has
   left, and not at all as long as it is there or if it never was.
   */
  lemma {:induction false} DroppedReportedOnce(m: Mgr, calls: seq<Call>, env: Env, name: string)
    requires WellManaged(m) && RunOk(m, calls, env) && NeverListed(calls, name)
    ensures var r := Run(m, calls, env);
            && m.removed <= r.removed && (name in Names(r.services) ==> name in Names(m.services))
            && multiset(r.removed[|m.removed|..])[name] ==
               if name in Names(m.services) && name !in Names(r.services) then 1 else 0
    decreases |calls|
  {
    hide OpStep, Names, OpOk, ActiveClosed, Processes, LaunchesSafe, DroppedQuiet, UniqueNames;
    var r := Run(m, calls, env);
    if calls == [] {
      assert r.removed[|m.removed|..] == [];
    } else {
      var next := OpStep(m, calls[0].op, env, calls[0].now);
      OpReportsOnce(m, calls[0].op, env, calls[0].now, name);
      OpKeepsManaged(m, calls[0].op, env, calls[0].now);
      DroppedReportedOnce(next, calls[1..], env, name);
      CountJoins(m.removed, next.removed, r.removed, name);
    }
  }

  lemma NamesSame(ss: seq<Svc>, tt: seq<Svc>)
    requires SameConfigs(ss, tt)
    ensures Names(ss) == Names(tt)
  {
    forall i | 0 <= i < |ss|
      ensures ss[i].config.name == tt[i].config.name
    {
      assert SameSettings(ss[i], tt[i]);
    }
  }

  lemma NamesKept(ss: seq<Svc>, name: string)
    requires UniqueNames(ss)
    ensures name in Names(Kept(ss)) <==> name in Names(ss) && !HasFinished(ss, name)
  {
    var kept := Kept(ss);
    var at := KeptFrom(ss);
    if name in Names(kept) {
      var a :| 0 <= a < |kept| && kept[a].config.name == name;
      assert kept[a] in kept;
      assert ss[at[a]].config.name == name && !Finished(ss[at[a]]);
    }
    if name in Names(ss) && !HasFinished(ss, name) {
      var i :| 0 <= i < |ss| && ss[i].config.name == name;
      assert ss[i] in kept;
      var a :| 0 <= a < |kept| && kept[a] == ss[i];
    }
  }
}
