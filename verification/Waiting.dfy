/** Services that wait for their dependencies cannot wait for each other forever. */
module WaitingProgress {
  import opened ServiceConfigs
  import opened Launching
  import opened ServiceSpec
  import opened ManagerSpec
  import opened Graphs
  import opened Runs
  import opened Supervision

  function CountWaiting(ss: seq<Svc>): nat {
    if ss == [] then 0
    else CountWaiting(ss[..|ss| - 1]) + if ss[|ss| - 1].state.Waiting? then 1 else 0
  }

  /** A state that changes only through a command or because the process exits. */
  predicate Final(state: ServiceState) {
    state.Running? || state.Stopped? || state.Failed?
  }

  /** Nothing is on its way up or down. */
  predicate Settled(ss: seq<Svc>) {
    forall i :: 0 <= i < |ss| ==> Final(ss[i].state) || ss[i].state.Waiting?
  }

  /** Every dependency is missing or in a final state. */
  predicate Decided(ss: seq<Svc>, dependsOn: seq<string>) {
    forall d :: d in dependsOn ==>
      var k := FindIndex(ss, d);
      k < |ss| ==> Final(ss[k].state)
  }

  lemma DecidedActs(ss: seq<Svc>, dependsOn: seq<string>)
    requires Decided(ss, dependsOn)
    ensures DependenciesRunning(ss, dependsOn) || DependencyBlocked(ss, dependsOn)
  {
    if !DependenciesRunning(ss, dependsOn) {
      var j :| 0 <= j < |dependsOn| && !(var k := FindIndex(ss, dependsOn[j]); k < |ss| && ss[k].state.Running?);
      assert dependsOn[j] in dependsOn;
    }
  }

  /** Outside a shutdown the second loop of Tick touches a waiting service only, and none it touches waits on. */
  lemma FollowUpActs(m: Mgr, i: nat, env: Env, now: Instant)
    requires AllOk(m.services) && i < |m.services| && !m.shuttingDown
    ensures var r := FollowUpNext(m, i, env, now).services;
            if FollowUp(m, i).Some? then m.services[i].state.Waiting? && !r[i].state.Waiting?
            else r == m.services
  {
    var s := m.services[i];
    if s.state.Waiting? && DependenciesRunning(m.services, s.config.dependsOn) {
      assert Start(s, m.log, CtxFor(m, i, env, now)) == Launch(s, m.log, CtxFor(m, i, env, now));
    }
  }

  lemma DecidedLater(ss: seq<Svc>, tt: seq<Svc>, dependsOn: seq<string>)
    requires SameConfigs(ss, tt) && Decided(ss, dependsOn)
    requires forall j :: 0 <= j < |ss| && !ss[j].state.Waiting? ==> tt[j] == ss[j]
    ensures Decided(tt, dependsOn)
  {
    forall d | d in dependsOn
      ensures var k := FindIndex(tt, d); k < |tt| ==> Final(tt[k].state)
    {
      FindSame(ss, tt, d);
    }
  }

  /** What the second loop does to service p. */
  lemma {:induction false} FollowUpsAt(m: Mgr, i: nat, p: nat, env: Env, now: Instant)
    requires AllOk(m.services) && i <= |m.services| && p < |m.services| && !m.shuttingDown
    ensures var r := FollowUps(m, i, env, now).services;
            && (r[p].state.Waiting? ==> m.services[p].state.Waiting?)
            && (i <= p && Decided(m.services, m.services[p].config.dependsOn) ==> !r[p].state.Waiting?)
    decreases |m.services| - i
  {
    hide FollowUpNext, Decided;
    if i < |m.services| {
      var next := FollowUpNext(m, i, env, now);
      FollowUpActs(m, i, env, now);
      OthersStay(m, i, env, now);
      if Decided(m.services, m.services[p].config.dependsOn) {
        DecidedLater(m.services, next.services, m.services[p].config.dependsOn);
        if i == p {
          DecidedActs(m.services, m.services[p].config.dependsOn);
        }
        assert SameSettings(m.services[p], next.services[p]);
      }
      FollowUpsAt(next, i + 1, p, env, now);
    }
  }

  lemma OthersStay(m: Mgr, i: nat, env: Env, now: Instant)
    requires AllOk(m.services) && i < |m.services|
    ensures forall j :: 0 <= j < |m.services| && j != i ==>
              FollowUpNext(m, i, env, now).services[j] == m.services[j]
  {}

  /** A waiting service none of whose dependencies waits. */
  lemma FirstWaiting(ss: seq<Svc>) returns (p: nat)
    requires Acyclic(HeldGraph(ss)) && Settled(ss)
    requires exists i :: 0 <= i < |ss| && ss[i].state.Waiting?
    ensures p < |ss| && ss[p].state.Waiting? && Decided(ss, ss[p].config.dependsOn)
  {
    var waiting := set i | 0 <= i < |ss| && ss[i].state.Waiting? :: ss[i].config.name;
    var i :| 0 <= i < |ss| && ss[i].state.Waiting?;
    assert ss[i].config.name in waiting;
    var u := Sink(HeldGraph(ss), waiting);
    p :| 0 <= p < |ss| && ss[p].state.Waiting? && ss[p].config.name == u;
    forall d | d in ss[p].config.dependsOn
      ensures var k := FindIndex(ss, d); k < |ss| ==> Final(ss[k].state)
    {
      var k := FindIndex(ss, d);
      if k < |ss| && ss[k].state.Waiting? {
        assert HeldGraph(ss)[p].name == u && HeldGraph(ss)[k].name == d;
        assert d in waiting && Edge(HeldGraph(ss), u, d);
      }
    }
  }

  lemma {:induction false} FewerWait(ss: seq<Svc>, tt: seq<Svc>)
    requires |ss| == |tt| && forall j :: 0 <= j < |ss| && tt[j].state.Waiting? ==> ss[j].state.Waiting?
    ensures CountWaiting(tt) <= CountWaiting(ss)
    ensures (exists p :: 0 <= p < |ss| && ss[p].state.Waiting? && !tt[p].state.Waiting?) ==>
              CountWaiting(tt) < CountWaiting(ss)
    decreases |ss|
  {
    if ss != [] {
      FewerWait(ss[..|ss| - 1], tt[..|tt| - 1]);
    }
  }

  lemma {:induction false} KeptWait(ss: seq<Svc>)
    ensures CountWaiting(Kept(ss)) <= CountWaiting(ss)
    decreases |ss|
  {
    if ss != [] {
      KeptWait(ss[..|ss| - 1]);
    }
  }

  /**
   Progress: while the manager is not shutting down and its dependencies have no cycle, if
   services wait and nothing is on its way up or down once the first loop of a tick is done,
   the tick leaves strictly fewer of them waiting.
   */
  lemma WaitingCannotDeadlock(m: Mgr, env: Env, now: Instant)
    requires AllOk(m.services) && !m.shuttingDown
    requires var ticked := TickServices(m, 0, env, now).services;
             && Settled(ticked) && Acyclic(HeldGraph(ticked))
             && exists i :: 0 <= i < |ticked| && ticked[i].state.Waiting?
    ensures CountWaiting(ManagerSpec.Tick(m, env, now).services) <
            CountWaiting(TickServices(m, 0, env, now).services)
  {
    var ticked := TickServices(m, 0, env, now);
    var r := FollowUps(ticked, 0, env, now);
    var p := FirstWaiting(ticked.services);
    forall j | 0 <= j < |ticked.services|
      ensures r.services[j].state.Waiting? ==> ticked.services[j].state.Waiting?
    {
      FollowUpsAt(ticked, 0, j, env, now);
    }
    FollowUpsAt(ticked, 0, p, env, now);
    FewerWait(ticked.services, r.services);
    KeptWait(r.services);
  }

  /** The same in every run from a valid configuration, where the dependencies have no cycle. */
  lemma EveryRunLetsWaitersProceed(configs: seq<ServiceConfig>, calls: seq<Call>, env: Env, now: Instant)
    requires ValidConfigs(configs) && RunOk(Load(configs), calls, env)
    requires var m := Run(Load(configs), calls, env);
             var ticked := TickServices(m, 0, env, now).services;
             && !m.shuttingDown && Settled(ticked)
             && exists i :: 0 <= i < |ticked| && ticked[i].state.Waiting?
    ensures var m := Run(Load(configs), calls, env);
            CountWaiting(ManagerSpec.Tick(m, env, now).services) <
            CountWaiting(TickServices(m, 0, env, now).services)
  {
    hide ManagerSpec.Tick, CountWaiting, Settled, RunOk, Run, ValidConfigs;
    var m := Run(Load(configs), calls, env);
    LoadIsManaged(configs);
    RunKeepsManaged(Load(configs), calls, env);
    SameConfigsKeep(m.services, TickServices(m, 0, env, now).services);
    WaitingCannotDeadlock(m, env, now);
  }
}
