/**
 Shutting down stops dependents before what they depend on, and never stalls: as long as some
 service is live, some service is on its way down.
 */
module ShutdownOrder {
  import opened Launching
  import opened ServiceSpec
  import opened ManagerSpec
  import opened Graphs
  import opened Runs
  import opened Reload
  import opened Supervision

  predicate AnyAlive(ss: seq<Svc>) {
    exists i :: 0 <= i < |ss| && IsAlive(ss[i].state)
  }

  predicate AnyStopping(ss: seq<Svc>) {
    exists i :: 0 <= i < |ss| && ss[i].state.Stopping?
  }

  /** Some service being live means some service is stopping. */
  predicate NoStall(ss: seq<Svc>) {
    AnyAlive(ss) ==> AnyStopping(ss)
  }

  /** Same settings, and the same services are live. */
  predicate SameLife(ss: seq<Svc>, tt: seq<Svc>) {
    SameConfigs(ss, tt) && forall i :: 0 <= i < |ss| ==> IsAlive(ss[i].state) == IsAlive(tt[i].state)
  }

  lemma DependentsSame(ss: seq<Svc>, tt: seq<Svc>, name: string)
    requires SameLife(ss, tt)
    ensures DependentsStopped(ss, name) == DependentsStopped(tt, name)
  {
    assert forall i :: 0 <= i < |ss| ==> SameSettings(ss[i], tt[i]);
  }

  /** What the shutdown loop leaves of service j. */
  function StoppedIfFree(m: Mgr, j: nat, env: Env, now: Instant): Svc
    requires AllOk(m.services) && j < |m.services|
  {
    assert SvcInv(m.services[j]);
    if Stoppable(m, j) then ServiceSpec.Stop(m.services[j], m.log, CtxFor(m, j, env, now)).svc else m.services[j]
  }

  /** A stop leaves the same service whatever the log holds. */
  lemma StopSame(s: Svc, log: Log, ctx: Ctx, log2: Log, ctx2: Ctx)
    requires SvcInv(s) && ctx.now == ctx2.now
    ensures ServiceSpec.Stop(s, log, ctx).svc == ServiceSpec.Stop(s, log2, ctx2).svc
  {}

  lemma StopOnce(m: Mgr, i: nat, env: Env, now: Instant)
    requires AllOk(m.services) && i < |m.services| && Stoppable(m, i)
    ensures var r := Act(m, i, StopOp, env, now).mgr;
            r.services == m.services[i := ServiceSpec.Stop(m.services[i], m.log, CtxFor(m, i, env, now)).svc] &&
            SameLife(m.services, r.services)
  {}

  lemma FreeLater(m: Mgr, next: Mgr, j: nat, env: Env, now: Instant)
    requires AllOk(m.services) && AllOk(next.services) && SameLife(m.services, next.services)
    requires j < |m.services| && next.services[j] == m.services[j]
    ensures StoppedIfFree(next, j, env, now) == StoppedIfFree(m, j, env, now)
  {
    hide ServiceSpec.Stop;
    DependentsSame(m.services, next.services, m.services[j].config.name);
    StopSame(m.services[j], m.log, CtxFor(m, j, env, now), next.log, CtxFor(next, j, env, now));
  }

  lemma NextStopped(m: Mgr, i: nat, env: Env, now: Instant)
    requires AllOk(m.services) && i < |m.services|
    ensures var next := StopNext(m, i, env, now);
            SameLife(m.services, next.services) && next.services == m.services[i := StoppedIfFree(m, i, env, now)]
  {
    hide ServiceSpec.Stop;
    if Stoppable(m, i) {
      StopOnce(m, i, env, now);
    }
  }

  /** The loop decides about every service by what was live before it began. */
  lemma {:induction false} StopFromAt(m: Mgr, i: nat, env: Env, now: Instant, j: nat)
    requires AllOk(m.services) && i <= |m.services| && j < |m.services|
    ensures StopFrom(m, i, env, now).services[j] == if j < i then m.services[j] else StoppedIfFree(m, j, env, now)
    decreases |m.services| - i
  {
    hide StopNext, StoppedIfFree;
    if i < |m.services| {
      var next := StopNext(m, i, env, now);
      NextStopped(m, i, env, now);
      StopFromAt(next, i + 1, env, now, j);
      if j > i {
        FreeLater(m, next, j, env, now);
      }
    }
  }

  /** During a shutdown the second loop of Tick is the loop of StopAll. */
  lemma {:induction false} FollowUpsStop(m: Mgr, i: nat, env: Env, now: Instant)
    requires AllOk(m.services) && i <= |m.services| && m.shuttingDown
    ensures FollowUps(m, i, env, now) == StopFrom(m, i, env, now)
    decreases |m.services| - i
  {
    hide Act;
    if i < |m.services| {
      var next := FollowUpNext(m, i, env, now);
      assert next == StopNext(m, i, env, now);
      FollowUpsStop(next, i + 1, env, now);
    }
  }

  /**
   The order of a shutdown: a live service that is not stopping yet is asked to stop exactly when
   no live service depends on it, and that still holds when the loop is done.
   */
  lemma StopsExactlyTheFree(m: Mgr, env: Env, now: Instant, j: nat)
    requires AllOk(m.services) && j < |m.services|
    requires IsAlive(m.services[j].state) && !m.services[j].state.Stopping?
    ensures var r := StopFrom(m, 0, env, now);
            && SameLife(m.services, r.services)
            && (r.services[j].state.Stopping? <==> DependentsStopped(r.services, m.services[j].config.name))
  {
    StopFromAt(m, 0, env, now, j);
    var r := StopFrom(m, 0, env, now);
    StopFromLife(m, env, now);
    DependentsSame(m.services, r.services, m.services[j].config.name);
  }

  lemma StopFromLife(m: Mgr, env: Env, now: Instant)
    requires AllOk(m.services)
    ensures SameLife(m.services, StopFrom(m, 0, env, now).services)
  {
    forall j | 0 <= j < |m.services|
      ensures IsAlive(m.services[j].state) == IsAlive(StopFrom(m, 0, env, now).services[j].state)
    {
      StopFromAt(m, 0, env, now, j);
    }
  }

  /** Among live services of an acyclic graph, one has no live dependents. */
  lemma FreeOne(ss: seq<Svc>) returns (j: nat)
    requires Acyclic(HeldGraph(ss)) && AnyAlive(ss)
    ensures j < |ss| && IsAlive(ss[j].state) && DependentsStopped(ss, ss[j].config.name)
  {
    var rank := AcyclicHasRank(HeldGraph(ss));
    forall i | 0 <= i < |ss|
      ensures ss[i].config.name in rank
    {
      assert HeldGraph(ss)[i].name == ss[i].config.name;
    }
    j := Highest(ss, rank, |ss|);
    forall i | 0 <= i < |ss| && ss[j].config.name in ss[i].config.dependsOn
      ensures !IsAlive(ss[i].state)
    {
      HeldEdgeIs(ss, i, j);
    }
  }

  /** The live service of greatest rank among the first n. */
  lemma {:induction false} Highest(ss: seq<Svc>, rank: map<string, nat>, n: nat) returns (j: nat)
    requires n <= |ss| && forall i :: 0 <= i < |ss| ==> ss[i].config.name in rank
    requires exists i :: 0 <= i < n && IsAlive(ss[i].state)
    ensures j < n && IsAlive(ss[j].state)
    ensures forall i :: 0 <= i < n && IsAlive(ss[i].state) ==>
              rank[ss[i].config.name] <= rank[ss[j].config.name]
    decreases n
  {
    if exists i :: 0 <= i < n - 1 && IsAlive(ss[i].state) {
      j := Highest(ss, rank, n - 1);
      if IsAlive(ss[n - 1].state) && rank[ss[j].config.name] < rank[ss[n - 1].config.name] {
        j := n - 1;
      }
    } else {
      j := n - 1;
    }
  }

  lemma StoppingAfter(m: Mgr, j: nat, env: Env, now: Instant)
    requires AllOk(m.services) && j < |m.services|
    requires IsAlive(m.services[j].state) && DependentsStopped(m.services, m.services[j].config.name)
    ensures StoppedIfFree(m, j, env, now).state.Stopping?
  {}

  lemma StopFromNeverStalls(m: Mgr, env: Env, now: Instant)
    requires AllOk(m.services) && Acyclic(HeldGraph(m.services))
    ensures NoStall(StopFrom(m, 0, env, now).services)
  {
    var r := StopFrom(m, 0, env, now);
    StopFromLife(m, env, now);
    if AnyAlive(r.services) {
      var i :| 0 <= i < |r.services| && IsAlive(r.services[i].state);
      assert IsAlive(m.services[i].state);
      var j := FreeOne(m.services);
      StopFromAt(m, 0, env, now, j);
      StoppingAfter(m, j, env, now);
      assert r.services[j].state.Stopping?;
    }
  }

  lemma SweepKeepsNoStall(ss: seq<Svc>)
    requires NoStall(ss)
    ensures NoStall(Kept(ss)) && (AnyAlive(Kept(ss)) <==> AnyAlive(ss))
  {
    var kept := Kept(ss);
    if AnyAlive(kept) {
      var a :| 0 <= a < |kept| && IsAlive(kept[a].state);
      assert kept[a] in ss;
    }
    forall i | 0 <= i < |ss| && IsAlive(ss[i].state)
      ensures exists a :: 0 <= a < |kept| && kept[a] == ss[i]
    {
      assert ss[i] in kept;
    }
    if AnyAlive(ss) {
      var i :| 0 <= i < |ss| && ss[i].state.Stopping?;
      var a :| 0 <= a < |kept| && kept[a] == ss[i];
    }
  }

  /** After StopAll, and after every later tick, a live service means a stopping one. */
  lemma StopAllNeverStalls(m: Mgr, env: Env, now: Instant)
    requires WellManaged(m)
    ensures NoStall(StopAll(m, env, now).services)
  {
    StopFromNeverStalls(m.(shuttingDown := true), env, now);
  }

  lemma TickNeverStalls(m: Mgr, env: Env, now: Instant)
    requires WellManaged(m) && m.shuttingDown
    ensures NoStall(ManagerSpec.Tick(m, env, now).services)
  {
    var ticked := TickServices(m, 0, env, now);
    TickServicesReaches(m, 0, [], env, now);
    SameManaged(m, ticked, [], env, now);
    FollowUpsStop(ticked, 0, env, now);
    StopFromNeverStalls(ticked, env, now);
    SweepKeepsNoStall(FollowUps(ticked, 0, env, now).services);
  }
}
