/** Starting services and reloading the configuration leave running processes alone. */
module Undisturbed {
  import opened ServiceConfigs
  import opened Launching
  import opened ServiceSpec
  import opened ManagerSpec
  import opened Reload

  /** A service with a live process has the same process in the same state. */
  predicate Untouched(s: Svc, t: Svc) {
    IsAlive(s.state) ==> t.state == s.state && t.child == s.child
  }

  /** No live service was touched; new ones may have been added at the end. */
  predicate Calm(ss: seq<Svc>, tt: seq<Svc>) {
    |ss| <= |tt| && forall i :: 0 <= i < |ss| ==> Untouched(ss[i], tt[i])
  }

  lemma CalmTrans(ss: seq<Svc>, tt: seq<Svc>, uu: seq<Svc>)
    requires Calm(ss, tt) && Calm(tt, uu)
    ensures Calm(ss, uu)
  {
    forall i | 0 <= i < |ss|
      ensures Untouched(ss[i], uu[i])
    {
      assert Untouched(ss[i], tt[i]) && Untouched(tt[i], uu[i]);
    }
  }

  /** A start, new settings and the end of a removal leave a process alone. */
  predicate IsCalm(op: SvcOp) {
    op.StartOp? || op.ReplaceOp? || op.ReaddOp?
  }

  lemma ActCalm(m: Mgr, i: nat, op: SvcOp, env: Env, now: Instant)
    requires AllOk(m.services) && i < |m.services| && IsCalm(op)
    ensures Calm(m.services, Act(m, i, op, env, now).mgr.services)
  {
    hide Launch, Relaunch;
    var r := Act(m, i, op, env, now).mgr.services;
    assert Untouched(m.services[i], r[i]);
  }

  // ----- starting

  lemma {:induction false} VisitCalm(t: Traversal, name: string, env: Env, now: Instant)
    requires AllOk(t.mgr.services)
    ensures Calm(t.mgr.services, VisitDependency(t, name, env, now).mgr.services)
    decreases Unvisited(t.mgr.services, t.visiting), 0, 0
  {
    hide Act, Calm;
    var k := FindIndex(t.mgr.services, name);
    if k == |t.mgr.services| || name in t.visiting {
      CalmSelf(t.mgr.services);
    } else {
      var entered := t.(visiting := t.visiting + [name]);
      UnvisitedShrinks(t.mgr.services, t.mgr.services, name, t.visiting, entered.visiting);
      var dependsOn := t.mgr.services[k].config.dependsOn;
      StartCalm(entered, dependsOn, env, now);
      var inner := StartDependencies(entered, dependsOn, env, now);
      ActCalm(inner.mgr, k, StartOp, env, now);
      CalmTrans(t.mgr.services, inner.mgr.services, StartDependency(inner, k, env, now).mgr.services);
    }
  }

  lemma CalmSelf(ss: seq<Svc>)
    ensures Calm(ss, ss)
  {}

  lemma {:induction false} StartCalm(t: Traversal, dependsOn: seq<string>, env: Env, now: Instant)
    requires AllOk(t.mgr.services)
    ensures Calm(t.mgr.services, StartDependencies(t, dependsOn, env, now).mgr.services)
    decreases Unvisited(t.mgr.services, t.visiting), |dependsOn|, 1
  {
    hide Calm, VisitDependency;
    if dependsOn == [] {
      CalmSelf(t.mgr.services);
    } else {
      VisitCalm(t, dependsOn[0], env, now);
      var v := VisitDependency(t, dependsOn[0], env, now);
      StartCalm(v, dependsOn[1..], env, now);
      CalmTrans(t.mgr.services, v.mgr.services, StartDependencies(v, dependsOn[1..], env, now).mgr.services);
    }
  }

  /** Starting a service with everything it needs touches no process that runs. */
  lemma StartTouchesNothingLive(m: Mgr, i: nat, started: seq<string>, env: Env, now: Instant)
    requires AllOk(m.services) && i < |m.services|
    ensures Calm(m.services, StartWithDependencies(m, i, false, started, env, now).mgr.services)
  {
    hide Calm, Act, StartDependencies;
    var s := m.services[i].config;
    var entered := Traversal(m, [s.name], started, []);
    StartCalm(entered, s.dependsOn, env, now);
    var t := StartDependencies(entered, s.dependsOn, env, now);
    ActCalm(t.mgr, i, StartOp, env, now);
    CalmTrans(m.services, t.mgr.services, Act(t.mgr, i, StartOp, env, now).mgr.services);
  }

  // ----- reload

  lemma {:induction false} StartAddedCalm(m: Mgr, added: seq<string>, env: Env, now: Instant)
    requires AllOk(m.services)
    ensures Calm(m.services, StartAdded(m, added, env, now).services)
    decreases |added|
  {
    hide Calm, StartWithDependencies;
    CalmSelf(m.services);
    if added != [] {
      var k := FindIndex(m.services, added[0]);
      if k < |m.services| {
        StartTouchesNothingLive(m, k, [], env, now);
      }
      var next := StartIfAutostart(m, added[0], env, now);
      StartAddedCalm(next, added[1..], env, now);
      CalmTrans(m.services, next.services, StartAdded(next, added[1..], env, now).services);
    }
  }

  lemma MergeOneCalm(a: Merge, config: ServiceConfig, env: Env, now: Instant)
    requires AllOk(a.mgr.services)
    ensures Calm(a.mgr.services, MergeOne(a, config, env, now).mgr.services)
  {
    hide Act;
    var m := a.mgr;
    var k := FindIndex(m.services, config.name);
    if k < |m.services| {
      MergedServices(a, config, k, env, now);
    }
  }

  lemma {:induction false} MergeAllCalm(a: Merge, configs: seq<ServiceConfig>, env: Env, now: Instant)
    requires AllOk(a.mgr.services)
    ensures Calm(a.mgr.services, MergeAll(a, configs, env, now).mgr.services)
    decreases |configs|
  {
    hide Calm, MergeOne;
    CalmSelf(a.mgr.services);
    if configs != [] {
      var next := MergeOne(a, configs[0], env, now);
      MergeOneCalm(a, configs[0], env, now);
      MergeAllCalm(next, configs[1..], env, now);
      CalmTrans(a.mgr.services, next.mgr.services, MergeAll(next, configs[1..], env, now).mgr.services);
    }
  }

  /** Only what the new list does not name is stopped. */
  lemma {:induction false} RetireSkipsListed(a: Merge, configs: seq<ServiceConfig>, i: nat, env: Env, now: Instant,
                                             j: nat)
    requires AllOk(a.mgr.services) && i <= |a.mgr.services| && j < |a.mgr.services|
    requires Listed(configs, a.mgr.services[j].config.name)
    ensures RetireFrom(a, configs, i, env, now).mgr.services[j] == a.mgr.services[j]
    decreases |a.mgr.services| - i
  {
    hide Act, Listed;
    if i < |a.mgr.services| {
      RetireSkipsListed(RetireNext(a, configs, i, env, now), configs, i + 1, env, now, j);
    }
  }

  lemma {:induction false} MergeKeepsNames(a: Merge, configs: seq<ServiceConfig>, env: Env, now: Instant, j: nat)
    requires AllOk(a.mgr.services) && j < |a.mgr.services|
    ensures var r := MergeAll(a, configs, env, now).mgr.services;
            j < |r| && r[j].config.name == a.mgr.services[j].config.name
    decreases |configs|
  {
    hide Act;
    if configs != [] {
      var k := FindIndex(a.mgr.services, configs[0].name);
      if k < |a.mgr.services| {
        MergedServices(a, configs[0], k, env, now);
      }
      MergeKeepsNames(MergeOne(a, configs[0], env, now), configs[1..], env, now, j);
    }
  }

  /**
   A reload leaves every process alone whose service stays listed, whatever settings changed: it
   is the same process in the same state.
   */
  lemma ReloadTouchesNothingListed(m: Mgr, configs: seq<ServiceConfig>, env: Env, now: Instant, j: nat)
    requires AllOk(m.services) && j < |m.services|
    requires Listed(configs, m.services[j].config.name) && IsAlive(m.services[j].state)
    ensures var r := Apply(m, configs, env, now).mgr.services;
            && j < |r| && r[j].config.name == m.services[j].config.name
            && r[j].state == m.services[j].state && r[j].child == m.services[j].child
  {
    hide MergeAll, RetireFrom, StartAdded, Listed;
    var a := Merge(m, [], ReloadSummary(0, 0, 0));
    MergeAllCalm(a, configs, env, now);
    MergeKeepsNames(a, configs, env, now, j);
    var b := MergeAll(a, configs, env, now);
    RetireSkipsListed(b, configs, 0, env, now, j);
    var c := RetireFrom(b, configs, 0, env, now);
    StartAddedCalm(c.mgr, b.added, env, now);
    var r := StartAdded(c.mgr, b.added, env, now);
    assert Untouched(m.services[j], b.mgr.services[j]);
    assert Untouched(c.mgr.services[j], r.services[j]) && SameSettings(c.mgr.services[j], r.services[j]);
  }
}
