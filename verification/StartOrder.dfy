/** Starting a service with everything it needs: which services are started, and in which order. */
module StartOrder {
  import opened Launching
  import opened ServiceSpec
  import opened ManagerSpec
  import opened MicroSteps
  import opened Graphs
  import opened Runs

  predicate HeldName(ss: seq<Svc>, name: string) {
    FindIndex(ss, name) < |ss|
  }

  /** What the service of this name depends on. */
  function DepsOf(ss: seq<Svc>, name: string): seq<string> {
    var k := FindIndex(ss, name);
    if k < |ss| then ss[k].config.dependsOn else []
  }

  /** Every listed name the manager holds is in s. */
  predicate Covers(ss: seq<Svc>, s: seq<string>, dependsOn: seq<string>) {
    forall d :: d in dependsOn && HeldName(ss, d) ==> d in s
  }

  /**
   How a traversal grows: it visits exactly the names it starts, each once and none that was
   visited before, and with each of them everything that one depends on.
   */
  ghost predicate Grown(ss: seq<Svc>, before: seq<string>, later: seq<string>, calls: seq<string>) {
    && (forall x :: x in later <==> x in before || x in calls)
    && (forall x :: x in calls ==> x !in before && HeldName(ss, x) && Covers(ss, later, DepsOf(ss, x)))
    && NoRepeats(calls)
  }

  lemma SameView(ss: seq<Svc>, tt: seq<Svc>, name: string)
    requires SameConfigs(ss, tt)
    ensures FindIndex(ss, name) == FindIndex(tt, name) && DepsOf(ss, name) == DepsOf(tt, name)
  {
    FindSame(ss, tt, name);
    if HeldName(ss, name) {
      assert SameSettings(ss[FindIndex(ss, name)], tt[FindIndex(ss, name)]);
    }
  }

  lemma GrownTrans(ss: seq<Svc>, a: seq<string>, b: seq<string>, c: seq<string>, x: seq<string>, y: seq<string>)
    requires Grown(ss, a, b, x) && Grown(ss, b, c, y)
    ensures Grown(ss, a, c, x + y)
  {
    var xy := x + y;
    forall i, j | 0 <= i < j < |xy|
      ensures xy[i] != xy[j]
    {
      if i < |x| <= j {
        assert xy[i] in x && xy[j] in y;
        assert xy[i] in b && xy[j] !in b;
      }
    }
    forall n | n in xy
      ensures n !in a && HeldName(ss, n) && Covers(ss, c, DepsOf(ss, n))
    {
      assert n in x || n in y;
    }
  }

  lemma GrownAround(ss: seq<Svc>, before: seq<string>, name: string, later: seq<string>, calls: seq<string>)
    requires HeldName(ss, name) && name !in before
    requires Grown(ss, before + [name], later, calls) && Covers(ss, later, DepsOf(ss, name))
    ensures Grown(ss, before, later, calls + [name])
  {
    var all := calls + [name];
    assert name in before + [name];
    assert forall x :: x in before + [name] <==> x in before || x == name;
    forall i, j | 0 <= i < j < |all|
      ensures all[i] != all[j]
    {
      if j == |calls| {
        assert all[i] in calls;
      }
    }
  }

  /** The names a traversal started after those it had started before. */
  function NewCalls(t: Traversal, r: Traversal): seq<string>
    requires |t.calls| <= |r.calls|
  {
    r.calls[|t.calls|..]
  }

  /** What a visit leaves, in terms of the dependencies' own traversal. */
  lemma VisitIs(t: Traversal, name: string, env: Env, now: Instant)
    requires AllOk(t.mgr.services) && HeldName(t.mgr.services, name) && name !in t.visiting
    ensures var entered := t.(visiting := t.visiting + [name]);
            var inner := StartDependencies(entered, DepsOf(t.mgr.services, name), env, now);
            var r := VisitDependency(t, name, env, now);
            r.visiting == inner.visiting && r.calls == inner.calls + [name]
    ensures Unvisited(t.mgr.services, t.visiting + [name]) < Unvisited(t.mgr.services, t.visiting)
  {
    hide StartDependency, StartDependencies;
    var k := FindIndex(t.mgr.services, name);
    var entered := t.(visiting := t.visiting + [name]);
    UnvisitedShrinks(t.mgr.services, t.mgr.services, name, t.visiting, entered.visiting);
    var inner := StartDependencies(entered, t.mgr.services[k].config.dependsOn, env, now);
    assert SameSettings(t.mgr.services[k], inner.mgr.services[k]);
  }

  lemma {:induction false} VisitGrows(ss: seq<Svc>, t: Traversal, name: string, env: Env, now: Instant)
    requires AllOk(t.mgr.services) && SameConfigs(ss, t.mgr.services)
    ensures var r := VisitDependency(t, name, env, now);
            && t.calls <= r.calls && Grown(ss, t.visiting, r.visiting, NewCalls(t, r))
            && Covers(ss, r.visiting, [name])
    decreases Unvisited(t.mgr.services, t.visiting), 0, 0
  {
    hide Grown, StartDependencies, Unvisited;
    SameView(ss, t.mgr.services, name);
    assert forall d :: d in [name] ==> d == name;
    if !HeldName(t.mgr.services, name) || name in t.visiting {
      GrownNone(ss, t.visiting);
      assert VisitDependency(t, name, env, now) == t && NewCalls(t, t) == [];
    } else {
      hide VisitDependency, FindIndex;
      var entered := t.(visiting := t.visiting + [name]);
      var dependsOn := DepsOf(t.mgr.services, name);
      VisitIs(t, name, env, now);
      StartGrows(ss, entered, dependsOn, env, now);
      var inner := StartDependencies(entered, dependsOn, env, now);
      GrownAround(ss, t.visiting, name, inner.visiting, NewCalls(entered, inner));
      assert NewCalls(t, VisitDependency(t, name, env, now)) == NewCalls(entered, inner) + [name];
      assert name in entered.visiting;
    }
  }

  lemma GrownNone(ss: seq<Svc>, visiting: seq<string>)
    ensures Grown(ss, visiting, visiting, [])
  {}

  lemma {:induction false} StartGrows(ss: seq<Svc>, t: Traversal, dependsOn: seq<string>, env: Env, now: Instant)
    requires AllOk(t.mgr.services) && SameConfigs(ss, t.mgr.services)
    ensures var r := StartDependencies(t, dependsOn, env, now);
            && t.calls <= r.calls && Grown(ss, t.visiting, r.visiting, NewCalls(t, r))
            && Covers(ss, r.visiting, dependsOn)
    decreases Unvisited(t.mgr.services, t.visiting), |dependsOn|, 1
  {
    hide Grown, VisitDependency, HeldName;
    if dependsOn == [] {
      GrownNone(ss, t.visiting);
      assert StartDependencies(t, dependsOn, env, now) == t && NewCalls(t, t) == [];
    } else {
      VisitGrows(ss, t, dependsOn[0], env, now);
      var v := VisitDependency(t, dependsOn[0], env, now);
      SameConfigsTrans(ss, t.mgr.services, v.mgr.services);
      StartGrows(ss, v, dependsOn[1..], env, now);
      var r := StartDependencies(v, dependsOn[1..], env, now);
      GrownTrans(ss, t.visiting, v.visiting, r.visiting, NewCalls(t, v), NewCalls(v, r));
      assert NewCalls(t, r) == NewCalls(t, v) + NewCalls(v, r);
      CoversMore(ss, v.visiting, r.visiting, dependsOn[0], dependsOn);
    }
  }

  lemma CoversMore(ss: seq<Svc>, a: seq<string>, b: seq<string>, name: string, dependsOn: seq<string>)
    requires a <= b && dependsOn != [] && dependsOn[0] == name
    requires Covers(ss, a, [name]) && Covers(ss, b, dependsOn[1..])
    ensures Covers(ss, b, dependsOn)
  {
    forall d | d in dependsOn && HeldName(ss, d)
      ensures d in b
    {
      if d == name {
        assert d in [name];
        var i :| 0 <= i < |a| && a[i] == d;
        assert b[i] == d;
      } else {
        assert d in dependsOn[1..];
      }
    }
  }

  // ----- what is started

  /** v is u, or u depends on it through any number of services. */
  ghost predicate Leads(g: Graph, u: string, v: string) {
    exists p :: LeadsBy(g, p, u, v)
  }

  ghost predicate LeadsBy(g: Graph, p: seq<string>, u: string, v: string) {
    p != [] && p[0] == u && p[|p| - 1] == v && Walk(g, p)
  }

  lemma LeadsOn(g: Graph, u: string, v: string, w: string)
    requires Leads(g, u, v) && Edge(g, v, w)
    ensures Leads(g, u, w)
  {
    var p :| LeadsBy(g, p, u, v);
    WalkExtends(g, p, w);
    assert LeadsBy(g, p + [w], u, w);
  }

  lemma DependencyEdge(ss: seq<Svc>, k: nat, d: string)
    requires k < |ss| && d in ss[k].config.dependsOn && HeldName(ss, d)
    ensures Edge(HeldGraph(ss), ss[k].config.name, d)
  {
    assert HeldGraph(ss)[FindIndex(ss, d)].name == d;
    assert HeldGraph(ss)[k].name == ss[k].config.name;
  }

  ghost predicate AllLead(ss: seq<Svc>, root: string, names: seq<string>) {
    forall x :: x in names && HeldName(ss, x) ==> Leads(HeldGraph(ss), root, x)
  }

  lemma {:induction false} VisitLeads(ss: seq<Svc>, root: string, t: Traversal, name: string, env: Env, now: Instant)
    requires AllOk(t.mgr.services) && SameConfigs(ss, t.mgr.services)
    requires AllLead(ss, root, [name]) && AllLead(ss, root, t.calls)
    ensures AllLead(ss, root, VisitDependency(t, name, env, now).calls)
    decreases Unvisited(t.mgr.services, t.visiting), 0, 0
  {
    hide StartDependencies, Leads, Unvisited;
    SameView(ss, t.mgr.services, name);
    assert name in [name];
    if HeldName(t.mgr.services, name) && name !in t.visiting {
      var dependsOn := DepsOf(t.mgr.services, name);
      VisitIs(t, name, env, now);
      forall d | d in dependsOn && HeldName(ss, d)
        ensures Leads(HeldGraph(ss), root, d)
      {
        DependencyEdge(ss, FindIndex(ss, name), d);
        LeadsOn(HeldGraph(ss), root, name, d);
      }
      StartLeads(ss, root, t.(visiting := t.visiting + [name]), dependsOn, env, now);
    }
  }

  lemma {:induction false} StartLeads(ss: seq<Svc>, root: string, t: Traversal, dependsOn: seq<string>,
                                      env: Env, now: Instant)
    requires AllOk(t.mgr.services) && SameConfigs(ss, t.mgr.services)
    requires AllLead(ss, root, dependsOn) && AllLead(ss, root, t.calls)
    ensures AllLead(ss, root, StartDependencies(t, dependsOn, env, now).calls)
    decreases Unvisited(t.mgr.services, t.visiting), |dependsOn|, 1
  {
    hide Leads;
    if dependsOn != [] {
      assert dependsOn[0] in dependsOn;
      VisitLeads(ss, root, t, dependsOn[0], env, now);
      var v := VisitDependency(t, dependsOn[0], env, now);
      SameConfigsTrans(ss, t.mgr.services, v.mgr.services);
      StartLeads(ss, root, v, dependsOn[1..], env, now);
    }
  }

  // ----- in which order

  /** Everything a started service depends on was started earlier. */
  predicate InOrder(ss: seq<Svc>, calls: seq<string>) {
    forall p :: 0 <= p < |calls| ==> Covers(ss, calls[..p], DepsOf(ss, calls[p]))
  }

  /** Everything visited but not started yet ranks above the names to come: it is waiting for them. */
  ghost predicate Above(ss: seq<Svc>, rank: map<string, nat>, t: Traversal, names: seq<string>) {
    forall x, d :: x in t.visiting && x !in t.calls && d in names && HeldName(ss, d) ==>
      x in rank && d in rank && rank[d] < rank[x]
  }

  lemma PrefixIn(a: seq<string>, b: seq<string>)
    requires a <= b
    ensures forall x :: x in a ==> x in b
  {
    assert b == a + b[|a|..];
  }

  lemma AboveAll(ss: seq<Svc>, rank: map<string, nat>, t: Traversal, names: seq<string>)
    requires Above(ss, rank, t, names) && Covers(ss, t.visiting, names)
    ensures Covers(ss, t.calls, names)
  {}

  lemma AboveLater(ss: seq<Svc>, rank: map<string, nat>, t: Traversal, r: Traversal, names: seq<string>)
    requires Above(ss, rank, t, names) && t.calls <= r.calls && Grown(ss, t.visiting, r.visiting, NewCalls(t, r))
    ensures Above(ss, rank, r, names)
  {
    PrefixIn(t.calls, r.calls);
    forall x, d | x in r.visiting && x !in r.calls && d in names && HeldName(ss, d)
      ensures x in rank && d in rank && rank[d] < rank[x]
    {
      assert x in NewCalls(t, r) ==> x in r.calls;
    }
  }

  lemma {:induction false} VisitInOrder(ss: seq<Svc>, rank: map<string, nat>, t: Traversal, name: string,
                                        env: Env, now: Instant)
    requires AllOk(t.mgr.services) && SameConfigs(ss, t.mgr.services) && Ranked(HeldGraph(ss), rank)
    requires Above(ss, rank, t, [name]) && InOrder(ss, t.calls)
    ensures InOrder(ss, VisitDependency(t, name, env, now).calls)
    decreases Unvisited(t.mgr.services, t.visiting), 0, 0
  {
    hide StartDependencies, Grown, Ranked, InOrder, HeldGraph, Covers, Unvisited;
    SameView(ss, t.mgr.services, name);
    if HeldName(t.mgr.services, name) && name !in t.visiting {
      var entered := t.(visiting := t.visiting + [name]);
      var dependsOn := DepsOf(t.mgr.services, name);
      VisitIs(t, name, env, now);
      StepAbove(ss, rank, t, name);
      StartInOrder(ss, rank, entered, dependsOn, env, now);
      StartGrows(ss, entered, dependsOn, env, now);
      var inner := StartDependencies(entered, dependsOn, env, now);
      AboveLater(ss, rank, entered, inner, dependsOn);
      AboveAll(ss, rank, inner, dependsOn);
      OneMoreInOrder(ss, inner.calls, name);
    }
  }

  lemma OneMoreInOrder(ss: seq<Svc>, calls: seq<string>, name: string)
    requires InOrder(ss, calls) && Covers(ss, calls, DepsOf(ss, name))
    ensures InOrder(ss, calls + [name])
  {
    var r := calls + [name];
    forall p | 0 <= p < |r|
      ensures Covers(ss, r[..p], DepsOf(ss, r[p]))
    {
      if p < |calls| {
        assert r[..p] == calls[..p];
      } else {
        assert r[..p] == calls;
      }
    }
  }

  /** Entering a name puts it above what it depends on. */
  lemma StepAbove(ss: seq<Svc>, rank: map<string, nat>, t: Traversal, name: string)
    requires Ranked(HeldGraph(ss), rank) && HeldName(ss, name) && Above(ss, rank, t, [name])
    ensures Above(ss, rank, t.(visiting := t.visiting + [name]), DepsOf(ss, name))
  {
    hide HeldGraph, Edge;
    var entered := t.(visiting := t.visiting + [name]);
    assert name in [name];
    forall x, d | x in entered.visiting && x !in t.calls && d in DepsOf(ss, name) && HeldName(ss, d)
      ensures x in rank && d in rank && rank[d] < rank[x]
    {
      DependencyEdge(ss, FindIndex(ss, name), d);
      EdgeEnds(HeldGraph(ss), name, d);
    }
  }

  lemma {:induction false} StartInOrder(ss: seq<Svc>, rank: map<string, nat>, t: Traversal, dependsOn: seq<string>,
                                        env: Env, now: Instant)
    requires AllOk(t.mgr.services) && SameConfigs(ss, t.mgr.services) && Ranked(HeldGraph(ss), rank)
    requires Above(ss, rank, t, dependsOn) && InOrder(ss, t.calls)
    ensures InOrder(ss, StartDependencies(t, dependsOn, env, now).calls)
    decreases Unvisited(t.mgr.services, t.visiting), |dependsOn|, 1
  {
    hide Grown, Ranked, InOrder, VisitDependency, HeldName, HeldGraph;
    if dependsOn != [] {
      assert dependsOn[0] in dependsOn;
      VisitInOrder(ss, rank, t, dependsOn[0], env, now);
      VisitGrows(ss, t, dependsOn[0], env, now);
      var v := VisitDependency(t, dependsOn[0], env, now);
      AboveLater(ss, rank, t, v, dependsOn);
      SameConfigsTrans(ss, t.mgr.services, v.mgr.services);
      StartInOrder(ss, rank, v, dependsOn[1..], env, now);
    }
  }

  // ----- main results

  /** The names a start of service i calls Start on before service i itself, in order. */
  function StartedBefore(m: Mgr, i: nat, started: seq<string>, env: Env, now: Instant): seq<string>
    requires AllOk(m.services) && i < |m.services|
  {
    var s := m.services[i].config;
    StartDependencies(Traversal(m, [s.name], started, []), s.dependsOn, env, now).calls
  }

  lemma EdgeIsDependency(ss: seq<Svc>, u: string, v: string)
    requires UniqueNames(ss) && Edge(HeldGraph(ss), u, v)
    ensures HeldName(ss, u) && HeldName(ss, v) && v in DepsOf(ss, u)
  {
    var g := HeldGraph(ss);
    var i :| 0 <= i < |g| && g[i].name == u && v in g[i].dependsOn;
    var j :| 0 <= j < |g| && g[j].name == v;
    assert ss[i].config.name == u && ss[j].config.name == v;
    assert FindIndex(ss, u) <= i && FindIndex(ss, v) <= j;
    assert FindIndex(ss, u) == i;
  }

  lemma {:induction false} NeededAreVisited(ss: seq<Svc>, own: string, visiting: seq<string>, calls: seq<string>,
                                            p: seq<string>)
    requires UniqueNames(ss) && Grown(ss, [own], visiting, calls) && Covers(ss, visiting, DepsOf(ss, own))
    requires p != [] && p[0] == own && Walk(HeldGraph(ss), p)
    ensures p[|p| - 1] in visiting
    decreases |p|
  {
    if |p| > 1 {
      var q := p[..|p| - 1];
      assert Edge(HeldGraph(ss), p[|p| - 2], p[|p| - 1]);
      EdgeIsDependency(ss, p[|p| - 2], p[|p| - 1]);
      assert Walk(HeldGraph(ss), q) by {
        forall i | 0 <= i < |q| - 1
          ensures Edge(HeldGraph(ss), q[i], q[i + 1])
        {
          assert Edge(HeldGraph(ss), p[i], p[i + 1]);
        }
      }
      NeededAreVisited(ss, own, visiting, calls, q);
      assert p[|p| - 2] in [own] || p[|p| - 2] in calls;
    } else {
      assert own in [own];
    }
  }

  /**
   On any dependencies, with cycles or without: a start of service i calls Start once on each
   other service that i depends on, directly or through others, and on nothing else.
   */
  lemma StartsExactlyWhatIsNeeded(m: Mgr, i: nat, started: seq<string>, env: Env, now: Instant, name: string)
    requires AllOk(m.services) && UniqueNames(m.services) && i < |m.services|
    ensures var calls := StartedBefore(m, i, started, env, now);
            var own := m.services[i].config.name;
            && NoRepeats(calls)
            && (name in calls <==> name != own && Leads(HeldGraph(m.services), own, name))
  {
    hide StartDependencies, Grown, Leads;
    var ss, s := m.services, m.services[i].config;
    var entered := Traversal(m, [s.name], started, []);
    var r := StartDependencies(entered, s.dependsOn, env, now);
    StartGrows(ss, entered, s.dependsOn, env, now);
    assert NewCalls(entered, r) == r.calls;
    assert FindIndex(ss, s.name) == i;
    AllLeadHere(ss, i);
    StartLeads(ss, s.name, entered, s.dependsOn, env, now);
    CallsAreNew(ss, [s.name], r.visiting, r.calls);
    assert [s.name][0] == s.name && r.calls == StartedBefore(m, i, started, env, now);
    if name != s.name && Leads(HeldGraph(ss), s.name, name) {
      var p := LeadsWalk(HeldGraph(ss), s.name, name);
      NeededAreVisited(ss, s.name, r.visiting, r.calls, p);
      OldOrCalled(ss, [s.name], r.visiting, r.calls, name);
    }
  }

  lemma LeadsWalk(g: Graph, u: string, v: string) returns (p: seq<string>)
    requires Leads(g, u, v)
    ensures LeadsBy(g, p, u, v)
  {
    p :| LeadsBy(g, p, u, v);
  }

  lemma CallsAreNew(ss: seq<Svc>, before: seq<string>, later: seq<string>, calls: seq<string>)
    requires Grown(ss, before, later, calls)
    ensures NoRepeats(calls) && forall x :: x in calls ==> HeldName(ss, x)
    ensures forall j :: 0 <= j < |before| ==> before[j] !in calls
  {}

  lemma OldOrCalled(ss: seq<Svc>, before: seq<string>, later: seq<string>, calls: seq<string>, name: string)
    requires Grown(ss, before, later, calls) && name in later
    ensures name in before || name in calls
  {}

  lemma AllLeadHere(ss: seq<Svc>, i: nat)
    requires i < |ss|
    ensures AllLead(ss, ss[i].config.name, ss[i].config.dependsOn)
  {
    var own := ss[i].config.name;
    assert LeadsBy(HeldGraph(ss), [own], own, own);
    forall d | d in ss[i].config.dependsOn && HeldName(ss, d)
      ensures Leads(HeldGraph(ss), own, d)
    {
      DependencyEdge(ss, i, d);
      LeadsOn(HeldGraph(ss), own, own, d);
    }
  }

  /** Without a cycle, everything started for service i comes after all that it depends on itself. */
  lemma StartsInDependencyOrder(m: Mgr, i: nat, started: seq<string>, env: Env, now: Instant)
    requires AllOk(m.services) && i < |m.services| && Acyclic(HeldGraph(m.services))
    ensures var calls := StartedBefore(m, i, started, env, now);
            && InOrder(m.services, calls)
            && Covers(m.services, calls, m.services[i].config.dependsOn)
  {
    hide StartDependencies, Grown, Acyclic;
    var ss, s := m.services, m.services[i].config;
    var entered := Traversal(m, [s.name], started, []);
    var rank := AcyclicHasRank(HeldGraph(ss));
    forall x, d | x in entered.visiting && d in s.dependsOn && HeldName(ss, d)
      ensures x in rank && d in rank && rank[d] < rank[x]
    {
      DependencyEdge(ss, i, d);
      EdgeEnds(HeldGraph(ss), s.name, d);
    }
    StartInOrder(ss, rank, entered, s.dependsOn, env, now);
    StartGrows(ss, entered, s.dependsOn, env, now);
    var r := StartDependencies(entered, s.dependsOn, env, now);
    AboveLater(ss, rank, entered, r, s.dependsOn);
    AboveAll(ss, rank, r, s.dependsOn);
  }
}
