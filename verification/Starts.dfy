/**
 What starting services with everything they need does to all of them: those asked for go as a start
 should, those needed may, and nothing else is touched or launched.
 */
module Starts {
  import opened Launching
  import opened ServiceSpec
  import opened ManagerSpec
  import opened MicroSteps
  import opened Graphs
  import opened Runs
  import opened StartOrder
  import opened Execution

  /** Which names a call may start. */
  type Scope = string -> bool

  predicate StartsWithin(log: Log, newLog: Log, scope: Scope) {
    log <= newLog &&
    forall k :: |log| <= k < |newLog| ==> (newLog[k].Launched? || newLog[k].LaunchRefused?) && scope(newLog[k].name)
  }

  /** Service s has become x: as it was, or gone as a start should; the latter if it is among those started. */
  predicate MayHaveGone(s: Svc, x: Svc, r: Mgr, base: nat, started: set<string>, scope: Scope) {
    && (x == s || Went(StartCommand, s, x, r.services, r.log, base))
    && (s.config.name in started ==> Went(StartCommand, s, x, r.services, r.log, base))
    && (!scope(s.config.name) ==> x == s)
  }

  /** From m to r, those in `started` have gone as a start should and nothing out of scope was touched or launched. */
  predicate Started(m: Mgr, r: Mgr, started: set<string>, scope: Scope) {
    && SameConfigs(m.services, r.services) && StartsWithin(m.log, r.log, scope)
    && forall j :: 0 <= j < |m.services| ==>
         MayHaveGone(m.services[j], r.services[j], r, |m.log|, started, scope)
  }

  lemma StartedNone(m: Mgr, scope: Scope)
    ensures Started(m, m, {}, scope)
  {}

  lemma StartedFewer(m: Mgr, r: Mgr, started: set<string>, fewer: set<string>, scope: Scope)
    requires Started(m, r, started, scope) && fewer <= started
    ensures Started(m, r, fewer, scope)
  {
    hide Went;
  }

  // ----- one start

  lemma StartLogsOwn(s: Svc, log: Log, ctx: Ctx)
    ensures var r := Start(s, log, ctx);
            log <= r.log && forall k :: |log| <= k < |r.log| ==>
              (r.log[k].Launched? || r.log[k].LaunchRefused?) && r.log[k].name == s.config.name
  {
    hide ScheduleRestart;
  }

  lemma StartOne(m: Mgr, a: Mgr, k: nat, started: set<string>, scope: Scope, env: Env, now: Instant)
    requires AllOk(a.services) && UniqueNames(m.services) && k < |a.services|
    requires Started(m, a, started, scope) && scope(m.services[k].config.name)
    ensures Started(m, Act(a, k, StartOp, env, now).mgr, started + {m.services[k].config.name}, scope)
  {
    hide Start, Went, NoneMoreRunning;
    var r := Act(a, k, StartOp, env, now).mgr;
    var s, x, ctx := m.services[k], a.services[k], CtxFor(a, k, env, now);
    var more := started + {s.config.name};
    assert SameSettings(s, x);
    StartWent(StartCommand, s, x, a.log, ctx, a.services, |m.log|);
    StartLogsOwn(x, a.log, ctx);
    LogsOn(m.log, a.log, r.log, scope, s.config.name);
    SameConfigsTrans(m.services, a.services, r.services);
    NoneMore(a.services, r.services, k);
    forall j | 0 <= j < |m.services|
      ensures MayHaveGone(m.services[j], r.services[j], r, |m.log|, more, scope)
    {
      if j == k {
        WentLater(StartCommand, s, r.services[k], a.services, r.log, r.services, r.log, |m.log|);
      } else {
        assert m.services[j].config.name != s.config.name;
        assert MayHaveGone(m.services[j], a.services[j], a, |m.log|, started, scope);
        if Went(StartCommand, m.services[j], a.services[j], a.services, a.log, |m.log|) {
          WentLater(StartCommand, m.services[j], a.services[j], a.services, a.log, r.services, r.log, |m.log|);
        }
      }
    }
  }

  lemma LogsOn(a: Log, b: Log, c: Log, scope: Scope, name: string)
    requires StartsWithin(a, b, scope) && b <= c && scope(name)
    requires forall k :: |b| <= k < |c| ==> (c[k].Launched? || c[k].LaunchRefused?) && c[k].name == name
    ensures StartsWithin(a, c, scope)
  {
    forall k | |a| <= k < |c|
      ensures (c[k].Launched? || c[k].LaunchRefused?) && scope(c[k].name)
    {
      if k < |b| {
        assert c[k] == b[k];
      }
    }
  }

  lemma NoneMore(ss: seq<Svc>, tt: seq<Svc>, k: nat)
    requires SameConfigs(ss, tt) && k < |ss| && (tt[k].state.Running? ==> ss[k].state.Running?)
    requires forall j :: 0 <= j < |ss| && j != k ==> tt[j] == ss[j]
    ensures NoneMoreRunning(ss, tt)
  {}

  // ----- a traversal

  /** What a service in scope depends on is in scope, or is `own`, which is being started already. */
  ghost predicate ScopeCloses(ss: seq<Svc>, scope: Scope, own: string) {
    forall i :: 0 <= i < |ss| && scope(ss[i].config.name) ==> Leaves(ss, ss[i].config.dependsOn, scope, own)
  }

  predicate Leaves(ss: seq<Svc>, dependsOn: seq<string>, scope: Scope, own: string) {
    forall d :: d in dependsOn && HeldName(ss, d) ==> scope(d) || d == own
  }

  lemma {:induction false} VisitStarts(m: Mgr, t: Traversal, name: string, started: set<string>, scope: Scope,
                                       own: string, env: Env, now: Instant)
    requires AllOk(t.mgr.services) && UniqueNames(m.services) && ScopeCloses(m.services, scope, own)
    requires Started(m, t.mgr, started, scope) && own in t.visiting && Leaves(m.services, [name], scope, own)
    ensures Started(m, VisitDependency(t, name, env, now).mgr, started, scope)
    decreases Unvisited(t.mgr.services, t.visiting), 0, 0
  {
    hide Act, Started, StartDependencies, UniqueNames;
    assert name in [name];
    StartedSame(m, t.mgr, started, scope, name);
    var k := FindIndex(t.mgr.services, name);
    if k < |t.mgr.services| && name !in t.visiting {
      var entered := t.(visiting := t.visiting + [name]);
      UnvisitedShrinks(t.mgr.services, t.mgr.services, name, t.visiting, entered.visiting);
      var dependsOn := t.mgr.services[k].config.dependsOn;
      DependenciesStart(m, entered, dependsOn, started, scope, own, env, now);
      var inner := StartDependencies(entered, dependsOn, env, now);
      StartOne(m, inner.mgr, k, started, scope, env, now);
      StartedFewer(m, Act(inner.mgr, k, StartOp, env, now).mgr, started + {m.services[k].config.name}, started, scope);
    }
  }

  lemma StartedSame(m: Mgr, r: Mgr, started: set<string>, scope: Scope, name: string)
    requires Started(m, r, started, scope)
    ensures |r.services| == |m.services| && FindIndex(r.services, name) == FindIndex(m.services, name)
    ensures forall i :: 0 <= i < |m.services| ==> r.services[i].config == m.services[i].config
  {
    FindSame(m.services, r.services, name);
    forall i | 0 <= i < |m.services|
      ensures r.services[i].config == m.services[i].config
    {
      assert SameSettings(m.services[i], r.services[i]);
    }
  }

  lemma {:induction false} DependenciesStart(m: Mgr, t: Traversal, dependsOn: seq<string>, started: set<string>,
                                             scope: Scope, own: string, env: Env, now: Instant)
    requires AllOk(t.mgr.services) && UniqueNames(m.services) && ScopeCloses(m.services, scope, own)
    requires Started(m, t.mgr, started, scope) && own in t.visiting && Leaves(m.services, dependsOn, scope, own)
    ensures Started(m, StartDependencies(t, dependsOn, env, now).mgr, started, scope)
    decreases Unvisited(t.mgr.services, t.visiting), |dependsOn|, 1
  {
    hide Started, VisitDependency, UniqueNames, ScopeCloses, HeldName;
    if dependsOn != [] {
      assert dependsOn[0] in dependsOn;
      VisitStarts(m, t, dependsOn[0], started, scope, own, env, now);
      var v := VisitDependency(t, dependsOn[0], env, now);
      InLonger(t.visiting, v.visiting, own);
      DependenciesStart(m, v, dependsOn[1..], started, scope, own, env, now);
    }
  }

  /** One service with everything it needs. */
  lemma StartsWithNeeds(m: Mgr, a: Mgr, i: nat, started: set<string>, scope: Scope, before: seq<string>, env: Env,
                        now: Instant)
    requires AllOk(a.services) && UniqueNames(m.services) && i < |a.services| && i < |m.services|
    requires Started(m, a, started, scope) && scope(m.services[i].config.name)
    requires ScopeCloses(m.services, scope, m.services[i].config.name)
    ensures Started(m, StartWithDependencies(a, i, false, before, env, now).mgr,
                    started + {m.services[i].config.name}, scope)
  {
    hide Act, Started, StartDependencies, UniqueNames;
    var own := m.services[i].config.name;
    StartedSame(m, a, started, scope, own);
    var entered := Traversal(a, [own], before, []);
    assert own in [own];
    DependenciesStart(m, entered, m.services[i].config.dependsOn, started, scope, own, env, now);
    var t := StartDependencies(entered, m.services[i].config.dependsOn, env, now);
    StartOne(m, t.mgr, i, started, scope, env, now);
  }

  // ----- what some services need

  /** One of the roots, or needed by one, directly or through others. */
  ghost predicate NeededFor(g: Graph, roots: set<string>, name: string) {
    exists root :: root in roots && Leads(g, root, name)
  }

  ghost function ScopeOf(g: Graph, roots: set<string>): Scope {
    name => NeededFor(g, roots, name)
  }

  lemma NeedsClose(ss: seq<Svc>, roots: set<string>, own: string)
    ensures ScopeCloses(ss, ScopeOf(HeldGraph(ss), roots), own)
  {
    hide Leads;
    var scope := ScopeOf(HeldGraph(ss), roots);
    forall i, d | 0 <= i < |ss| && scope(ss[i].config.name) && d in ss[i].config.dependsOn && HeldName(ss, d)
      ensures scope(d)
    {
      var root :| root in roots && Leads(HeldGraph(ss), root, ss[i].config.name);
      DependencyEdge(ss, i, d);
      LeadsOn(HeldGraph(ss), root, ss[i].config.name, d);
    }
  }

  lemma RootInScope(g: Graph, roots: set<string>, name: string)
    requires name in roots
    ensures ScopeOf(g, roots)(name)
  {
    assert LeadsBy(g, [name], name, name);
    assert NeededFor(g, roots, name);
  }

  // ----- starting what is set to start by itself

  /** The names of the stopped services with autostart. */
  function AutostartNames(ss: seq<Svc>): set<string> {
    set i | 0 <= i < |ss| && ss[i].config.autostart && ss[i].state.Stopped? :: ss[i].config.name
  }

  function AutostartBefore(ss: seq<Svc>, n: nat): set<string> {
    set i | 0 <= i < n && i < |ss| && ss[i].config.autostart && ss[i].state.Stopped? :: ss[i].config.name
  }

  lemma {:induction false} AutostartFrom(m: Mgr, a: Mgr, i: nat, env: Env, now: Instant)
    requires AllOk(a.services) && UniqueNames(m.services) && i <= |a.services|
    requires Started(m, a, AutostartBefore(m.services, i), ScopeOf(HeldGraph(m.services), AutostartNames(m.services)))
    ensures Started(m, StartAutostart(a, i, env, now), AutostartNames(m.services),
                    ScopeOf(HeldGraph(m.services), AutostartNames(m.services)))
    decreases |a.services| - i
  {
    hide StartWithDependencies, Started, UniqueNames, ScopeOf;
    var scope, before := ScopeOf(HeldGraph(m.services), AutostartNames(m.services)), AutostartBefore(m.services, i);
    StartedSame(m, a, before, scope, "");
    if i == |a.services| {
      assert before == AutostartNames(m.services);
    } else {
      AutostartOne(m, a, i, env, now);
      AutostartFrom(m, AutostartNext(a, i, env, now), i + 1, env, now);
    }
  }

  lemma AutostartOne(m: Mgr, a: Mgr, i: nat, env: Env, now: Instant)
    requires AllOk(a.services) && UniqueNames(m.services) && i < |a.services| && |a.services| == |m.services|
    requires Started(m, a, AutostartBefore(m.services, i), ScopeOf(HeldGraph(m.services), AutostartNames(m.services)))
    ensures Started(m, AutostartNext(a, i, env, now), AutostartBefore(m.services, i + 1),
                    ScopeOf(HeldGraph(m.services), AutostartNames(m.services)))
  {
    hide StartWithDependencies, Started, UniqueNames, ScopeOf;
    var roots := AutostartNames(m.services);
    var scope, before := ScopeOf(HeldGraph(m.services), roots), AutostartBefore(m.services, i);
    var name := m.services[i].config.name;
    StillStopped(m, a, before, scope, i);
    if a.services[i].config.autostart && a.services[i].state.Stopped? {
      assert name in roots;
      RootInScope(HeldGraph(m.services), roots, name);
      NeedsClose(m.services, roots, name);
      StartsWithNeeds(m, a, i, before, scope, [], env, now);
      assert AutostartBefore(m.services, i + 1) == before + {name};
    } else {
      if name in AutostartBefore(m.services, i + 1) {
        NamedHere(m.services, i);
      }
      StartedOneMore(m, a, before, AutostartBefore(m.services, i + 1), scope, i);
    }
  }

  lemma NamedHere(ss: seq<Svc>, i: nat)
    requires UniqueNames(ss) && i < |ss| && ss[i].config.name in AutostartBefore(ss, i + 1)
    ensures ss[i].config.autostart && ss[i].state.Stopped?
  {}

  /** A service that is stopped now has not been touched. */
  lemma StillStopped(m: Mgr, a: Mgr, started: set<string>, scope: Scope, i: nat)
    requires Started(m, a, started, scope) && i < |m.services|
    ensures |a.services| == |m.services| && a.services[i].config == m.services[i].config
    ensures a.services[i].state.Stopped? ==> a.services[i] == m.services[i]
  {
    assert SameSettings(m.services[i], a.services[i]);
    assert MayHaveGone(m.services[i], a.services[i], a, |m.log|, started, scope);
  }

  /** A service that was stopped and is not any more has gone as a start should. */
  lemma StartedOneMore(m: Mgr, a: Mgr, started: set<string>, more: set<string>, scope: Scope, i: nat)
    requires Started(m, a, started, scope) && UniqueNames(m.services) && i < |m.services|
    requires more <= started + {m.services[i].config.name}
    requires m.services[i].config.name in more && m.services[i].state.Stopped? ==> !a.services[i].state.Stopped?
    requires m.services[i].config.name in more ==> m.services[i].state.Stopped?
    ensures Started(m, a, more, scope)
  {
    hide Went;
    forall j | 0 <= j < |m.services|
      ensures MayHaveGone(m.services[j], a.services[j], a, |m.log|, more, scope)
    {
      assert MayHaveGone(m.services[j], a.services[j], a, |m.log|, started, scope);
      if j != i {
        assert m.services[j].config.name != m.services[i].config.name;
      }
    }
  }

  /**
   Starting what is set to start by itself: every stopped service with autostart goes as a start should,
   and what neither is one nor is needed by one is not touched or launched.
   */
  lemma AutostartStarts(m: Mgr, env: Env, now: Instant)
    requires AllOk(m.services) && UniqueNames(m.services)
    ensures Started(m, StartAutostart(m, 0, env, now), AutostartNames(m.services),
                    ScopeOf(HeldGraph(m.services), AutostartNames(m.services)))
  {
    hide StartAutostart, Started, UniqueNames, ScopeOf;
    assert AutostartBefore(m.services, 0) == {};
    StartedNone(m, ScopeOf(HeldGraph(m.services), AutostartNames(m.services)));
    AutostartFrom(m, m, 0, env, now);
  }
}
