/**
 What a reload does to every service: the listed ones take their settings and those that come anew and
 are set to start by themselves go as a start should, with what they need; the dropped ones are stopped;
 nothing else is touched or launched.
 */
module ReloadStarts {
  import opened ServiceConfigs
  import opened Launching
  import opened ServiceSpec
  import opened ManagerSpec
  import opened MicroSteps
  import opened Graphs
  import opened Runs
  import opened Reload
  import opened StartOrder
  import opened Execution
  import opened Starts

  /** The service of this entry before anything is started: as it was, with the settings of the entry, or new. */
  function Entered(ss: seq<Svc>, config: ServiceConfig): (s: Svc)
    ensures s.config == config
  {
    var k := FindIndex(ss, config.name);
    if k < |ss| then ss[k].(config := config, removing := false) else NewService(config)
  }

  /** The name is unknown or being removed, so it comes anew with a list that has it. */
  predicate ComesAnew(ss: seq<Svc>, name: string) {
    forall i :: 0 <= i < |ss| && ss[i].config.name == name ==> ss[i].removing
  }

  lemma ComesByIndex(ss: seq<Svc>, name: string)
    requires UniqueNames(ss)
    ensures ComesAnew(ss, name) <==> FindIndex(ss, name) == |ss| || ss[FindIndex(ss, name)].removing
  {}

  // ----- merging

  lemma EnteredBesideNew(ss: seq<Svc>, t: Svc, other: ServiceConfig)
    requires t.config.name != other.name
    ensures Entered(ss + [t], other) == Entered(ss, other)
    ensures ComesAnew(ss + [t], other.name) == ComesAnew(ss, other.name)
  {
    var tt := ss + [t];
    FindAppended(ss, t, other.name);
    assert forall i :: 0 <= i < |ss| ==> tt[i] == ss[i];
  }

  lemma EnteredBesideChanged(ss: seq<Svc>, k: nat, t: Svc, other: ServiceConfig)
    requires k < |ss| && t.config.name == ss[k].config.name != other.name
    ensures Entered(ss[k := t], other) == Entered(ss, other)
    ensures ComesAnew(ss[k := t], other.name) == ComesAnew(ss, other.name)
  {
    var tt := ss[k := t];
    FindOther(ss, t, k, other.name);
    assert forall i :: 0 <= i < |ss| && i != k ==> tt[i] == ss[i];
  }

  lemma EnteredOther(a: Merge, config: ServiceConfig, other: ServiceConfig, env: Env, now: Instant)
    requires AllOk(a.mgr.services) && other.name != config.name
    ensures Entered(MergeOne(a, config, env, now).mgr.services, other) == Entered(a.mgr.services, other)
    ensures ComesAnew(MergeOne(a, config, env, now).mgr.services, other.name) == ComesAnew(a.mgr.services, other.name)
  {
    hide Entered, ComesAnew, Act;
    var ss := a.mgr.services;
    var k := FindIndex(ss, config.name);
    if k == |ss| {
      EnteredBesideNew(ss, NewService(config), other);
    } else {
      MergedServices(a, config, k, env, now);
      EnteredBesideChanged(ss, k, ss[k].(config := config, removing := false), other);
    }
  }

  lemma EntersOne(a: Merge, config: ServiceConfig, env: Env, now: Instant)
    requires AllOk(a.mgr.services) && UniqueNames(a.mgr.services)
    ensures var r := MergeOne(a, config, env, now);
            && Entered(a.mgr.services, config) in r.mgr.services
            && r.added == (if ComesAnew(a.mgr.services, config.name) then a.added + [config.name] else a.added)
            && r.mgr.log == a.mgr.log
  {
    var ss := a.mgr.services;
    var k := FindIndex(ss, config.name);
    ComesByIndex(ss, config.name);
    var r := MergeOne(a, config, env, now);
    if k == |ss| {
      assert r.mgr.services[|ss|] == NewService(config);
    } else {
      MergedServices(a, config, k, env, now);
      assert r.mgr.services[k] == Entered(ss, config);
    }
  }

  /** The entries of the list whose names come anew, in order. */
  function Newcomers(ss: seq<Svc>, configs: seq<ServiceConfig>): seq<string> {
    if configs == [] then []
    else (if ComesAnew(ss, configs[0].name) then [configs[0].name] else []) + Newcomers(ss, configs[1..])
  }

  lemma {:induction false} NewcomersOther(a: Merge, config: ServiceConfig, configs: seq<ServiceConfig>, env: Env,
                                          now: Instant)
    requires AllOk(a.mgr.services) && forall c :: c in configs ==> c.name != config.name
    ensures Newcomers(MergeOne(a, config, env, now).mgr.services, configs) == Newcomers(a.mgr.services, configs)
    decreases |configs|
  {
    hide MergeOne, ComesAnew;
    if configs != [] {
      EnteredOther(a, config, configs[0], env, now);
      NewcomersOther(a, config, configs[1..], env, now);
    }
  }

  lemma MergeOneKeeps(a: Merge, config: ServiceConfig, env: Env, now: Instant)
    requires Inv(a.mgr)
    ensures Inv(MergeOne(a, config, env, now).mgr)
  {
    hide MergeOne, Processes, LaunchesSafe, DroppedQuiet, UniqueNames;
    MergeOneReaches(a, config, [config], env, now);
    ReachesKeepsInv(a.mgr, MergeOne(a, config, env, now).mgr, [config], env, now);
  }

  lemma FirstStandsAlone(configs: seq<ServiceConfig>)
    requires UniqueConfigs(configs) && configs != []
    ensures UniqueConfigs(configs[1..]) && forall c :: c in configs[1..] ==> c.name != configs[0].name
  {}

  lemma NoNewcomers(ss: seq<Svc>)
    ensures Newcomers(ss, []) == []
  {}

  lemma AppendedInTurn(added: seq<string>, ss: seq<Svc>, configs: seq<ServiceConfig>)
    requires configs != []
    ensures added + Newcomers(ss, configs) ==
            (if ComesAnew(ss, configs[0].name) then added + [configs[0].name] else added) + Newcomers(ss, configs[1..])
  {
    hide ComesAnew;
  }

  lemma {:induction false} MergeAdds(a: Merge, configs: seq<ServiceConfig>, env: Env, now: Instant)
    requires Inv(a.mgr) && UniqueConfigs(configs)
    ensures var r := MergeAll(a, configs, env, now);
            r.added == a.added + Newcomers(a.mgr.services, configs) && r.mgr.log == a.mgr.log
    decreases |configs|
  {
    hide MergeOne, Processes, LaunchesSafe, DroppedQuiet, UniqueNames, ComesAnew, Entered, UniqueConfigs, Newcomers;
    if configs == [] {
      NoNewcomers(a.mgr.services);
    } else {
      var b := MergeOne(a, configs[0], env, now);
      FirstStandsAlone(configs);
      MergeOneKeeps(a, configs[0], env, now);
      EntersOne(a, configs[0], env, now);
      NewcomersOther(a, configs[0], configs[1..], env, now);
      MergeAdds(b, configs[1..], env, now);
      AppendedInTurn(a.added, a.mgr.services, configs);
    }
  }

  /** After merging, every entry has its service. */
  lemma {:induction false} MergeEnters(a: Merge, configs: seq<ServiceConfig>, env: Env, now: Instant, c: ServiceConfig)
    requires Inv(a.mgr) && UniqueConfigs(configs) && c in configs
    ensures Entered(a.mgr.services, c) in MergeAll(a, configs, env, now).mgr.services
    decreases |configs|
  {
    hide MergeOne, Processes, LaunchesSafe, DroppedQuiet, UniqueNames, Merged, Entered, ComesAnew, UniqueConfigs;
    var b := MergeOne(a, configs[0], env, now);
    FirstStandsAlone(configs);
    MergeOneKeeps(a, configs[0], env, now);
    if c == configs[0] {
      EntersOne(a, c, env, now);
      MergeAllMerges(b, configs[1..], configs, env, now);
      StaysEntered(b, MergeAll(b, configs[1..], env, now), configs, Entered(a.mgr.services, c));
    } else {
      assert c in configs[1..];
      EnteredOther(a, configs[0], c, env, now);
      MergeEnters(b, configs[1..], env, now, c);
    }
  }

  lemma StaysEntered(b: Merge, r: Merge, configs: seq<ServiceConfig>, s: Svc)
    requires configs != [] && UniqueConfigs(configs) && Merged(b, r, configs[1..])
    requires s in b.mgr.services && s.config == configs[0]
    ensures s in r.mgr.services
  {
    var i :| 0 <= i < |b.mgr.services| && b.mgr.services[i] == s;
    assert !Listed(configs[1..], s.config.name);
    assert r.mgr.services[i] == s;
  }

  // ----- retiring

  predicate OnlyStops(log: Log, newLog: Log) {
    log <= newLog && forall k :: |log| <= k < |newLog| ==> newLog[k].StopRequested?
  }

  /** What a reload makes of a service that is not listed. */
  predicate WasDropped(s: Svc, x: Svc) {
    x.removing && if s.removing then x == s else WasStopped(s, x) && x.config == s.config
  }

  lemma RetireGoes(s: Svc, log: Log, ctx: Ctx)
    requires SvcInv(s) && !s.removing
    ensures var r := Step(s, log, RetireOp, ctx);
            OnlyStops(log, r.log) && WasDropped(s, r.svc)
  {}

  lemma RetireOne(a: Merge, configs: seq<ServiceConfig>, i: nat, env: Env, now: Instant)
    requires AllOk(a.mgr.services) && i < |a.mgr.services|
    ensures var r := RetireNext(a, configs, i, env, now);
            && OnlyStops(a.mgr.log, r.mgr.log)
            && (forall j :: 0 <= j < |a.mgr.services| && j != i ==> r.mgr.services[j] == a.mgr.services[j])
            && if Listed(configs, a.mgr.services[i].config.name) then r.mgr.services[i] == a.mgr.services[i]
               else WasDropped(a.mgr.services[i], r.mgr.services[i])
  {
    hide Step, Listed, WasStopped;
    var s := a.mgr.services[i];
    if !s.removing {
      RetireGoes(s, a.mgr.log, CtxFor(a.mgr, i, env, now));
    }
  }

  lemma {:induction false} RetireDrops(a: Merge, configs: seq<ServiceConfig>, i: nat, env: Env, now: Instant, j: nat)
    requires AllOk(a.mgr.services) && i <= |a.mgr.services| && j < |a.mgr.services|
    ensures var r := RetireFrom(a, configs, i, env, now);
            && OnlyStops(a.mgr.log, r.mgr.log)
            && if j < i || Listed(configs, a.mgr.services[j].config.name) then
                 r.mgr.services[j] == a.mgr.services[j]
               else
                 WasDropped(a.mgr.services[j], r.mgr.services[j])
    decreases |a.mgr.services| - i
  {
    hide RetireNext, Listed, WasDropped;
    if i < |a.mgr.services| {
      var next := RetireNext(a, configs, i, env, now);
      RetireOne(a, configs, i, env, now);
      RetireDrops(next, configs, i + 1, env, now, j);
      StopsOn(a.mgr.log, next.mgr.log, RetireFrom(next, configs, i + 1, env, now).mgr.log);
      assert i != j ==> next.mgr.services[j] == a.mgr.services[j];
    }
  }

  lemma StopsOn(a: Log, b: Log, c: Log)
    requires OnlyStops(a, b) && OnlyStops(b, c)
    ensures OnlyStops(a, c)
  {
    forall k | |a| <= k < |c|
      ensures c[k].StopRequested?
    {
      if k < |b| {
        assert c[k] == b[k];
      }
    }
  }

  lemma NoneToRetire(a: Merge, configs: seq<ServiceConfig>, env: Env, now: Instant)
    requires a.mgr.services == []
    ensures RetireFrom(a, configs, 0, env, now) == a
  {}

  // ----- starting what came anew

  /** The names in the list that have autostart here. */
  function Selected(ss: seq<Svc>, names: seq<string>): set<string> {
    set n | n in names && FindIndex(ss, n) < |ss| && ss[FindIndex(ss, n)].config.autostart
  }

  lemma {:induction false} AddedStart(m: Mgr, a: Mgr, added: seq<string>, started: set<string>, roots: set<string>,
                                      env: Env, now: Instant)
    requires AllOk(a.services) && UniqueNames(m.services) && !a.shuttingDown
    requires Started(m, a, started, ScopeOf(HeldGraph(m.services), roots)) && Selected(m.services, added) <= roots
    ensures Started(m, StartAdded(a, added, env, now), started + Selected(m.services, added),
                    ScopeOf(HeldGraph(m.services), roots))
    decreases |added|
  {
    hide StartWithDependencies, Started, UniqueNames, ScopeOf;
    var scope := ScopeOf(HeldGraph(m.services), roots);
    if added == [] {
      assert started + Selected(m.services, []) == started;
    } else {
      var name := added[0];
      var k := FindIndex(m.services, name);
      StartedSame(m, a, started, scope, name);
      var next := StartIfAutostart(a, name, env, now);
      var own := if k < |m.services| && m.services[k].config.autostart then {name} else {};
      assert Selected(m.services, added) == own + Selected(m.services, added[1..]);
      if own != {} {
        assert name in Selected(m.services, added);
        RootInScope(HeldGraph(m.services), roots, name);
        NeedsClose(m.services, roots, name);
        StartsWithNeeds(m, a, k, started, scope, [], env, now);
      }
      assert started + {} == started;
      assert own == {} ==> next == a;
      assert Started(m, next, started + own, scope);
      AddedStart(m, next, added[1..], started + own, roots, env, now);
      assert started + own + Selected(m.services, added[1..]) == started + Selected(m.services, added);
    }
  }

  // ----- the whole reload

  /** The entries that come anew and are set to start by themselves. */
  function StartNames(ss: seq<Svc>, configs: seq<ServiceConfig>): set<string> {
    set c | c in configs && c.autostart && ComesAnew(ss, c.name) :: c.name
  }

  lemma {:induction false} NewcomersAre(ss: seq<Svc>, configs: seq<ServiceConfig>, n: string)
    ensures n in Newcomers(ss, configs) <==> Listed(configs, n) && ComesAnew(ss, n)
    decreases |configs|
  {
    hide ComesAnew;
    if configs != [] {
      NewcomersAre(ss, configs[1..], n);
      ListedSplit(configs, n);
      assert Listed([configs[0]], n) <==> configs[0].name == n by {
        assert [configs[0]][0].name == configs[0].name;
      }
    }
  }

  /** What is selected to be started is what comes anew and is set to start by itself. */
  lemma SelectedAre(ss: seq<Svc>, tt: seq<Svc>, configs: seq<ServiceConfig>)
    requires UniqueNames(tt) && UniqueConfigs(configs) && forall c :: c in configs ==> Entered(ss, c) in tt
    ensures Selected(tt, Newcomers(ss, configs)) == StartNames(ss, configs)
  {
    hide ComesAnew, Entered;
    forall n
      ensures n in Selected(tt, Newcomers(ss, configs)) <==> n in StartNames(ss, configs)
    {
      NewcomersAre(ss, configs, n);
      if Listed(configs, n) {
        var i :| 0 <= i < |configs| && configs[i].name == n;
        assert configs[i] in configs;
        HeldAs(tt, Entered(ss, configs[i]));
        OnlyEntry(configs, i);
      }
    }
  }

  lemma OnlyEntry(configs: seq<ServiceConfig>, i: nat)
    requires UniqueConfigs(configs) && i < |configs|
    ensures forall c :: c in configs && c.name == configs[i].name ==> c == configs[i]
  {}

  lemma HeldAs(tt: seq<Svc>, s: Svc)
    requires UniqueNames(tt) && s in tt
    ensures var k := FindIndex(tt, s.config.name); k < |tt| && tt[k] == s
  {
    var i :| 0 <= i < |tt| && tt[i] == s;
  }

  /** The manager once the new list is merged and what it drops is stopped. */
  function Prepared(m: Mgr, configs: seq<ServiceConfig>, env: Env, now: Instant): (r: Merge)
    requires AllOk(m.services)
    ensures AllOk(r.mgr.services)
  {
    RetireFrom(MergeAll(Merge(m, [], ReloadSummary(0, 0, 0)), configs, env, now), configs, 0, env, now)
  }

  lemma PreparedIs(m: Mgr, configs: seq<ServiceConfig>, env: Env, now: Instant)
    requires WellManaged(m) && ValidConfigs(configs)
    ensures var p := Prepared(m, configs, env, now);
            && p.added == Newcomers(m.services, configs) && OnlyStops(m.log, p.mgr.log)
            && UniqueNames(p.mgr.services) && ShowsExactly(p.mgr.services, configs)
            && |m.services| <= |p.mgr.services| && p.mgr.shuttingDown == m.shuttingDown
            && (forall c :: c in configs ==> Entered(m.services, c) in p.mgr.services)
            && (forall i :: 0 <= i < |m.services| && !Listed(configs, m.services[i].config.name) ==>
                  WasDropped(m.services[i], p.mgr.services[i]))
  {
    hide MergeAll, RetireFrom, Processes, LaunchesSafe, DroppedQuiet, ActiveClosed, WasDropped, Entered, OnlyStops;
    hide ComesAnew, Listed, ShowsExactly;
    var a := Merge(m, [], ReloadSummary(0, 0, 0));
    var b := MergeAll(a, configs, env, now);
    MergeAllMerges(a, configs, configs, env, now);
    MergeAdds(a, configs, env, now);
    assert [] + Newcomers(m.services, configs) == Newcomers(m.services, configs);
    ReachesKeepsInv(m, b.mgr, configs, env, now);
    RetireFromRetires(b, configs, 0, configs, env, now);
    var c := RetireFrom(b, configs, 0, env, now);
    ReachesKeepsInv(b.mgr, c.mgr, configs, env, now);
    ShownAfterRetiring(a, b, c, configs);
    RetiredLog(b, configs, env, now);
    forall config | config in configs
      ensures Entered(m.services, config) in c.mgr.services
    {
      MergeEnters(a, configs, env, now, config);
      var j :| 0 <= j < |b.mgr.services| && b.mgr.services[j] == Entered(m.services, config);
      InList(configs, config);
      RetireDrops(b, configs, 0, env, now, j);
    }
    forall i | 0 <= i < |m.services| && !Listed(configs, m.services[i].config.name)
      ensures WasDropped(m.services[i], c.mgr.services[i])
    {
      assert b.mgr.services[i] == m.services[i];
      RetireDrops(b, configs, 0, env, now, i);
    }
  }

  lemma InList(configs: seq<ServiceConfig>, config: ServiceConfig)
    requires config in configs
    ensures Listed(configs, config.name)
  {
    var i :| 0 <= i < |configs| && configs[i] == config;
  }

  lemma RetiredLog(a: Merge, configs: seq<ServiceConfig>, env: Env, now: Instant)
    requires AllOk(a.mgr.services)
    ensures OnlyStops(a.mgr.log, RetireFrom(a, configs, 0, env, now).mgr.log)
  {
    if a.mgr.services == [] {
      NoneToRetire(a, configs, env, now);
    } else {
      RetireDrops(a, configs, 0, env, now, 0);
    }
  }

  /** Listed services need listed ones only. */
  lemma {:induction false} WalkStaysListed(ss: seq<Svc>, configs: seq<ServiceConfig>, p: seq<string>)
    requires ShowsExactly(ss, configs) && DependenciesListed(configs) && UniqueNames(ss)
    requires p != [] && Walk(HeldGraph(ss), p) && Listed(configs, p[0])
    ensures Listed(configs, p[|p| - 1])
    decreases |p|
  {
    if |p| > 1 {
      var q := p[..|p| - 1];
      assert forall i :: 0 <= i < |q| - 1 ==> Edge(HeldGraph(ss), q[i], q[i + 1]) by {
        forall i | 0 <= i < |q| - 1
          ensures Edge(HeldGraph(ss), q[i], q[i + 1])
        {
          assert Edge(HeldGraph(ss), p[i], p[i + 1]);
        }
      }
      WalkStaysListed(ss, configs, q);
      assert Edge(HeldGraph(ss), p[|p| - 2], p[|p| - 1]);
      var i, j := HeldEdge(ss, p[|p| - 2], p[|p| - 1]);
      assert ss[i].config in configs;
      var c :| 0 <= c < |configs| && configs[c] == ss[i].config;
    }
  }

  lemma NeededIsListed(ss: seq<Svc>, configs: seq<ServiceConfig>, roots: set<string>, name: string)
    requires ShowsExactly(ss, configs) && DependenciesListed(configs) && UniqueNames(ss)
    requires (forall n :: n in roots ==> Listed(configs, n)) && NeededFor(HeldGraph(ss), roots, name)
    ensures Listed(configs, name)
  {
    hide ShowsExactly, Listed;
    var root :| root in roots && Leads(HeldGraph(ss), root, name);
    var p := LeadsWalk(HeldGraph(ss), root, name);
    WalkStaysListed(ss, configs, p);
  }

  predicate StopOrNeededStart(e: Event, scope: Scope) {
    e.StopRequested? || ((e.Launched? || e.LaunchRefused?) && scope(e.name))
  }

  /** Where the service of this entry is, it has become what the start makes of it. */
  predicate EntryGoes(m: Mgr, r: Mgr, config: ServiceConfig, started: set<string>, scope: Scope) {
    exists j :: 0 <= j < |r.services| && r.services[j].config == config
      && MayHaveGone(Entered(m.services, config), r.services[j], r, |m.log|, started, scope)
  }

  lemma WentSinceEarlier(s: Svc, x: Svc, ss: seq<Svc>, log: Log, base: nat, earlier: nat)
    requires Went(StartCommand, s, x, ss, log, base) && earlier <= base
    ensures Went(StartCommand, s, x, ss, log, earlier)
  {}

  lemma EntryGone(m: Mgr, mid: Mgr, r: Mgr, config: ServiceConfig, started: set<string>, scope: Scope)
    requires Started(mid, r, started, scope) && |m.log| <= |mid.log| && Entered(m.services, config) in mid.services
    ensures EntryGoes(m, r, config, started, scope)
  {
    hide Went;
    var s := Entered(m.services, config);
    var j :| 0 <= j < |mid.services| && mid.services[j] == s;
    var x := r.services[j];
    assert SameSettings(s, x) && MayHaveGone(s, x, r, |mid.log|, started, scope);
    if Went(StartCommand, s, x, r.services, r.log, |mid.log|) {
      WentSinceEarlier(s, x, r.services, r.log, |mid.log|, |m.log|);
    }
  }

  lemma EventsAre(m: Mgr, mid: Mgr, r: Mgr, scope: Scope)
    requires OnlyStops(m.log, mid.log) && StartsWithin(mid.log, r.log, scope)
    ensures m.log <= r.log && forall k :: |m.log| <= k < |r.log| ==> StopOrNeededStart(r.log[k], scope)
  {
    forall k | |m.log| <= k < |r.log|
      ensures StopOrNeededStart(r.log[k], scope)
    {
      if k < |mid.log| {
        assert r.log[k] == mid.log[k];
      }
    }
  }

  lemma UnlistedStays(mid: Mgr, r: Mgr, configs: seq<ServiceConfig>, started: set<string>, i: nat)
    requires Started(mid, r, started, ScopeOf(HeldGraph(mid.services), started)) && i < |mid.services|
    requires ShowsExactly(mid.services, configs) && DependenciesListed(configs) && UniqueNames(mid.services)
    requires (forall n :: n in started ==> Listed(configs, n)) && !Listed(configs, mid.services[i].config.name)
    ensures |r.services| == |mid.services| && r.services[i] == mid.services[i]
  {
    hide ShowsExactly, Listed, Went;
    var name := mid.services[i].config.name;
    var scope := ScopeOf(HeldGraph(mid.services), started);
    assert MayHaveGone(mid.services[i], r.services[i], r, |mid.log|, started, scope);
    if NeededFor(HeldGraph(mid.services), started, name) {
      NeededIsListed(mid.services, configs, started, name);
    }
  }

  /**
   What a reload outside a shutdown does to every service. Each listed entry has its service, as it was
   but for the settings, or new; every one that comes anew and has autostart has gone as a start should,
   what it needs may have, and nothing else was touched. Every service that is not listed was stopped and
   is being removed. And nothing was launched but those that come anew with autostart and what they need.
   */
  lemma ReloadGoes(m: Mgr, configs: seq<ServiceConfig>, env: Env, now: Instant)
    requires WellManaged(m) && ValidConfigs(configs) && !m.shuttingDown
    ensures var r := Apply(m, configs, env, now).mgr;
            var started := StartNames(m.services, configs);
            var scope := ScopeOf(HeldGraph(r.services), started);
            && (forall c :: c in configs ==> EntryGoes(m, r, c, started, scope))
            && |m.services| <= |r.services|
            && (forall i :: 0 <= i < |m.services| && !Listed(configs, m.services[i].config.name) ==>
                  WasDropped(m.services[i], r.services[i]))
            && m.log <= r.log && forall k :: |m.log| <= k < |r.log| ==> StopOrNeededStart(r.log[k], scope)
  {
    hide Prepared, StartAdded, Started, StartNames, ShowsExactly, EntryGoes, WasDropped, OnlyStops, Entered, Listed;
    hide StopOrNeededStart, ScopeOf, UniqueNames, Selected, Processes, LaunchesSafe, DroppedQuiet, ActiveClosed;
    var p := Prepared(m, configs, env, now);
    var mid, started := p.mgr, StartNames(m.services, configs);
    var r := StartAdded(mid, p.added, env, now);
    ReloadIs(m, configs, env, now);
    PreparedIs(m, configs, env, now);
    SelectedAre(m.services, mid.services, configs);
    var scope := ScopeOf(HeldGraph(mid.services), started);
    StartedNone(mid, scope);
    AddedStart(mid, mid, p.added, {}, started, env, now);
    assert {} + started == started;
    SameConfigsKeep(mid.services, r.services);
    StopsOnlyAdd(m.log, mid.log);
    forall c | c in configs
      ensures EntryGoes(m, r, c, started, scope)
    {
      EntryGone(m, mid, r, c, started, scope);
    }
    StartNamesListed(m.services, configs);
    forall i | 0 <= i < |m.services| && !Listed(configs, m.services[i].config.name)
      ensures WasDropped(m.services[i], r.services[i])
    {
      DroppedName(m.services[i], mid.services[i]);
      UnlistedStays(mid, r, configs, started, i);
    }
    StartedLog(mid, r, started, scope);
    EventsAre(m, mid, r, scope);
  }

  lemma ReloadIs(m: Mgr, configs: seq<ServiceConfig>, env: Env, now: Instant)
    requires AllOk(m.services)
    ensures var p := Prepared(m, configs, env, now);
            p.added == MergeAll(Merge(m, [], ReloadSummary(0, 0, 0)), configs, env, now).added &&
            Apply(m, configs, env, now).mgr == StartAdded(p.mgr, p.added, env, now)
  {}

  lemma StopsOnlyAdd(a: Log, b: Log)
    requires OnlyStops(a, b)
    ensures |a| <= |b|
  {}

  lemma StartedLog(m: Mgr, r: Mgr, started: set<string>, scope: Scope)
    requires Started(m, r, started, scope)
    ensures StartsWithin(m.log, r.log, scope) && |r.services| == |m.services|
  {}

  lemma DroppedName(s: Svc, x: Svc)
    requires WasDropped(s, x)
    ensures x.config.name == s.config.name
  {}

  lemma StartNamesListed(ss: seq<Svc>, configs: seq<ServiceConfig>)
    ensures forall n :: n in StartNames(ss, configs) ==> Listed(configs, n)
  {
    forall n | n in StartNames(ss, configs)
      ensures Listed(configs, n)
    {
      var c :| c in configs && c.autostart && ComesAnew(ss, c.name) && c.name == n;
      InList(configs, c);
    }
  }

  // ----- the summary

  lemma {:induction false} AddedIsCounted(a: Merge, configs: seq<ServiceConfig>, env: Env, now: Instant)
    requires AllOk(a.mgr.services)
    ensures var r := MergeAll(a, configs, env, now);
            r.summary.added + |a.added| == a.summary.added + |r.added|
    decreases |configs|
  {
    hide Act;
    if configs != [] {
      AddedIsCounted(MergeOne(a, configs[0], env, now), configs[1..], env, now);
    }
  }

  lemma {:induction false} RetireAddsNothing(a: Merge, configs: seq<ServiceConfig>, i: nat, env: Env, now: Instant)
    requires AllOk(a.mgr.services) && i <= |a.mgr.services|
    ensures RetireFrom(a, configs, i, env, now).summary.added == a.summary.added
    decreases |a.mgr.services| - i
  {
    hide Act, Listed;
    if i < |a.mgr.services| {
      RetireAddsNothing(RetireNext(a, configs, i, env, now), configs, i + 1, env, now);
    }
  }

  /**
   The summary of a reload: as many added as entries come anew, as many removed as services stayed before
   and are not listed now, and as many changed as stay with other settings.
   */
  lemma ReloadCounts(m: Mgr, configs: seq<ServiceConfig>, env: Env, now: Instant)
    requires WellManaged(m) && ValidConfigs(configs)
    ensures var s := Apply(m, configs, env, now).summary;
            && s.added == |Newcomers(m.services, configs)|
            && s.removed == CountActive(m.services) + |Newcomers(m.services, configs)| - |configs|
            && s.changed == CountChanged(m.services, configs)
  {
    hide MergeAll, RetireFrom, StartAdded, Processes, LaunchesSafe, DroppedQuiet, ActiveClosed, Newcomers;
    var a := Merge(m, [], ReloadSummary(0, 0, 0));
    var b := MergeAll(a, configs, env, now);
    MergeAdds(a, configs, env, now);
    assert [] + Newcomers(m.services, configs) == Newcomers(m.services, configs);
    AddedIsCounted(a, configs, env, now);
    RetireAddsNothing(b, configs, 0, env, now);
    ApplyRefines(m, configs, env, now);
  }
}
