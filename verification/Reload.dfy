/**
 A reload with a valid configuration: afterwards the services that stay are exactly the listed
 ones with exactly the listed settings, the dropped ones are quiet, and the dependencies among
 everything still held have no cycle, old settings of dropped services included.
 */
module Reload {
  import opened ServiceConfigs
  import opened Launching
  import opened ServiceSpec
  import opened ManagerSpec
  import opened MicroSteps
  import opened Graphs
  import opened Runs

  function CountActive(ss: seq<Svc>): nat {
    if ss == [] then 0 else CountActive(ss[..|ss| - 1]) + if ss[|ss| - 1].removing then 0 else 1
  }

  lemma {:induction false} CountUpdate(ss: seq<Svc>, i: nat, t: Svc)
    requires i < |ss|
    ensures CountActive(ss[i := t]) + (if ss[i].removing then 0 else 1) ==
            CountActive(ss) + (if t.removing then 0 else 1)
  {
    var tt := ss[i := t];
    if i == |ss| - 1 {
      assert tt[..i] == ss[..i];
    } else {
      CountUpdate(ss[..|ss| - 1], i, t);
      assert tt[..|ss| - 1] == ss[..|ss| - 1][i := t];
    }
  }

  // ----- merging the new list

  ghost predicate Has(ss: seq<Svc>, config: ServiceConfig) {
    exists i :: 0 <= i < |ss| && ss[i].config == config && !ss[i].removing
  }

  /** What merging `configs` has done to the services it started from. */
  ghost predicate Merged(a: Merge, r: Merge, configs: seq<ServiceConfig>) {
    var ss, tt := a.mgr.services, r.mgr.services;
    && |ss| <= |tt|
    && (forall i :: 0 <= i < |ss| ==> tt[i].config.name == ss[i].config.name)
    && (forall i :: 0 <= i < |ss| && !Listed(configs, ss[i].config.name) ==> tt[i] == ss[i])
    && (forall i :: |ss| <= i < |tt| ==> Listed(configs, tt[i].config.name))
    && (forall c :: 0 <= c < |configs| ==> Has(tt, configs[c]))
    && (forall n :: n in r.added ==> n in a.added || Listed(configs, n))
    && r.summary.removed == a.summary.removed
    && CountActive(tt) + a.summary.added == CountActive(ss) + r.summary.added
  }

  lemma MergeOneReaches(a: Merge, config: ServiceConfig, wake: seq<ServiceConfig>, env: Env, now: Instant)
    requires Inv(a.mgr) && config in wake
    ensures Reaches(a.mgr, MergeOne(a, config, env, now).mgr, wake, env, now)
  {
    var m := a.mgr;
    var k := FindIndex(m.services, config.name);
    if k == |m.services| {
      ReachesBy(m, AddStep(config), wake, env, now);
    } else {
      var changed := m.services[k].config != config;
      var replaced := if changed then Act(m, k, ReplaceOp(config), env, now).mgr else m;
      if changed {
        ActReaches(m, k, ReplaceOp(config), wake, env, now);
      } else {
        ReachesSelf(m, wake, env, now);
      }
      if m.services[k].removing {
        ActReaches(replaced, k, ReaddOp, wake, env, now);
        ReachesTrans(m, replaced, Act(replaced, k, ReaddOp, env, now).mgr, wake, env, now);
      }
    }
  }

  lemma AddedMerges(a: Merge, r: Merge, config: ServiceConfig)
    requires config.name !in Names(a.mgr.services)
    requires r.mgr.services == a.mgr.services + [NewService(config)]
    requires r.added == a.added + [config.name] && r.summary == a.summary.(added := a.summary.added + 1)
    ensures Merged(a, r, [config])
  {
    var ss, tt := a.mgr.services, r.mgr.services;
    assert [config][0].name == config.name;
    assert tt[..|tt| - 1] == ss;
    assert tt[|ss|].config == config;
    assert Has(tt, config);
  }

  lemma ChangedMerges(a: Merge, r: Merge, config: ServiceConfig, k: nat)
    requires k < |a.mgr.services| && a.mgr.services[k].config.name == config.name && UniqueNames(a.mgr.services)
    requires r.mgr.services == a.mgr.services[k := a.mgr.services[k].(config := config, removing := false)]
    requires forall n :: n in r.added ==> n in a.added || n == config.name
    requires r.summary.removed == a.summary.removed
    requires r.summary.added == a.summary.added + if a.mgr.services[k].removing then 1 else 0
    ensures Merged(a, r, [config])
  {
    var ss, tt := a.mgr.services, r.mgr.services;
    assert [config][0].name == config.name;
    CountUpdate(ss, k, tt[k]);
    assert Has(tt, config);
  }

  lemma ReplaceOnly(m: Mgr, k: nat, config: ServiceConfig, env: Env, now: Instant)
    requires AllOk(m.services) && k < |m.services|
    ensures Act(m, k, ReplaceOp(config), env, now).mgr.services ==
            m.services[k := m.services[k].(config := config)]
  {}

  lemma ReaddOnly(m: Mgr, k: nat, env: Env, now: Instant)
    requires AllOk(m.services) && k < |m.services|
    ensures Act(m, k, ReaddOp, env, now).mgr.services == m.services[k := m.services[k].(removing := false)]
  {}

  lemma MergedServices(a: Merge, config: ServiceConfig, k: nat, env: Env, now: Instant)
    requires AllOk(a.mgr.services) && k == FindIndex(a.mgr.services, config.name) && k < |a.mgr.services|
    ensures var s := a.mgr.services[k];
            MergeOne(a, config, env, now).mgr.services ==
            a.mgr.services[k := s.(config := config, removing := false)]
  {
    var m := a.mgr;
    var s := m.services[k];
    var changed := s.config != config;
    var replaced := if changed then Act(m, k, ReplaceOp(config), env, now).mgr else m;
    ReplaceOnly(m, k, config, env, now);
    assert s.config == config ==> s.(config := config) == s;
    assert replaced.services == m.services[k := s.(config := config)];
    ReaddOnly(replaced, k, env, now);
    assert !s.removing ==> s.(config := config, removing := false) == s.(config := config);
  }

  lemma MergeOneMerges(a: Merge, config: ServiceConfig, env: Env, now: Instant)
    requires AllOk(a.mgr.services) && UniqueNames(a.mgr.services)
    ensures Merged(a, MergeOne(a, config, env, now), [config])
  {
    var m := a.mgr;
    var r := MergeOne(a, config, env, now);
    var k := FindIndex(m.services, config.name);
    if k == |m.services| {
      AddedMerges(a, r, config);
    } else {
      MergedServices(a, config, k, env, now);
      ChangedMerges(a, r, config, k);
    }
  }

  lemma ListedSplit(configs: seq<ServiceConfig>, n: string)
    requires configs != []
    ensures Listed(configs, n) <==> Listed([configs[0]], n) || Listed(configs[1..], n)
  {
    if Listed(configs, n) {
      var c :| 0 <= c < |configs| && configs[c].name == n;
      if c == 0 {
        assert [configs[0]][0].name == n;
      } else {
        assert configs[1..][c - 1].name == n;
      }
    }
  }

  lemma MergedSelf(a: Merge)
    ensures Merged(a, a, [])
  {}

  lemma {:induction false} MergeAllMerges(a: Merge, configs: seq<ServiceConfig>, wake: seq<ServiceConfig>, env: Env,
                                          now: Instant)
    requires Inv(a.mgr) && UniqueConfigs(configs) && forall c :: c in configs ==> c in wake
    ensures var r := MergeAll(a, configs, env, now);
            Reaches(a.mgr, r.mgr, wake, env, now) && Merged(a, r, configs)
    decreases |configs|
  {
    hide ActiveClosed, MergeOne, Merged;
    if configs == [] {
      ReachesSelf(a.mgr, wake, env, now);
      MergedSelf(a);
    } else {
      var b := MergeOne(a, configs[0], env, now);
      MergeOneReaches(a, configs[0], wake, env, now);
      MergeOneMerges(a, configs[0], env, now);
      ReachesKeepsInv(a.mgr, b.mgr, wake, env, now);
      MergeAllMerges(b, configs[1..], wake, env, now);
      var r := MergeAll(b, configs[1..], env, now);
      ReachesTrans(a.mgr, b.mgr, r.mgr, wake, env, now);
      MergedTrans(a, b, r, configs);
    }
  }

  lemma MergedTrans(a: Merge, b: Merge, r: Merge, configs: seq<ServiceConfig>)
    requires configs != [] && UniqueConfigs(configs)
    requires Merged(a, b, [configs[0]]) && Merged(b, r, configs[1..])
    ensures Merged(a, r, configs)
  {
    forall n: string
      ensures Listed(configs, n) <==> Listed([configs[0]], n) || Listed(configs[1..], n)
    {
      ListedSplit(configs, n);
    }
    HasAll(a, b, r, configs);
  }

  lemma HasAll(a: Merge, b: Merge, r: Merge, configs: seq<ServiceConfig>)
    requires configs != [] && UniqueConfigs(configs)
    requires Merged(a, b, [configs[0]]) && Merged(b, r, configs[1..])
    ensures forall c :: 0 <= c < |configs| ==> Has(r.mgr.services, configs[c])
  {
    var tt := r.mgr.services;
    forall c | 0 <= c < |configs|
      ensures Has(tt, configs[c])
    {
      if c == 0 {
        assert Has(b.mgr.services, [configs[0]][0]);
        var i :| 0 <= i < |b.mgr.services| && b.mgr.services[i].config == configs[0] && !b.mgr.services[i].removing;
        assert !Listed(configs[1..], configs[0].name);
        assert tt[i] == b.mgr.services[i];
      } else {
        assert Has(tt, configs[1..][c - 1]);
      }
    }
  }

  // ----- retiring what is no longer listed

  ghost predicate Retired(a: Merge, r: Merge, configs: seq<ServiceConfig>, from: nat) {
    var ss, tt := a.mgr.services, r.mgr.services;
    && |ss| == |tt|
    && (forall i :: 0 <= i < |ss| ==> tt[i].config == ss[i].config)
    && (forall i :: 0 <= i < |ss| && (i < from || Listed(configs, ss[i].config.name)) ==> tt[i] == ss[i])
    && (forall i :: from <= i < |ss| && !Listed(configs, ss[i].config.name) ==> tt[i].removing)
    && CountActive(tt) + r.summary.removed == CountActive(ss) + a.summary.removed
    && r.summary.added == a.summary.added
  }

  /** The same for service i alone. */
  ghost predicate RetiredAt(a: Merge, r: Merge, configs: seq<ServiceConfig>, i: nat) {
    var ss, tt := a.mgr.services, r.mgr.services;
    && |ss| == |tt| && i < |ss|
    && (forall j :: 0 <= j < |ss| && j != i ==> tt[j] == ss[j])
    && tt[i].config == ss[i].config
    && (if Listed(configs, ss[i].config.name) then tt[i] == ss[i] else tt[i].removing)
    && CountActive(tt) + r.summary.removed == CountActive(ss) + a.summary.removed
    && r.summary.added == a.summary.added
  }

  lemma RetireNextRetires(a: Merge, configs: seq<ServiceConfig>, i: nat, wake: seq<ServiceConfig>, env: Env,
                          now: Instant)
    requires Inv(a.mgr) && i < |a.mgr.services|
    ensures var r := RetireNext(a, configs, i, env, now);
            Reaches(a.mgr, r.mgr, wake, env, now) && RetiredAt(a, r, configs, i)
  {
    if !Listed(configs, a.mgr.services[i].config.name) && !a.mgr.services[i].removing {
      ActReaches(a.mgr, i, RetireOp, wake, env, now);
      CountUpdate(a.mgr.services, i, RetireNext(a, configs, i, env, now).mgr.services[i]);
    } else {
      ReachesSelf(a.mgr, wake, env, now);
    }
  }

  lemma RetiredTrans(a: Merge, b: Merge, r: Merge, configs: seq<ServiceConfig>, i: nat)
    requires RetiredAt(a, b, configs, i) && Retired(b, r, configs, i + 1)
    ensures Retired(a, r, configs, i)
  {}

  lemma RetiredSelf(a: Merge, configs: seq<ServiceConfig>)
    ensures Retired(a, a, configs, |a.mgr.services|)
  {}

  lemma {:induction false} RetireFromRetires(a: Merge, configs: seq<ServiceConfig>, i: nat, wake: seq<ServiceConfig>,
                                             env: Env, now: Instant)
    requires Inv(a.mgr) && i <= |a.mgr.services|
    ensures var r := RetireFrom(a, configs, i, env, now);
            Reaches(a.mgr, r.mgr, wake, env, now) && Retired(a, r, configs, i)
    decreases |a.mgr.services| - i
  {
    hide ActiveClosed, RetireNext, Retired, RetiredAt;
    if i == |a.mgr.services| {
      ReachesSelf(a.mgr, wake, env, now);
      RetiredSelf(a, configs);
    } else {
      var b := RetireNext(a, configs, i, env, now);
      RetireNextRetires(a, configs, i, wake, env, now);
      ReachesKeepsInv(a.mgr, b.mgr, wake, env, now);
      RetireFromRetires(b, configs, i + 1, wake, env, now);
      var r := RetireFrom(b, configs, i + 1, env, now);
      ReachesTrans(a.mgr, b.mgr, r.mgr, wake, env, now);
      RetiredTrans(a, b, r, configs, i);
    }
  }

  // ----- the listed services, and only they, stay

  /**
   The simple view of a reload: the services that stay are exactly the listed ones, with exactly
   the listed settings.
   */
  ghost predicate ShowsExactly(ss: seq<Svc>, configs: seq<ServiceConfig>) {
    && (forall i :: 0 <= i < |ss| ==> (!ss[i].removing <==> Listed(configs, ss[i].config.name)))
    && (forall i :: 0 <= i < |ss| && !ss[i].removing ==> ss[i].config in configs)
    && (forall c :: 0 <= c < |configs| ==> Has(ss, configs[c]))
  }

  lemma ShownAfterRetiring(a: Merge, b: Merge, r: Merge, configs: seq<ServiceConfig>)
    requires UniqueNames(b.mgr.services) && UniqueConfigs(configs)
    requires Merged(a, b, configs) && Retired(b, r, configs, 0)
    ensures ShowsExactly(r.mgr.services, configs)
  {
    var ss, tt := b.mgr.services, r.mgr.services;
    forall i | 0 <= i < |tt| && Listed(configs, tt[i].config.name)
      ensures !tt[i].removing && tt[i].config in configs
    {
      var c :| 0 <= c < |configs| && configs[c].name == tt[i].config.name;
      assert Has(ss, configs[c]);
      var j :| 0 <= j < |ss| && ss[j].config == configs[c] && !ss[j].removing;
      assert ss[j].config.name == ss[i].config.name;
      assert i == j;
    }
    forall c | 0 <= c < |configs|
      ensures Has(tt, configs[c])
    {
      assert Has(ss, configs[c]);
      var j :| 0 <= j < |ss| && ss[j].config == configs[c] && !ss[j].removing;
      assert Listed(configs, ss[j].config.name);
      assert tt[j] == ss[j];
    }
  }

  lemma ShownIsClosed(ss: seq<Svc>, configs: seq<ServiceConfig>)
    requires ShowsExactly(ss, configs) && DependenciesListed(configs) && UniqueNames(ss)
    ensures ActiveClosed(ss)
    ensures forall n :: Listed(configs, n) ==> DepsActive(ss, [n])
  {
    forall n | Listed(configs, n)
      ensures DepsActive(ss, [n])
    {
      var c :| 0 <= c < |configs| && configs[c].name == n;
      assert Has(ss, configs[c]);
      var i :| 0 <= i < |ss| && ss[i].config == configs[c] && !ss[i].removing;
      var k := FindIndex(ss, n);
      assert k == i;
    }
    forall i | 0 <= i < |ss| && !ss[i].removing
      ensures DepsActive(ss, ss[i].config.dependsOn)
    {
      var c :| 0 <= c < |configs| && configs[c] == ss[i].config;
      forall d | d in ss[i].config.dependsOn
        ensures var k := FindIndex(ss, d); k < |ss| && !ss[k].removing
      {
        assert DepsActive(ss, [d]);
        assert d in [d];
      }
    }
  }

  // ----- no cycle among everything held

  lemma ListedEdge(configs: seq<ServiceConfig>, config: ServiceConfig, d: string)
    requires config in configs && d in config.dependsOn && Listed(configs, d)
    ensures Edge(GraphOf(configs), config.name, d)
  {
    var g := GraphOf(configs);
    var c :| 0 <= c < |configs| && configs[c] == config;
    assert g[c].name == config.name && d in g[c].dependsOn;
    var k :| 0 <= k < |configs| && configs[k].name == d;
    assert g[k].name == d;
  }

  lemma HeldEdge(ss: seq<Svc>, u: string, v: string) returns (i: nat, j: nat)
    requires Edge(HeldGraph(ss), u, v)
    ensures i < |ss| && ss[i].config.name == u && v in ss[i].config.dependsOn
    ensures j < |ss| && ss[j].config.name == v
  {
    var g := HeldGraph(ss);
    i :| 0 <= i < |g| && g[i].name == u && v in g[i].dependsOn;
    j :| 0 <= j < |g| && g[j].name == v;
  }

  lemma HeldEdgeIs(ss: seq<Svc>, i: nat, j: nat)
    requires i < |ss| && j < |ss| && ss[j].config.name in ss[i].config.dependsOn
    ensures Edge(HeldGraph(ss), ss[i].config.name, ss[j].config.name)
  {
    var g := HeldGraph(ss);
    assert g[i].name == ss[i].config.name && g[j].name == ss[j].config.name;
  }

  ghost predicate OldSettings(ss: seq<Svc>, tt: seq<Svc>, configs: seq<ServiceConfig>) {
    forall i :: 0 <= i < |tt| && !Listed(configs, tt[i].config.name) ==> i < |ss| && tt[i].config == ss[i].config
  }

  /** The rank after a reload: listed services by the new list, dropped ones above them all. */
  function NewRank(n: string, configs: seq<ServiceConfig>, listed: map<string, nat>, dropped: map<string, nat>,
                   top: nat): nat {
    if Listed(configs, n) then
      if n in listed then listed[n] else 0
    else
      top + if n in dropped then dropped[n] else 0
  }

  lemma EdgeDescends(ss: seq<Svc>, tt: seq<Svc>, configs: seq<ServiceConfig>, listed: map<string, nat>,
                     dropped: map<string, nat>, top: nat, u: string, v: string)
    requires ValidConfigs(configs) && ShowsExactly(tt, configs) && OldSettings(ss, tt, configs)
    requires Ranked(GraphOf(configs), listed) && forall n :: n in listed ==> listed[n] < top
    requires Ranked(HeldGraph(ss), dropped)
    requires Edge(HeldGraph(tt), u, v)
    ensures NewRank(v, configs, listed, dropped, top) < NewRank(u, configs, listed, dropped, top)
  {
    var i, j := HeldEdge(tt, u, v);
    InGraph(ss, tt, configs, i);
    InGraph(ss, tt, configs, j);
    if Listed(configs, u) {
      assert !tt[i].removing;
      var c :| 0 <= c < |configs| && configs[c] == tt[i].config;
      assert Listed(configs, v);
      ListedEdge(configs, tt[i].config, v);
    } else if !Listed(configs, v) {
      HeldEdgeIs(ss, i, j);
    }
  }

  /**
   Rank the listed services by the new configuration and put every dropped one above them all,
   in the order they had before: listed services depend only on listed ones, so no edge climbs.
   */
  lemma ReloadKeepsAcyclic(ss: seq<Svc>, tt: seq<Svc>, configs: seq<ServiceConfig>)
    requires Acyclic(HeldGraph(ss)) && ValidConfigs(configs) && ShowsExactly(tt, configs)
    requires OldSettings(ss, tt, configs)
    ensures Acyclic(HeldGraph(tt))
  {
    var listed := AcyclicHasRank(GraphOf(configs));
    var dropped := AcyclicHasRank(HeldGraph(ss));
    var top := |NodeNames(GraphOf(configs))|;
    var held := HeldGraph(tt);
    var rank := map n | n in NodeNames(held) :: NewRank(n, configs, listed, dropped, top);
    forall u, v | Edge(held, u, v)
      ensures rank[v] < rank[u]
    {
      EdgeEnds(held, u, v);
      EdgeDescends(ss, tt, configs, listed, dropped, top, u, v);
    }
    RankedIsAcyclic(held, rank);
  }

  lemma InGraph(ss: seq<Svc>, tt: seq<Svc>, configs: seq<ServiceConfig>, i: nat)
    requires i < |tt|
    requires !Listed(configs, tt[i].config.name) ==> i < |ss| && tt[i].config == ss[i].config
    ensures if Listed(configs, tt[i].config.name) then tt[i].config.name in NodeNames(GraphOf(configs))
            else tt[i].config.name in NodeNames(HeldGraph(ss))
  {
    if Listed(configs, tt[i].config.name) {
      var c :| 0 <= c < |configs| && configs[c].name == tt[i].config.name;
      assert GraphOf(configs)[c].name == tt[i].config.name;
    } else {
      assert HeldGraph(ss)[i].name == tt[i].config.name;
    }
  }

  // ----- counting

  function ActiveNames(ss: seq<Svc>): set<string> {
    set i | 0 <= i < |ss| && !ss[i].removing :: ss[i].config.name
  }

  function ConfigNames(configs: seq<ServiceConfig>): set<string> {
    set c | 0 <= c < |configs| :: configs[c].name
  }

  lemma {:induction false} CountIsNames(ss: seq<Svc>)
    requires UniqueNames(ss)
    ensures |ActiveNames(ss)| == CountActive(ss)
    decreases |ss|
  {
    if ss == [] {
      assert ActiveNames(ss) == {};
    } else {
      hide ActiveNames;
      ActiveNamesOn(ss);
      CountIsNames(ss[..|ss| - 1]);
    }
  }

  lemma ActiveNamesOn(ss: seq<Svc>)
    requires UniqueNames(ss) && ss != []
    ensures var rest, last := ActiveNames(ss[..|ss| - 1]), ss[|ss| - 1];
            && ActiveNames(ss) == (if last.removing then rest else rest + {last.config.name})
            && last.config.name !in rest
  {
    var rest := ss[..|ss| - 1];
    assert forall i :: 0 <= i < |rest| ==> rest[i] == ss[i];
  }

  lemma {:induction false} ConfigCount(configs: seq<ServiceConfig>)
    requires UniqueConfigs(configs)
    ensures |ConfigNames(configs)| == |configs|
    decreases |configs|
  {
    if configs == [] {
      assert ConfigNames(configs) == {};
    } else {
      var rest, last := configs[..|configs| - 1], configs[|configs| - 1];
      ConfigCount(rest);
      assert ConfigNames(configs) == ConfigNames(rest) + {last.name};
      assert last.name !in ConfigNames(rest);
    }
  }

  lemma ShownCount(ss: seq<Svc>, configs: seq<ServiceConfig>)
    requires ShowsExactly(ss, configs) && UniqueNames(ss) && UniqueConfigs(configs)
    ensures CountActive(ss) == |configs|
  {
    CountIsNames(ss);
    ConfigCount(configs);
    forall n | n in ConfigNames(configs)
      ensures n in ActiveNames(ss)
    {
      var c :| 0 <= c < |configs| && configs[c].name == n;
      assert Has(ss, configs[c]);
      var i :| 0 <= i < |ss| && ss[i].config == configs[c] && !ss[i].removing;
      assert ss[i].config.name == n;
    }
    forall n | n in ActiveNames(ss)
      ensures n in ConfigNames(configs)
    {
      var i :| 0 <= i < |ss| && !ss[i].removing && ss[i].config.name == n;
      assert Listed(configs, n);
    }
    assert ActiveNames(ss) == ConfigNames(configs);
  }

  // ----- what has changed

  /** A service that stays has other settings in the new list. */
  predicate Changes(ss: seq<Svc>, config: ServiceConfig) {
    var k := FindIndex(ss, config.name);
    k < |ss| && !ss[k].removing && ss[k].config != config
  }

  function CountChanged(ss: seq<Svc>, configs: seq<ServiceConfig>): nat {
    if configs == [] then 0
    else (if Changes(ss, configs[0]) then 1 else 0) + CountChanged(ss, configs[1..])
  }

  lemma FindOther(ss: seq<Svc>, t: Svc, k: nat, name: string)
    requires t.config.name != name && k < |ss| && ss[k].config.name != name
    ensures FindIndex(ss[k := t], name) == FindIndex(ss, name)
  {
    var tt := ss[k := t];
    assert forall i :: 0 <= i < |ss| ==> (tt[i].config.name == name <==> ss[i].config.name == name);
    var a, b := FindIndex(ss, name), FindIndex(tt, name);
    if a < |ss| {
      assert tt[a].config.name == name;
    }
    if b < |ss| {
      assert ss[b].config.name == name;
    }
  }

  lemma FindAppended(ss: seq<Svc>, t: Svc, name: string)
    requires t.config.name != name
    ensures var k := FindIndex(ss, name);
            FindIndex(ss + [t], name) == if k < |ss| then k else k + 1
  {
    var tt := ss + [t];
    var a, b := FindIndex(ss, name), FindIndex(tt, name);
    if a < |ss| {
      assert tt[a].config.name == name;
    }
    if b < |ss| {
      assert ss[b].config.name == name;
    }
  }

  lemma MergeOneChanges(a: Merge, config: ServiceConfig, other: ServiceConfig, env: Env, now: Instant)
    requires AllOk(a.mgr.services) && other.name != config.name
    ensures Changes(MergeOne(a, config, env, now).mgr.services, other) == Changes(a.mgr.services, other)
  {
    var ss := a.mgr.services;
    var k := FindIndex(ss, config.name);
    if k == |ss| {
      FindAppended(ss, NewService(config), other.name);
    } else {
      MergedServices(a, config, k, env, now);
      FindOther(ss, ss[k].(config := config, removing := false), k, other.name);
    }
  }

  lemma {:induction false} CountSameChanges(a: Merge, config: ServiceConfig, configs: seq<ServiceConfig>, env: Env,
                                            now: Instant)
    requires AllOk(a.mgr.services) && forall c :: c in configs ==> c.name != config.name
    ensures CountChanged(MergeOne(a, config, env, now).mgr.services, configs) == CountChanged(a.mgr.services, configs)
    decreases |configs|
  {
    hide MergeOne, Changes;
    if configs != [] {
      MergeOneChanges(a, config, configs[0], env, now);
      CountSameChanges(a, config, configs[1..], env, now);
    }
  }

  /** The summary counts the services that stay and have other settings in the new list. */
  lemma {:induction false} MergeCountsChanges(a: Merge, configs: seq<ServiceConfig>, env: Env, now: Instant)
    requires AllOk(a.mgr.services) && UniqueConfigs(configs)
    ensures MergeAll(a, configs, env, now).summary.changed ==
            a.summary.changed + CountChanged(a.mgr.services, configs)
    decreases |configs|
  {
    hide MergeOne, Changes;
    if configs != [] {
      var b := MergeOne(a, configs[0], env, now);
      CountedOnce(a, configs[0], env, now);
      CountSameChanges(a, configs[0], configs[1..], env, now);
      MergeCountsChanges(b, configs[1..], env, now);
    }
  }

  lemma CountedOnce(a: Merge, config: ServiceConfig, env: Env, now: Instant)
    requires AllOk(a.mgr.services)
    ensures MergeOne(a, config, env, now).summary.changed ==
            a.summary.changed + if Changes(a.mgr.services, config) then 1 else 0
  {
    hide Act;
  }

  lemma {:induction false} RetireCountsNoChange(a: Merge, configs: seq<ServiceConfig>, i: nat, env: Env, now: Instant)
    requires AllOk(a.mgr.services) && i <= |a.mgr.services|
    ensures RetireFrom(a, configs, i, env, now).summary.changed == a.summary.changed
    decreases |a.mgr.services| - i
  {
    hide Act;
    if i < |a.mgr.services| {
      RetireCountsNoChange(RetireNext(a, configs, i, env, now), configs, i + 1, env, now);
    }
  }

  // ----- the whole reload

  lemma StartIfAutostartReaches(m: Mgr, name: string, wake: seq<ServiceConfig>, env: Env, now: Instant)
    requires Inv(m) && ActiveClosed(m.services) && DepsActive(m.services, [name])
    ensures Reaches(m, StartIfAutostart(m, name, env, now), wake, env, now)
  {
    hide StartWithDependencies;
    assert name in [name];
    var k := FindIndex(m.services, name);
    if m.services[k].config.autostart && !m.shuttingDown {
      StartWithDependenciesReaches(m, k, false, [], wake, env, now);
    } else {
      ReachesSelf(m, wake, env, now);
    }
  }

  lemma {:induction false} StartAddedReaches(m: Mgr, added: seq<string>, wake: seq<ServiceConfig>, env: Env,
                                             now: Instant)
    requires Inv(m) && ActiveClosed(m.services) && DepsActive(m.services, added)
    ensures Reaches(m, StartAdded(m, added, env, now), wake, env, now)
    decreases |added|
  {
    hide ActiveClosed, StartIfAutostart;
    if added == [] {
      ReachesSelf(m, wake, env, now);
    } else {
      StartIfAutostartReaches(m, added[0], wake, env, now);
      var next := StartIfAutostart(m, added[0], env, now);
      ReachesKeepsInv(m, next, wake, env, now);
      SameConfigsKeep(m.services, next.services);
      DepsActiveSame(m.services, next.services, added);
      StartAddedReaches(next, added[1..], wake, env, now);
      ReachesTrans(m, next, StartAdded(m, added, env, now), wake, env, now);
    }
  }

  lemma ShownSame(ss: seq<Svc>, tt: seq<Svc>, configs: seq<ServiceConfig>)
    requires SameConfigs(ss, tt) && ShowsExactly(ss, configs)
    ensures ShowsExactly(tt, configs)
  {
    forall i | 0 <= i < |tt|
      ensures tt[i].config == ss[i].config && tt[i].removing == ss[i].removing
    {
      assert SameSettings(ss[i], tt[i]);
    }
    forall c | 0 <= c < |configs|
      ensures Has(tt, configs[c])
    {
      assert Has(ss, configs[c]);
      var i :| 0 <= i < |ss| && ss[i].config == configs[c] && !ss[i].removing;
      assert tt[i].config == configs[c];
    }
  }

  lemma {:induction false} CountSame(ss: seq<Svc>, tt: seq<Svc>)
    requires SameConfigs(ss, tt)
    ensures CountActive(ss) == CountActive(tt)
    decreases |ss|
  {
    if ss != [] {
      assert SameSettings(ss[|ss| - 1], tt[|ss| - 1]);
      var s, t := ss[..|ss| - 1], tt[..|tt| - 1];
      forall i | 0 <= i < |s|
        ensures SameSettings(s[i], t[i])
      {
        assert SameSettings(ss[i], tt[i]);
      }
      CountSame(s, t);
    }
  }

  /** Everything a reload promises, whatever the manager was doing. */
  lemma ApplyRefines(m: Mgr, configs: seq<ServiceConfig>, env: Env, now: Instant)
    requires WellManaged(m) && ValidConfigs(configs)
    ensures var r := Apply(m, configs, env, now);
            && Reaches(m, r.mgr, configs, env, now) && WellManaged(r.mgr)
            && ShowsExactly(r.mgr.services, configs)
            && CountActive(m.services) + r.summary.added == |configs| + r.summary.removed
            && r.summary.changed == CountChanged(m.services, configs)
  {
    hide ActiveClosed, MergeAll, RetireFrom, StartAdded, CountChanged;
    var wake := configs;
    var a := Merge(m, [], ReloadSummary(0, 0, 0));
    MergeAllMerges(a, configs, wake, env, now);
    var b := MergeAll(a, configs, env, now);
    ReachesKeepsInv(m, b.mgr, wake, env, now);
    RetireFromRetires(b, configs, 0, wake, env, now);
    var c := RetireFrom(b, configs, 0, env, now);
    ReachesTrans(m, b.mgr, c.mgr, wake, env, now);
    ReachesKeepsInv(m, c.mgr, wake, env, now);
    ShownAfterRetiring(a, b, c, configs);
    ShownIsClosed(c.mgr.services, configs);
    AddedActive(c.mgr.services, b.added, configs);
    StartAddedReaches(c.mgr, b.added, wake, env, now);
    var r := StartAdded(c.mgr, b.added, env, now);
    ReachesTrans(m, c.mgr, r, wake, env, now);
    ReachesKeepsInv(m, r, wake, env, now);
    ReloadKeepsAcyclic(m.services, c.mgr.services, configs);
    SameConfigsKeep(c.mgr.services, r.services);
    ShownSame(c.mgr.services, r.services, configs);
    ShownCount(c.mgr.services, configs);
    MergeCountsChanges(a, configs, env, now);
    RetireCountsNoChange(b, configs, 0, env, now);
  }

  /** A reload neither adds nor drops at once anything by a name that is not listed. */
  lemma ReloadKeepsOtherNames(m: Mgr, configs: seq<ServiceConfig>, env: Env, now: Instant, name: string)
    requires WellManaged(m) && ValidConfigs(configs) && !Listed(configs, name)
    ensures name in Names(Apply(m, configs, env, now).mgr.services) <==> name in Names(m.services)
  {
    hide ActiveClosed, Processes, LaunchesSafe, DroppedQuiet, MergeAll, RetireFrom, StartAdded, Merged, Retired, Names;
    var a := Merge(m, [], ReloadSummary(0, 0, 0));
    MergeAllMerges(a, configs, configs, env, now);
    var b := MergeAll(a, configs, env, now);
    ReachesKeepsInv(m, b.mgr, configs, env, now);
    RetireFromRetires(b, configs, 0, configs, env, now);
    var c := RetireFrom(b, configs, 0, env, now);
    OtherNames(a, b, c, StartAdded(c.mgr, b.added, env, now).services, configs, name);
  }

  lemma OtherNames(a: Merge, b: Merge, c: Merge, tt: seq<Svc>, configs: seq<ServiceConfig>, name: string)
    requires Merged(a, b, configs) && Retired(b, c, configs, 0) && SameConfigs(c.mgr.services, tt)
    requires !Listed(configs, name)
    ensures name in Names(tt) <==> name in Names(a.mgr.services)
  {
    var ss := a.mgr.services;
    forall i | 0 <= i < |tt|
      ensures tt[i].config.name == b.mgr.services[i].config.name
    {
      assert SameSettings(c.mgr.services[i], tt[i]);
    }
    if name in Names(ss) {
      var i :| 0 <= i < |ss| && ss[i].config.name == name;
      assert tt[i].config.name == name;
    }
  }

  lemma AddedActive(ss: seq<Svc>, added: seq<string>, configs: seq<ServiceConfig>)
    requires forall n :: n in added ==> Listed(configs, n)
    requires forall n :: Listed(configs, n) ==> DepsActive(ss, [n])
    ensures DepsActive(ss, added)
  {
    forall d | d in added
      ensures var k := FindIndex(ss, d); k < |ss| && !ss[k].removing
    {
      assert DepsActive(ss, [d]) && d in [d];
    }
  }
}
