/** Dependency graphs: what a cycle is, and why a graph without one can be ranked. */
module Graphs {
  import opened ServiceConfigs

  /** A service and the names it depends on. */
  datatype Node = Node(name: string, dependsOn: seq<string>)

  type Graph = seq<Node>

  function NodeOf(config: ServiceConfig): Node {
    Node(config.name, config.dependsOn)
  }

  function GraphOf(configs: seq<ServiceConfig>): (g: Graph)
    ensures |g| == |configs| && forall i :: 0 <= i < |g| ==> g[i] == NodeOf(configs[i])
  {
    seq(|configs|, i requires 0 <= i < |configs| => NodeOf(configs[i]))
  }

  function NodeNames(g: Graph): set<string> {
    set i | 0 <= i < |g| :: g[i].name
  }

  /** u depends on v, and both are in the graph. */
  ghost predicate Edge(g: Graph, u: string, v: string) {
    v in NodeNames(g) && exists i :: 0 <= i < |g| && g[i].name == u && v in g[i].dependsOn
  }

  /** Each name depends on the next. */
  ghost predicate Walk(g: Graph, p: seq<string>) {
    forall i :: 0 <= i < |p| - 1 ==> Edge(g, p[i], p[i + 1])
  }

  ghost predicate ClosedWalk(g: Graph, p: seq<string>) {
    |p| >= 2 && p[0] == p[|p| - 1] && Walk(g, p)
  }

  ghost predicate Acyclic(g: Graph) {
    forall p :: !ClosedWalk(g, p)
  }

  /** Every dependency has a smaller rank. */
  ghost predicate Ranked(g: Graph, rank: map<string, nat>) {
    NodeNames(g) <= rank.Keys && forall u, v :: Edge(g, u, v) ==> rank[v] < rank[u]
  }

  lemma EdgeEnds(g: Graph, u: string, v: string)
    requires Edge(g, u, v)
    ensures u in NodeNames(g) && v in NodeNames(g)
  {}

  lemma WalkTail(g: Graph, p: seq<string>, k: nat)
    requires Walk(g, p) && k <= |p|
    ensures Walk(g, p[k..])
  {
    var tail := p[k..];
    forall i | 0 <= i < |tail| - 1
      ensures Edge(g, tail[i], tail[i + 1])
    {
      assert Edge(g, p[k + i], p[k + i + 1]);
    }
  }

  lemma WalkExtends(g: Graph, p: seq<string>, v: string)
    requires Walk(g, p) && p != [] && Edge(g, p[|p| - 1], v)
    ensures Walk(g, p + [v])
  {
    var longer := p + [v];
    forall i | 0 <= i < |longer| - 1
      ensures Edge(g, longer[i], longer[i + 1])
    {
      if i < |p| - 1 {
        assert Edge(g, p[i], p[i + 1]);
      }
    }
  }

  lemma {:induction false} WalkDescends(g: Graph, rank: map<string, nat>, p: seq<string>)
    requires Ranked(g, rank) && Walk(g, p) && |p| >= 2
    ensures p[0] in rank && p[|p| - 1] in rank && rank[p[|p| - 1]] < rank[p[0]]
    decreases |p|
  {
    assert Edge(g, p[0], p[1]);
    EdgeEnds(g, p[0], p[1]);
    if |p| > 2 {
      WalkTail(g, p, 1);
      WalkDescends(g, rank, p[1..]);
    }
  }

  lemma RankedIsAcyclic(g: Graph, rank: map<string, nat>)
    requires Ranked(g, rank)
    ensures Acyclic(g)
  {
    forall p
      ensures !ClosedWalk(g, p)
    {
      if ClosedWalk(g, p) {
        WalkDescends(g, rank, p);
      }
    }
  }

  // ----- an acyclic graph has a rank

  predicate NoRepeats(p: seq<string>) {
    forall i, j :: 0 <= i < j < |p| ==> p[i] != p[j]
  }

  lemma {:induction false} NoRepeatsFit(p: seq<string>, s: set<string>)
    requires NoRepeats(p) && forall x :: x in p ==> x in s
    ensures |p| <= |s|
    decreases |p|
  {
    if p != [] {
      var last := p[|p| - 1];
      NoRepeatsFit(p[..|p| - 1], s - {last});
    }
  }

  ghost predicate HasNext(g: Graph, s: set<string>, u: string) {
    exists v :: v in s && Edge(g, u, v)
  }

  /** Following edges inside a finite set that is left nowhere must close a walk. */
  lemma {:induction false} WalkOn(g: Graph, s: set<string>, p: seq<string>)
    requires p != [] && NoRepeats(p) && Walk(g, p) && forall x :: x in p ==> x in s
    requires forall u {:trigger HasNext(g, s, u)} :: u in s ==> HasNext(g, s, u)
    ensures exists loop :: ClosedWalk(g, loop)
    decreases |s| - |p|
  {
    NoRepeatsFit(p, s);
    assert HasNext(g, s, p[|p| - 1]);
    var v :| v in s && Edge(g, p[|p| - 1], v);
    WalkExtends(g, p, v);
    if v in p {
      var k :| 0 <= k < |p| && p[k] == v;
      WalkTail(g, p + [v], k);
      assert ClosedWalk(g, (p + [v])[k..]);
    } else {
      NoRepeatsFit(p + [v], s);
      WalkOn(g, s, p + [v]);
    }
  }

  /** Every non-empty set of an acyclic graph's nodes has one that depends on none of the others. */
  lemma Sink(g: Graph, s: set<string>) returns (u: string)
    requires Acyclic(g) && s != {}
    ensures u in s && forall v :: v in s ==> !Edge(g, u, v)
  {
    if forall u {:trigger HasNext(g, s, u)} :: u in s ==> HasNext(g, s, u) {
      var first :| first in s;
      WalkOn(g, s, [first]);
    }
    u :| u in s && !HasNext(g, s, u);
  }

  lemma {:induction false} RankSet(g: Graph, s: set<string>) returns (rank: map<string, nat>)
    requires Acyclic(g)
    ensures rank.Keys == s
    ensures forall u :: u in s ==> rank[u] < |s|
    ensures forall u, v :: u in s && v in s && Edge(g, u, v) ==> rank[v] < rank[u]
    decreases |s|
  {
    if s == {} {
      rank := map[];
    } else {
      var sink := Sink(g, s);
      var rest := RankSet(g, s - {sink});
      rank := map u | u in s :: if u == sink then 0 else rest[u] + 1;
    }
  }

  lemma AcyclicHasRank(g: Graph) returns (rank: map<string, nat>)
    requires Acyclic(g)
    ensures Ranked(g, rank) && forall u :: u in rank ==> rank[u] < |NodeNames(g)|
  {
    rank := RankSet(g, NodeNames(g));
    forall u, v | Edge(g, u, v)
      ensures rank[v] < rank[u]
    {
      EdgeEnds(g, u, v);
    }
  }

  /** Every edge of h is one of g. */
  ghost predicate Within(h: Graph, g: Graph) {
    forall u, v :: Edge(h, u, v) ==> Edge(g, u, v)
  }

  lemma AcyclicWithin(h: Graph, g: Graph)
    requires Acyclic(g) && Within(h, g)
    ensures Acyclic(h)
  {
    forall p
      ensures !ClosedWalk(h, p)
    {
      assert !ClosedWalk(g, p);
    }
  }
}
