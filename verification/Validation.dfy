/**
 The check that a parsed configuration can be run: every service has a program, every
 dependency is listed, and no chain of dependencies comes back to where it started.
 */
module Validation {
  import opened ServiceConfigs
  import opened ManagerSpec
  import opened Graphs
  import opened Runs

  datatype ConfigCode =
    | Ok
    | InvalidValue
    | MissingValue
    | UnknownDependency
    | DependencyCycle

  type Index = map<string, nat>

  /** The index finds every service by its name. */
  ghost predicate Indexed(services: seq<ServiceConfig>, index: Index) {
    && (forall i :: 0 <= i < |services| ==> services[i].name in index && index[services[i].name] == i)
    && (forall x :: x in index ==> index[x] < |services| && services[index[x]].name == x)
  }

  ghost predicate AllIndexed(services: seq<ServiceConfig>, index: Index) {
    Indexed(services, index) &&
    forall i, d :: 0 <= i < |services| && d in services[i].dependsOn ==> d in index
  }

  // ----- what a reported cycle says

  function Arrows(names: seq<string>): string {
    if names == [] then "" else Arrows(names[..|names| - 1]) + names[|names| - 1] + " -> "
  }

  /** The names of a chain with arrows between them. */
  function ChainText(chain: seq<string>): string
    requires chain != []
  {
    Arrows(chain[..|chain| - 1]) + chain[|chain| - 1]
  }

  /** The chain is a closed path of dependencies that meets no other service twice. */
  ghost predicate GenuineCycle(services: seq<ServiceConfig>, chain: seq<string>) {
    ClosedWalk(GraphOf(services), chain) && NoRepeats(chain[..|chain| - 1])
  }

  // ----- the search

  /**
   The search in progress: `path` is a chain of dependencies down to the current service, marked
   1; `done` lists the finished services, marked 2, each after everything it depends on.
   */
  ghost predicate Searching(services: seq<ServiceConfig>, index: Index, mark: seq<int>, path: seq<string>,
                            done: seq<string>)
  {
    && |mark| == |services|
    && (forall i :: 0 <= i < |mark| ==> MarkOf(mark[i], services[i].name, path, done))
    && (forall x :: x in path ==> x in index)
    && NoRepeats(path) && Walk(GraphOf(services), path)
    && (forall p :: 0 <= p < |done| ==> Placed(services, index, done, p))
  }

  ghost predicate MarkOf(mark: int, name: string, path: seq<string>, done: seq<string>) {
    && 0 <= mark <= 2
    && (mark == 1 <==> name in path)
    && (mark == 2 <==> name in done)
  }

  /** Everything the p-th finished service depends on was finished earlier. */
  ghost predicate Placed(services: seq<ServiceConfig>, index: Index, done: seq<string>, p: nat)
    requires p < |done|
  {
    done[p] in index && index[done[p]] < |services| &&
    forall d :: d in services[index[done[p]]].dependsOn ==> d in done[..p]
  }

  function Unmarked(mark: seq<int>): set<int> {
    set i | 0 <= i < |mark| && mark[i] == 0
  }

  lemma DependencyIsEdge(services: seq<ServiceConfig>, index: Index, node: nat, j: nat)
    requires AllIndexed(services, index) && node < |services| && j < |services[node].dependsOn|
    ensures Edge(GraphOf(services), services[node].name, services[node].dependsOn[j])
  {
    var d := services[node].dependsOn[j];
    assert d in index;
    assert GraphOf(services)[index[d]].name == d;
    assert GraphOf(services)[node].name == services[node].name;
  }

  /** Entering an unmarked service keeps the search in order. */
  lemma Enter(services: seq<ServiceConfig>, index: Index, node: nat, mark: seq<int>, path: seq<string>,
              done: seq<string>)
    requires Indexed(services, index) && Searching(services, index, mark, path, done)
    requires node < |services| && mark[node] == 0
    requires path != [] ==> Edge(GraphOf(services), path[|path| - 1], services[node].name)
    ensures Searching(services, index, mark[node := 1], path + [services[node].name], done)
  {
    var name := services[node].name;
    var longer, later := path + [name], mark[node := 1];
    assert MarkOf(mark[node], name, path, done);
    forall i | 0 <= i < |mark|
      ensures MarkOf(later[i], services[i].name, longer, done)
    {
      assert MarkOf(mark[i], services[i].name, path, done);
      assert index[services[i].name] == i;
    }
    if path == [] {
      assert Walk(GraphOf(services), longer);
    } else {
      WalkExtends(GraphOf(services), path, name);
    }
  }

  /** Leaving a service whose dependencies are all finished finishes it. */
  lemma Leave(services: seq<ServiceConfig>, index: Index, node: nat, mark: seq<int>, path: seq<string>,
              done: seq<string>)
    requires Indexed(services, index) && node < |services|
    requires Searching(services, index, mark, path + [services[node].name], done)
    requires forall d :: d in services[node].dependsOn ==> d in done
    ensures Searching(services, index, mark[node := 2], path, done + [services[node].name])
  {
    var name := services[node].name;
    var longer, later, more := path + [name], mark[node := 2], done + [name];
    assert longer[|path|] == name;
    forall i | 0 <= i < |mark|
      ensures MarkOf(later[i], services[i].name, path, more)
    {
      assert MarkOf(mark[i], services[i].name, longer, done);
      assert index[services[i].name] == i;
      NotLast(longer);
    }
    forall p | 0 <= p < |more|
      ensures Placed(services, index, more, p)
    {
      if p < |done| {
        assert Placed(services, index, done, p);
        assert more[..p] == done[..p];
      } else {
        assert more[..p] == done;
      }
    }
    assert path == longer[..|path|];
    forall i | 0 <= i < |path| - 1
      ensures Edge(GraphOf(services), path[i], path[i + 1])
    {
      assert Edge(GraphOf(services), longer[i], longer[i + 1]);
    }
  }

  lemma NotLast(p: seq<string>)
    requires p != [] && NoRepeats(p)
    ensures p[|p| - 1] !in p[..|p| - 1]
  {}

  function Position(s: seq<string>, x: string): (k: nat)
    ensures k <= |s| && (k < |s| ==> s[k] == x) && forall j :: 0 <= j < k ==> s[j] != x
  {
    if s == [] || s[0] == x then 0 else 1 + Position(s[1..], x)
  }

  /** A dependency that is on the path closes a cycle. */
  lemma CloseCycle(services: seq<ServiceConfig>, path: seq<string>, dependency: string)
    requires Walk(GraphOf(services), path) && NoRepeats(path) && dependency in path
    requires Edge(GraphOf(services), path[|path| - 1], dependency)
    ensures GenuineCycle(services, path[Position(path, dependency)..] + [dependency])
  {
    var k := Position(path, dependency);
    var chain := path[k..] + [dependency];
    WalkTail(GraphOf(services), path, k);
    WalkExtends(GraphOf(services), path[k..], dependency);
    assert chain[..|chain| - 1] == path[k..];
    forall i, j | 0 <= i < j < |path[k..]|
      ensures path[k..][i] != path[k..][j]
    {
      assert path[k + i] != path[k + j];
    }
  }

  /** The chain from the first meeting with `dependency` back to it, written out. */
  method DescribeCycle(path: seq<string>, dependency: string) returns (cycle: string)
    requires dependency in path
    ensures cycle == ChainText(path[Position(path, dependency)..] + [dependency])
  {
    hide Arrows, ChainText;
    cycle := "";
    var inCycle := false;
    var k := Position(path, dependency);
    for i := 0 to |path|
      invariant inCycle <==> k < i
      invariant cycle == if k < i then Arrows(path[k..i]) else ""
    {
      inCycle := inCycle || path[i] == dependency;
      if inCycle {
        ArrowsOn(path, k, i);
        cycle := cycle + path[i] + " -> ";
      }
    }
    cycle := cycle + dependency;
    ChainWritten(path, k, dependency);
  }

  lemma ArrowsOn(path: seq<string>, k: nat, i: nat)
    requires k <= i < |path|
    ensures Arrows(path[k..i + 1]) == Arrows(path[k..i]) + path[i] + " -> "
    ensures i == k ==> Arrows(path[k..i]) == ""
  {
    assert path[k..i + 1][..i - k] == path[k..i];
  }

  lemma ChainWritten(path: seq<string>, k: nat, dependency: string)
    requires k <= |path|
    ensures ChainText(path[k..] + [dependency]) == Arrows(path[k..|path|]) + dependency
  {
    var chain := path[k..] + [dependency];
    assert chain[..|chain| - 1] == path[k..] == path[k..|path|];
  }

  /** Searches below one service and keeps the order of `Searching`; `left` is the path it gives back. */
  method VisitForCycle(services: seq<ServiceConfig>, index: Index, node: nat, mark: array<int>,
                       path: seq<string>, ghost done: seq<string>)
    returns (found: bool, cycle: string, left: seq<string>, ghost chain: seq<string>, ghost finished: seq<string>)
    requires AllIndexed(services, index) && mark.Length == |services|
    requires node < |services| && mark[node] == 0
    requires Searching(services, index, mark[..], path, done)
    requires path != [] ==> Edge(GraphOf(services), path[|path| - 1], services[node].name)
    modifies mark
    ensures found ==> GenuineCycle(services, chain) && cycle == ChainText(chain)
    ensures !found ==> left == path && done <= finished && services[node].name in finished
    ensures !found ==> Searching(services, index, mark[..], path, finished)
    ensures Unmarked(mark[..]) <= Unmarked(old(mark[..]))
    decreases Unmarked(mark[..])
  {
    hide Searching, Edge, Indexed;
    ghost var g := GraphOf(services);
    var name := services[node].name;
    Enter(services, index, node, mark[..], path, done);
    mark[node] := 1;
    assert mark[..] == old(mark[..])[node := 1];
    assert node in Unmarked(old(mark[..]));
    left := path + [name];
    cycle, chain, finished := "", [], done;
    for j := 0 to |services[node].dependsOn|
      invariant left == path + [name]
      invariant done <= finished
      invariant Searching(services, index, mark[..], left, finished)
      invariant forall k :: 0 <= k < j ==> services[node].dependsOn[k] in finished
      invariant Unmarked(mark[..]) < Unmarked(old(mark[..]))
    {
      var dependency := services[node].dependsOn[j];
      NextIsIndexed(services, index, node, j);
      DependencyIsEdge(services, index, node, j);
      var next := index[dependency];
      ReadMark(services, index, mark[..], left, finished, next);
      if mark[next] == 1 {
        cycle := DescribeCycle(left, dependency);
        chain := left[Position(left, dependency)..] + [dependency];
        CloseCycle(services, left, dependency);
        found := true;
        return;
      }
      if mark[next] == 0 {
        ghost var before := finished;
        found, cycle, left, chain, finished := VisitForCycle(services, index, next, mark, left, finished);
        if found {
          return;
        }
        PrefixKeeps(before, finished);
      }
    }
    ghost var marked := mark[..];
    Leave(services, index, node, marked, path, finished);
    left := left[..|left| - 1];
    mark[node] := 2;
    assert mark[..] == marked[node := 2];
    finished := finished + [name];
    found := false;
  }

  lemma NextIsIndexed(services: seq<ServiceConfig>, index: Index, node: nat, j: nat)
    requires AllIndexed(services, index) && node < |services| && j < |services[node].dependsOn|
    ensures var d := services[node].dependsOn[j];
            d in index && index[d] < |services| && services[index[d]].name == d
  {
    assert services[node].dependsOn[j] in services[node].dependsOn;
  }

  lemma ReadMark(services: seq<ServiceConfig>, index: Index, mark: seq<int>, path: seq<string>, done: seq<string>,
                 i: nat)
    requires Searching(services, index, mark, path, done) && i < |services|
    ensures |mark| == |services| && MarkOf(mark[i], services[i].name, path, done)
    ensures Walk(GraphOf(services), path) && NoRepeats(path)
  {}

  lemma PrefixKeeps(a: seq<string>, b: seq<string>)
    requires a <= b
    ensures forall x :: x in a ==> x in b
  {
    assert b == a + b[|a|..];
  }

  /** Finished services in an order that puts dependencies first rule a cycle out. */
  lemma AllPlaced(services: seq<ServiceConfig>, index: Index, mark: seq<int>, done: seq<string>)
    requires AllIndexed(services, index) && Searching(services, index, mark, [], done)
    requires forall i :: 0 <= i < |mark| ==> mark[i] != 0
    ensures Acyclic(GraphOf(services))
  {
    var g := GraphOf(services);
    var rank := map x | x in done :: Position(done, x);
    forall i | 0 <= i < |services|
      ensures services[i].name in done
    {
      assert MarkOf(mark[i], services[i].name, [], done);
    }
    assert forall x :: x in NodeNames(g) ==> x in rank;
    forall u, v | Edge(g, u, v)
      ensures rank[v] < rank[u]
    {
      var i :| 0 <= i < |g| && g[i].name == u && v in g[i].dependsOn;
      var p := Position(done, u);
      assert Placed(services, index, done, p);
      assert index[u] == i && v in done[..p];
      var q :| 0 <= q < p && done[..p][q] == v;
    }
    RankedIsAcyclic(g, rank);
  }

  /** Says whether the dependencies have a cycle, and writes one out when they do. */
  method FindCycle(services: seq<ServiceConfig>, index: Index) returns (code: ConfigCode, cycle: string)
    requires AllIndexed(services, index)
    ensures code == Ok || code == DependencyCycle
    ensures code == Ok <==> Acyclic(GraphOf(services))
    ensures code == DependencyCycle ==> exists chain :: GenuineCycle(services, chain) && cycle == ChainText(chain)
  {
    hide Acyclic;
    var mark := new int[|services|](i => 0);
    var path: seq<string> := [];
    ghost var done: seq<string> := [];
    cycle := "";
    assert forall i :: 0 <= i < |services| ==> MarkOf(mark[i], services[i].name, path, done);
    for i := 0 to |services|
      invariant path == [] && Searching(services, index, mark[..], path, done)
      invariant forall k :: 0 <= k < i ==> mark[k] != 0
    {
      ghost var before := Unmarked(mark[..]);
      if mark[i] == 0 {
        var found;
        ghost var chain;
        found, cycle, path, chain, done := VisitForCycle(services, index, i, mark, path, done);
        if found {
          assert GenuineCycle(services, chain);
          CycleRefutes(services, chain);
          return DependencyCycle, cycle;
        }
        ReadMark(services, index, mark[..], path, done, i);
        forall k | 0 <= k < i
          ensures mark[k] != 0
        {
          assert k !in before;
          assert k !in Unmarked(mark[..]);
        }
      }
    }
    AllPlaced(services, index, mark[..], done);
    code := Ok;
  }

  lemma CycleRefutes(services: seq<ServiceConfig>, chain: seq<string>)
    requires GenuineCycle(services, chain)
    ensures !Acyclic(GraphOf(services))
  {}

  // ----- the whole check

  datatype Endpoints = Endpoints(health: string, report: string, command: string)

  predicate AllDiffer(e: Endpoints) {
    e.health != e.report && e.health != e.command && e.report != e.command
  }

  predicate Runnable(c: ServiceConfig) {
    c.binary != "" && c.restartDelay <= c.restartDelayMax
  }

  function Unlisted(services: seq<ServiceConfig>, c: ServiceConfig): set<string> {
    set d | d in c.dependsOn && !Listed(services, d)
  }

  /** What is wrong with one service alone. */
  predicate WrongWith(code: ConfigCode, services: seq<ServiceConfig>, c: ServiceConfig) {
    match code
    case Ok => false
    case MissingValue => c.binary == ""
    case InvalidValue => c.restartDelayMax < c.restartDelay
    case UnknownDependency => Unlisted(services, c) != {}
    case DependencyCycle => c.name in c.dependsOn
  }

  /** Nothing is wrong with the service alone, with `count` of its dependencies looked at. */
  predicate FineSoFar(services: seq<ServiceConfig>, c: ServiceConfig, count: nat)
    requires count <= |c.dependsOn|
  {
    Runnable(c) && forall j :: 0 <= j < count ==> c.dependsOn[j] != c.name && Listed(services, c.dependsOn[j])
  }

  ghost predicate AllFine(services: seq<ServiceConfig>, count: nat)
    requires count <= |services|
  {
    forall i :: 0 <= i < count ==> FineSoFar(services, services[i], |services[i].dependsOn|)
  }

  method BuildIndex(services: seq<ServiceConfig>) returns (index: Index)
    requires UniqueConfigs(services)
    ensures Indexed(services, index)
    ensures forall x :: x in index <==> Listed(services, x)
  {
    index := map[];
    for i := 0 to |services|
      invariant forall k :: 0 <= k < i ==> services[k].name in index && index[services[k].name] == k
      invariant forall x :: x in index ==> index[x] < i && services[index[x]].name == x
    {
      index := index[services[i].name := i];
    }
  }

  lemma SelfIsCycle(services: seq<ServiceConfig>, i: nat)
    requires i < |services| && services[i].name in services[i].dependsOn
    ensures !Acyclic(GraphOf(services))
  {
    var g, name := GraphOf(services), services[i].name;
    assert g[i].name == name;
    assert Edge(g, name, name);
    assert ClosedWalk(g, [name, name]);
  }

  lemma FineIsIndexed(services: seq<ServiceConfig>, index: Index)
    requires Indexed(services, index) && AllFine(services, |services|)
    requires forall x :: x in index <==> Listed(services, x)
    ensures AllIndexed(services, index) && DependenciesListed(services)
    ensures forall i :: 0 <= i < |services| ==> Runnable(services[i])
  {
    forall i | 0 <= i < |services|
      ensures Runnable(services[i]) && forall d :: d in services[i].dependsOn ==> Listed(services, d)
    {
      assert FineSoFar(services, services[i], |services[i].dependsOn|);
    }
  }

  /** Everything a valid configuration promises. */
  ghost predicate Sound(services: seq<ServiceConfig>, endpoints: Endpoints) {
    && ValidConfigs(services)
    && (forall i :: 0 <= i < |services| ==> Runnable(services[i]))
    && AllDiffer(endpoints)
  }

  lemma WrongIsUnsound(services: seq<ServiceConfig>, endpoints: Endpoints, i: nat, code: ConfigCode)
    requires i < |services| && WrongWith(code, services, services[i])
    ensures !Sound(services, endpoints)
    ensures code == DependencyCycle ==> !Acyclic(GraphOf(services))
  {
    hide Acyclic;
    if code == DependencyCycle {
      SelfIsCycle(services, i);
    }
  }

  /** Service i is the first with something wrong, and that is what is reported, with its line. */
  ghost predicate ReportsFirst(services: seq<ServiceConfig>, serviceLines: seq<int>, dependencyLines: seq<int>, i: int,
                               code: ConfigCode, line: int)
    requires |serviceLines| == |dependencyLines| == |services|
  {
    && 0 <= i < |services| && AllFine(services, i) && WrongWith(code, services, services[i])
    && line == ReportedLine(code, serviceLines[i], dependencyLines[i])
  }

  /** A problem with a dependency is reported where the dependencies are listed, if the file lists them. */
  function ReportedLine(code: ConfigCode, serviceLine: int, dependencyLine: int): int {
    if (code.UnknownDependency? || code.DependencyCycle?) && dependencyLine != 0 then dependencyLine else serviceLine
  }

  /**
   Accepts exactly the configurations that are sound. The services are looked at in order, so the
   first one something is wrong with is reported, at its own line or that of its dependencies; a
   cycle through several services has no line. The section reader has made the names unique.
   */
  method Validate(services: seq<ServiceConfig>, serviceLines: seq<int>, dependencyLines: seq<int>,
                  endpoints: Endpoints)
    returns (code: ConfigCode, line: int, cycle: string)
    requires UniqueConfigs(services)
    requires |serviceLines| == |dependencyLines| == |services|
    ensures code == Ok <==> Sound(services, endpoints)
    ensures !AllFine(services, |services|) ==>
              exists i :: ReportsFirst(services, serviceLines, dependencyLines, i, code, line)
    ensures AllFine(services, |services|) && !Acyclic(GraphOf(services)) ==>
              && code == DependencyCycle && line == 0
              && exists chain :: GenuineCycle(services, chain) && cycle == ChainText(chain)
    ensures AllFine(services, |services|) && Acyclic(GraphOf(services)) && !AllDiffer(endpoints) ==>
              code == InvalidValue && line == 0
  {
    hide Acyclic, Indexed, ValidConfigs, Sound, UniqueConfigs;
    cycle := "";
    var index := BuildIndex(services);
    for i := 0 to |services|
      invariant AllFine(services, i)
    {
      var service := services[i];
      code, line := ValidateOne(services, index, service, serviceLines[i], dependencyLines[i]);
      if code != Ok {
        WrongIsUnsound(services, endpoints, i, code);
        assert ReportsFirst(services, serviceLines, dependencyLines, i, code, line);
        WrongIsNotFine(services, i, code);
        return;
      }
    }
    FineIsIndexed(services, index);
    code, cycle := FindCycle(services, index);
    if code != Ok {
      NotSound(services, endpoints);
      return code, 0, cycle;
    }
    cycle := "";
    if endpoints.health == endpoints.report || endpoints.health == endpoints.command ||
       endpoints.report == endpoints.command
    {
      NotSound(services, endpoints);
      return InvalidValue, 0, "";
    }
    IsSound(services, endpoints);
    code, line := Ok, 0;
  }

  lemma WrongIsNotFine(services: seq<ServiceConfig>, i: nat, code: ConfigCode)
    requires i < |services| && WrongWith(code, services, services[i])
    ensures !AllFine(services, |services|)
  {
    var c := services[i];
    var bad :| bad in (if code.UnknownDependency? then Unlisted(services, c) else {c.name});
    if code.UnknownDependency? || code.DependencyCycle? {
      var j :| 0 <= j < |c.dependsOn| && c.dependsOn[j] == bad;
      assert c.dependsOn[j] == c.name || !Listed(services, c.dependsOn[j]);
    }
    assert !FineSoFar(services, c, |c.dependsOn|);
  }

  lemma NotSound(services: seq<ServiceConfig>, endpoints: Endpoints)
    requires !Acyclic(GraphOf(services)) || !AllDiffer(endpoints)
    ensures !Sound(services, endpoints)
  {}

  lemma IsSound(services: seq<ServiceConfig>, endpoints: Endpoints)
    requires UniqueConfigs(services) && DependenciesListed(services) && Acyclic(GraphOf(services))
    requires AllDiffer(endpoints) && forall i :: 0 <= i < |services| ==> Runnable(services[i])
    ensures Sound(services, endpoints)
  {}

  method ValidateOne(services: seq<ServiceConfig>, index: Index, service: ServiceConfig, serviceLine: int,
                     dependencyLine: int)
    returns (code: ConfigCode, line: int)
    requires forall x :: x in index <==> Listed(services, x)
    ensures code == Ok ==> FineSoFar(services, service, |service.dependsOn|)
    ensures code != Ok ==> WrongWith(code, services, service)
    ensures code != Ok ==> line == ReportedLine(code, serviceLine, dependencyLine)
  {
    if service.binary == "" {
      return MissingValue, serviceLine;
    }
    if service.restartDelayMax < service.restartDelay {
      return InvalidValue, serviceLine;
    }
    for j := 0 to |service.dependsOn|
      invariant FineSoFar(services, service, j)
    {
      var dependency := service.dependsOn[j];
      assert dependency in service.dependsOn;
      line := if dependencyLine != 0 then dependencyLine else serviceLine;
      if dependency == service.name {
        return DependencyCycle, line;
      }
      if dependency !in index {
        assert dependency in Unlisted(services, service);
        return UnknownDependency, line;
      }
    }
    code, line := Ok, 0;
  }
}
