/**
 Whole runs of the manager: any sequence of commands, reloads with valid configurations,
 clock ticks, measurements and shutdown calls, with any answers from the operating system.
 */
module Runs {
  import opened ServiceConfigs
  import opened Launching
  import opened ServiceSpec
  import opened ManagerSpec
  import opened MicroSteps
  import opened Graphs

  // ----- configurations

  predicate UniqueConfigs(configs: seq<ServiceConfig>) {
    forall i, j :: 0 <= i < j < |configs| ==> configs[i].name != configs[j].name
  }

  predicate DependenciesListed(configs: seq<ServiceConfig>) {
    forall c :: 0 <= c < |configs| ==> forall d :: d in configs[c].dependsOn ==> Listed(configs, d)
  }

  /** What the parser accepts, as far as the manager depends on it. */
  ghost predicate ValidConfigs(configs: seq<ServiceConfig>) {
    UniqueConfigs(configs) && DependenciesListed(configs) && Acyclic(GraphOf(configs))
  }

  // ----- what a manager's services are like between calls

  /** Every name in the list belongs to a service that is not being removed. */
  predicate DepsActive(ss: seq<Svc>, dependsOn: seq<string>) {
    forall d :: d in dependsOn ==>
      var k := FindIndex(ss, d);
      k < |ss| && !ss[k].removing
  }

  /** Services that stay depend only on services that stay. */
  predicate ActiveClosed(ss: seq<Svc>) {
    forall i :: 0 <= i < |ss| && !ss[i].removing ==> DepsActive(ss, ss[i].config.dependsOn)
  }

  function ConfigsOf(ss: seq<Svc>): (cs: seq<ServiceConfig>)
    ensures |cs| == |ss| && forall i :: 0 <= i < |cs| ==> cs[i] == ss[i].config
  {
    seq(|ss|, i requires 0 <= i < |ss| => ss[i].config)
  }

  /** The dependencies among everything the manager holds, dropped services included. */
  function HeldGraph(ss: seq<Svc>): (g: Graph)
    ensures |g| == |ss| && forall i :: 0 <= i < |g| ==> g[i] == NodeOf(ss[i].config)
  {
    GraphOf(ConfigsOf(ss))
  }

  ghost predicate WellManaged(m: Mgr) {
    Inv(m) && ActiveClosed(m.services) && Acyclic(HeldGraph(m.services))
  }

  lemma FindSame(ss: seq<Svc>, tt: seq<Svc>, name: string)
    requires SameConfigs(ss, tt)
    ensures FindIndex(ss, name) == FindIndex(tt, name)
  {
    assert forall i :: 0 <= i < |ss| ==> ss[i].config.name == tt[i].config.name;
  }

  lemma DepsActiveSame(ss: seq<Svc>, tt: seq<Svc>, dependsOn: seq<string>)
    requires SameConfigs(ss, tt) && DepsActive(ss, dependsOn)
    ensures DepsActive(tt, dependsOn)
  {
    forall d | d in dependsOn
      ensures var k := FindIndex(tt, d); k < |tt| && !tt[k].removing
    {
      FindSame(ss, tt, d);
    }
  }

  lemma SameConfigsKeep(ss: seq<Svc>, tt: seq<Svc>)
    requires SameConfigs(ss, tt)
    ensures ActiveClosed(ss) ==> ActiveClosed(tt)
    ensures HeldGraph(tt) == HeldGraph(ss)
  {
    if ActiveClosed(ss) {
      forall i | 0 <= i < |tt| && !tt[i].removing
        ensures DepsActive(tt, tt[i].config.dependsOn)
      {
        DepsActiveSame(ss, tt, ss[i].config.dependsOn);
      }
    }
  }

  // ----- starting

  lemma ActReaches(m: Mgr, i: nat, op: SvcOp, wake: seq<ServiceConfig>, env: Env, now: Instant)
    requires Inv(m) && MicroOk(m, ActStep(i, op), wake)
    ensures Reaches(m, Act(m, i, op, env, now).mgr, wake, env, now) && Inv(Act(m, i, op, env, now).mgr)
  {
    hide Act;
    ReachesBy(m, ActStep(i, op), wake, env, now);
    ActKeepsInv(m, i, op, wake, env, now);
  }

  lemma VisitReaches(t: Traversal, name: string, wake: seq<ServiceConfig>, env: Env, now: Instant)
    requires Inv(t.mgr) && ActiveClosed(t.mgr.services) && !t.mgr.shuttingDown
    requires DepsActive(t.mgr.services, [name])
    ensures Reaches(t.mgr, VisitDependency(t, name, env, now).mgr, wake, env, now)
    decreases Unvisited(t.mgr.services, t.visiting), 0, 0
  {
    hide Processes, LaunchesSafe, DroppedQuiet, UniqueNames, Act;
    assert name in [name];
    var k := FindIndex(t.mgr.services, name);
    if name in t.visiting {
      ReachesSelf(t.mgr, wake, env, now);
    } else {
      var entered := t.(visiting := t.visiting + [name]);
      UnvisitedShrinks(t.mgr.services, t.mgr.services, name, t.visiting, entered.visiting);
      StartDependenciesReaches(entered, t.mgr.services[k].config.dependsOn, wake, env, now);
      var inner := StartDependencies(entered, t.mgr.services[k].config.dependsOn, env, now);
      ReachesKeepsInv(t.mgr, inner.mgr, wake, env, now);
      ActReaches(inner.mgr, k, StartOp, wake, env, now);
      ReachesTrans(t.mgr, inner.mgr, Act(inner.mgr, k, StartOp, env, now).mgr, wake, env, now);
    }
  }

  lemma StartDependenciesReaches(t: Traversal, dependsOn: seq<string>, wake: seq<ServiceConfig>, env: Env, now: Instant)
    requires Inv(t.mgr) && ActiveClosed(t.mgr.services) && !t.mgr.shuttingDown
    requires DepsActive(t.mgr.services, dependsOn)
    ensures Reaches(t.mgr, StartDependencies(t, dependsOn, env, now).mgr, wake, env, now)
    decreases Unvisited(t.mgr.services, t.visiting), |dependsOn|, 1
  {
    hide Processes, LaunchesSafe, DroppedQuiet, UniqueNames, ActiveClosed, Act;
    if dependsOn == [] {
      ReachesSelf(t.mgr, wake, env, now);
    } else {
      VisitReaches(t, dependsOn[0], wake, env, now);
      var visited := VisitDependency(t, dependsOn[0], env, now);
      ReachesKeepsInv(t.mgr, visited.mgr, wake, env, now);
      SameConfigsKeep(t.mgr.services, visited.mgr.services);
      DepsActiveSame(t.mgr.services, visited.mgr.services, dependsOn);
      StartDependenciesReaches(visited, dependsOn[1..], wake, env, now);
      ReachesTrans(t.mgr, visited.mgr, StartDependencies(t, dependsOn, env, now).mgr, wake, env, now);
    }
  }

  lemma StartWithDependenciesReaches(m: Mgr, i: nat, restart: bool, started: seq<string>, wake: seq<ServiceConfig>,
                                     env: Env, now: Instant)
    requires Inv(m) && ActiveClosed(m.services) && !m.shuttingDown
    requires i < |m.services| && !m.services[i].removing
    ensures Reaches(m, StartWithDependencies(m, i, restart, started, env, now).mgr, wake, env, now)
  {
    hide Processes, LaunchesSafe, DroppedQuiet, UniqueNames, Act;
    var s := m.services[i].config;
    var entered := Traversal(m, [s.name], started, []);
    StartDependenciesReaches(entered, s.dependsOn, wake, env, now);
    var t := StartDependencies(entered, s.dependsOn, env, now);
    ReachesKeepsInv(m, t.mgr, wake, env, now);
    assert SameSettings(m.services[i], t.mgr.services[i]);
    var op := if restart then RestartOp else StartOp;
    ActReaches(t.mgr, i, op, wake, env, now);
    ReachesTrans(m, t.mgr, Act(t.mgr, i, op, env, now).mgr, wake, env, now);
  }

  predicate NoneRemoving(ss: seq<Svc>) {
    forall i :: 0 <= i < |ss| ==> !ss[i].removing
  }

  lemma AutostartNextReaches(m: Mgr, i: nat, wake: seq<ServiceConfig>, env: Env, now: Instant)
    requires Inv(m) && ActiveClosed(m.services) && !m.shuttingDown && NoneRemoving(m.services)
    requires i < |m.services|
    ensures Reaches(m, AutostartNext(m, i, env, now), wake, env, now)
  {
    hide StartWithDependencies;
    if m.services[i].config.autostart && m.services[i].state.Stopped? {
      StartWithDependenciesReaches(m, i, false, [], wake, env, now);
    } else {
      ReachesSelf(m, wake, env, now);
    }
  }

  lemma NoneRemovingSame(ss: seq<Svc>, tt: seq<Svc>)
    requires SameConfigs(ss, tt) && NoneRemoving(ss)
    ensures NoneRemoving(tt)
  {
    forall i | 0 <= i < |tt|
      ensures !tt[i].removing
    {
      assert SameSettings(ss[i], tt[i]);
    }
  }

  lemma StartAutostartReaches(m: Mgr, i: nat, wake: seq<ServiceConfig>, env: Env, now: Instant)
    requires Inv(m) && ActiveClosed(m.services) && !m.shuttingDown && NoneRemoving(m.services)
    requires i <= |m.services|
    ensures Reaches(m, StartAutostart(m, i, env, now), wake, env, now)
    decreases |m.services| - i
  {
    hide NoneRemoving, Processes, LaunchesSafe, DroppedQuiet, UniqueNames, ActiveClosed, AutostartNext;
    if i == |m.services| {
      ReachesSelf(m, wake, env, now);
    } else {
      AutostartNextReaches(m, i, wake, env, now);
      var next := AutostartNext(m, i, env, now);
      ReachesKeepsInv(m, next, wake, env, now);
      SameConfigsKeep(m.services, next.services);
      NoneRemovingSame(m.services, next.services);
      StartAutostartReaches(next, i + 1, wake, env, now);
      ReachesTrans(m, next, StartAutostart(m, i, env, now), wake, env, now);
    }
  }

  // ----- commands

  lemma ExecuteOneReaches(m: Mgr, code: CommandCode, i: nat, started: seq<string>, wake: seq<ServiceConfig>, env: Env,
                          now: Instant)
    requires Inv(m) && ActiveClosed(m.services) && i < |m.services|
    requires code.HeartbeatCommand? || (!m.shuttingDown && !m.services[i].removing)
    ensures Reaches(m, ExecuteOne(m, code, i, started, env, now).mgr, wake, env, now)
  {
    hide StartWithDependencies, Act;
    match code
    case StartCommand => StartWithDependenciesReaches(m, i, false, started, wake, env, now);
    case RestartCommand => StartWithDependenciesReaches(m, i, true, started, wake, env, now);
    case StopCommand => ActReaches(m, i, StopOp, wake, env, now);
    case HeartbeatCommand => ActReaches(m, i, HeartbeatOp, wake, env, now);
    case ReloadCommand => ReachesSelf(m, wake, env, now);
  }

  lemma ExecuteNextReaches(t: Tally, code: CommandCode, i: nat, wake: seq<ServiceConfig>, env: Env, now: Instant)
    requires Inv(t.mgr) && ActiveClosed(t.mgr.services) && !t.mgr.shuttingDown && i < |t.mgr.services|
    ensures Reaches(t.mgr, ExecuteNext(t, code, i, env, now).mgr, wake, env, now)
  {
    hide ExecuteOne;
    if t.mgr.services[i].removing || t.mgr.services[i].config.name in t.started {
      ReachesSelf(t.mgr, wake, env, now);
    } else {
      ExecuteOneReaches(t.mgr, code, i, t.started, wake, env, now);
    }
  }

  lemma ExecuteAllReaches(t: Tally, code: CommandCode, i: nat, wake: seq<ServiceConfig>, env: Env, now: Instant)
    requires Inv(t.mgr) && ActiveClosed(t.mgr.services) && !t.mgr.shuttingDown && i <= |t.mgr.services|
    ensures Reaches(t.mgr, ExecuteAll(t, code, i, env, now).mgr, wake, env, now)
    decreases |t.mgr.services| - i
  {
    hide Processes, LaunchesSafe, DroppedQuiet, UniqueNames, ActiveClosed, ExecuteNext;
    if i == |t.mgr.services| {
      ReachesSelf(t.mgr, wake, env, now);
    } else {
      var next := ExecuteNext(t, code, i, env, now);
      ExecuteNextReaches(t, code, i, wake, env, now);
      ReachesKeepsInv(t.mgr, next.mgr, wake, env, now);
      SameConfigsKeep(t.mgr.services, next.mgr.services);
      ExecuteAllReaches(next, code, i + 1, wake, env, now);
      ReachesTrans(t.mgr, next.mgr, ExecuteAll(t, code, i, env, now).mgr, wake, env, now);
    }
  }

  lemma ExecuteReaches(m: Mgr, command: int, name: string, wake: seq<ServiceConfig>, env: Env, now: Instant)
    requires Inv(m) && ActiveClosed(m.services)
    ensures Reaches(m, Execute(m, command, name, env, now).mgr, wake, env, now)
  {
    hide ExecuteOne, ExecuteAll;
    var parsed := CommandCodeFromByte(command);
    var k := FindIndex(m.services, name);
    if parsed.None? || parsed.value.ReloadCommand? || (m.shuttingDown && !parsed.value.HeartbeatCommand?) {
      ReachesSelf(m, wake, env, now);
    } else if name == ALL_SERVICES {
      if parsed.value.HeartbeatCommand? {
        ReachesSelf(m, wake, env, now);
      } else {
        ExecuteAllReaches(Tally(m, [], 0), parsed.value, 0, wake, env, now);
      }
    } else if k == |m.services| || m.services[k].removing {
      ReachesSelf(m, wake, env, now);
    } else {
      ExecuteOneReaches(m, parsed.value, k, [], wake, env, now);
    }
  }

  // ----- the clock

  lemma TickServicesReaches(m: Mgr, i: nat, wake: seq<ServiceConfig>, env: Env, now: Instant)
    requires Inv(m) && i <= |m.services|
    ensures Reaches(m, TickServices(m, i, env, now), wake, env, now)
    decreases |m.services| - i
  {
    hide Processes, LaunchesSafe, DroppedQuiet, UniqueNames, ActiveClosed, Act;
    if i == |m.services| {
      ReachesSelf(m, wake, env, now);
    } else {
      ActReaches(m, i, SvcOp.TickOp, wake, env, now);
      var next := Act(m, i, SvcOp.TickOp, env, now).mgr;
      TickServicesReaches(next, i + 1, wake, env, now);
      ReachesTrans(m, next, TickServices(m, i, env, now), wake, env, now);
    }
  }

  lemma FollowUpNextReaches(m: Mgr, i: nat, wake: seq<ServiceConfig>, env: Env, now: Instant)
    requires Inv(m) && i < |m.services|
    ensures Reaches(m, FollowUpNext(m, i, env, now), wake, env, now)
  {
    hide Act;
    match FollowUp(m, i)
    case None => ReachesSelf(m, wake, env, now);
    case Some(op) => ActReaches(m, i, op, wake, env, now);
  }

  lemma FollowUpsReaches(m: Mgr, i: nat, wake: seq<ServiceConfig>, env: Env, now: Instant)
    requires Inv(m) && i <= |m.services|
    ensures Reaches(m, FollowUps(m, i, env, now), wake, env, now)
    decreases |m.services| - i
  {
    hide Processes, LaunchesSafe, DroppedQuiet, UniqueNames, ActiveClosed, FollowUpNext;
    if i == |m.services| {
      ReachesSelf(m, wake, env, now);
    } else {
      FollowUpNextReaches(m, i, wake, env, now);
      var next := FollowUpNext(m, i, env, now);
      ReachesKeepsInv(m, next, wake, env, now);
      FollowUpsReaches(next, i + 1, wake, env, now);
      ReachesTrans(m, next, FollowUps(m, i, env, now), wake, env, now);
    }
  }

  lemma TickReaches(m: Mgr, wake: seq<ServiceConfig>, env: Env, now: Instant)
    requires Inv(m)
    ensures Reaches(m, ManagerSpec.Tick(m, env, now), wake, env, now)
  {
    hide Processes, LaunchesSafe, DroppedQuiet, UniqueNames, ActiveClosed, TickServices, FollowUps, Sweep;
    TickServicesReaches(m, 0, wake, env, now);
    var ticked := TickServices(m, 0, env, now);
    ReachesKeepsInv(m, ticked, wake, env, now);
    FollowUpsReaches(ticked, 0, wake, env, now);
    var followed := FollowUps(ticked, 0, env, now);
    ReachesTrans(m, ticked, followed, wake, env, now);
    ReachesBy(followed, SweepStep, wake, env, now);
    ReachesTrans(m, followed, Sweep(followed), wake, env, now);
  }

  // ----- stopping and measuring

  lemma StopNextReaches(m: Mgr, i: nat, wake: seq<ServiceConfig>, env: Env, now: Instant)
    requires Inv(m) && i < |m.services|
    ensures Reaches(m, StopNext(m, i, env, now), wake, env, now)
  {
    hide Act;
    if Stoppable(m, i) {
      ActReaches(m, i, StopOp, wake, env, now);
    } else {
      ReachesSelf(m, wake, env, now);
    }
  }

  lemma StopFromReaches(m: Mgr, i: nat, wake: seq<ServiceConfig>, env: Env, now: Instant)
    requires Inv(m) && i <= |m.services|
    ensures Reaches(m, StopFrom(m, i, env, now), wake, env, now)
    decreases |m.services| - i
  {
    hide Processes, LaunchesSafe, DroppedQuiet, UniqueNames, ActiveClosed, StopNext;
    if i == |m.services| {
      ReachesSelf(m, wake, env, now);
    } else {
      StopNextReaches(m, i, wake, env, now);
      var next := StopNext(m, i, env, now);
      ReachesKeepsInv(m, next, wake, env, now);
      StopFromReaches(next, i + 1, wake, env, now);
      ReachesTrans(m, next, StopFrom(m, i, env, now), wake, env, now);
    }
  }

  lemma StopAllReaches(m: Mgr, wake: seq<ServiceConfig>, env: Env, now: Instant)
    requires Inv(m)
    ensures Reaches(m, StopAll(m, env, now), wake, env, now)
  {
    hide StopFrom;
    ReachesBy(m, ShutdownStep, wake, env, now);
    StopFromReaches(m.(shuttingDown := true), 0, wake, env, now);
    ReachesTrans(m, m.(shuttingDown := true), StopAll(m, env, now), wake, env, now);
  }

  lemma KillFromReaches(m: Mgr, i: nat, wake: seq<ServiceConfig>, env: Env, now: Instant)
    requires Inv(m) && i <= |m.services|
    ensures Reaches(m, KillFrom(m, i, env, now), wake, env, now)
    decreases |m.services| - i
  {
    hide Processes, LaunchesSafe, DroppedQuiet, UniqueNames, ActiveClosed, Act;
    if i == |m.services| {
      ReachesSelf(m, wake, env, now);
    } else {
      ActReaches(m, i, KillOp, wake, env, now);
      var next := Act(m, i, KillOp, env, now).mgr;
      KillFromReaches(next, i + 1, wake, env, now);
      ReachesTrans(m, next, KillFrom(m, i, env, now), wake, env, now);
    }
  }

  lemma KillAllReaches(m: Mgr, wake: seq<ServiceConfig>, env: Env, now: Instant)
    requires Inv(m)
    ensures Reaches(m, KillAll(m, env, now), wake, env, now)
  {
    hide KillFrom;
    ReachesBy(m, ShutdownStep, wake, env, now);
    KillFromReaches(m.(shuttingDown := true), 0, wake, env, now);
    ReachesTrans(m, m.(shuttingDown := true), KillAll(m, env, now), wake, env, now);
  }

  lemma SampleReaches(m: Mgr, i: nat, readings: nat -> UsageSample, wake: seq<ServiceConfig>, env: Env, now: Instant)
    requires Inv(m) && i <= |m.services|
    ensures Reaches(m, SampleFrom(m, i, readings, env, now), wake, env, now)
    decreases |m.services| - i
  {
    hide Processes, LaunchesSafe, DroppedQuiet, UniqueNames, ActiveClosed, Act;
    if i == |m.services| {
      ReachesSelf(m, wake, env, now);
    } else {
      ActReaches(m, i, SampleOp(ReadingOf(m.services[i], readings)), wake, env, now);
      var next := SampleNext(m, i, readings, env, now);
      SampleReaches(next, i + 1, readings, wake, env, now);
      ReachesTrans(m, next, SampleFrom(m, i, readings, env, now), wake, env, now);
    }
  }
}
