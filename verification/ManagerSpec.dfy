/**
 What one call on the manager does, as a function of the services it holds and the launcher's
 log. The class in ServiceManager.dfy is proved equal to these functions.
 */
module ManagerSpec {
  import opened Wrappers
  import opened ServiceConfigs
  import opened Launching
  import opened ServiceSpec

  datatype Mgr = Mgr(services: seq<Svc>, removed: seq<string>, shuttingDown: bool, log: Log)

  predicate AllOk(ss: seq<Svc>) {
    forall i {:trigger SvcInv(ss[i])} :: 0 <= i < |ss| ==> SvcInv(ss[i])
  }

  /** Same services in the same order, with the same settings. */
  predicate SameConfigs(ss: seq<Svc>, tt: seq<Svc>) {
    |ss| == |tt| && forall i :: 0 <= i < |ss| ==> SameSettings(ss[i], tt[i])
  }

  lemma SameConfigsTrans(ss: seq<Svc>, tt: seq<Svc>, uu: seq<Svc>)
    requires SameConfigs(ss, tt) && SameConfigs(tt, uu)
    ensures SameConfigs(ss, uu)
  {}

  function Names(ss: seq<Svc>): set<string> {
    set i | 0 <= i < |ss| :: ss[i].config.name
  }

  function RunningNames(ss: seq<Svc>): set<string> {
    set i | 0 <= i < |ss| && ss[i].state.Running? :: ss[i].config.name
  }

  /** The position of the first service with this name; the number of services when there is none. */
  function FindIndex(ss: seq<Svc>, name: string): (k: nat)
    ensures k <= |ss|
    ensures k < |ss| ==> ss[k].config.name == name
    ensures forall j :: 0 <= j < k ==> ss[j].config.name != name
  {
    if ss == [] || ss[0].config.name == name then 0 else 1 + FindIndex(ss[1..], name)
  }

  predicate DependenciesRunning(ss: seq<Svc>, dependsOn: seq<string>) {
    forall j :: 0 <= j < |dependsOn| ==>
      var k := FindIndex(ss, dependsOn[j]);
      k < |ss| && ss[k].state.Running?
  }

  /** Some dependency will not come up: it is not configured, has failed or is stopped. */
  predicate DependencyBlocked(ss: seq<Svc>, dependsOn: seq<string>) {
    exists j :: 0 <= j < |dependsOn| &&
      var k := FindIndex(ss, dependsOn[j]);
      k == |ss| || ss[k].state.Failed? || ss[k].state.Stopped?
  }

  /** No live service names this one as a direct dependency. */
  predicate DependentsStopped(ss: seq<Svc>, name: string) {
    forall i :: 0 <= i < |ss| && name in ss[i].config.dependsOn ==> !IsAlive(ss[i].state)
  }

  /** The live services that name this one as a direct dependency. */
  function LiveDependents(ss: seq<Svc>, name: string): set<string> {
    set i | 0 <= i < |ss| && name in ss[i].config.dependsOn && IsAlive(ss[i].state) :: ss[i].config.name
  }

  function CtxFor(m: Mgr, i: nat, env: Env, now: Instant): (ctx: Ctx)
    requires i < |m.services|
    ensures ctx.env == env && ctx.now == now && ctx.launchAllowed == !m.shuttingDown
    ensures ctx.dependenciesReady == DependenciesRunning(m.services, m.services[i].config.dependsOn)
  {
    Ctx(env, now, !m.shuttingDown, DependenciesRunning(m.services, m.services[i].config.dependsOn),
        RunningNames(m.services), LiveDependents(m.services, m.services[i].config.name))
  }

  datatype Acted = Acted(mgr: Mgr, result: CommandResult)

  /** One call on service i, with what the manager knows at that moment. */
  function Act(m: Mgr, i: nat, op: SvcOp, env: Env, now: Instant): (r: Acted)
    requires AllOk(m.services) && i < |m.services|
    ensures AllOk(r.mgr.services) && |r.mgr.services| == |m.services|
    ensures !op.ReplaceOp? && !op.ReaddOp? && !op.RetireOp? ==> SameConfigs(m.services, r.mgr.services)
    ensures r.mgr.shuttingDown == m.shuttingDown && r.mgr.removed == m.removed
    ensures forall j :: 0 <= j < |m.services| && j != i ==> r.mgr.services[j] == m.services[j]
  {
    var o := Step(m.services[i], m.log, op, CtxFor(m, i, env, now));
    Acted(m.(services := m.services[i := o.svc], log := o.log), o.result)
  }

  // ----- Tick

  function TickServices(m: Mgr, i: nat, env: Env, now: Instant): (r: Mgr)
    requires AllOk(m.services) && i <= |m.services|
    ensures AllOk(r.services) && SameConfigs(m.services, r.services)
    ensures r.shuttingDown == m.shuttingDown && r.removed == m.removed
    decreases |m.services| - i
  {
    if i == |m.services| then m else TickServices(Act(m, i, TickOp, env, now).mgr, i + 1, env, now)
  }

  /** A shutdown stops a service once no live service depends on it. */
  predicate Stoppable(m: Mgr, i: nat)
    requires i < |m.services|
  {
    var s := m.services[i];
    !s.state.Stopping? && !s.state.Stopped? && DependentsStopped(m.services, s.config.name)
  }

  /** What the second loop of Tick calls on service i, if anything. */
  function FollowUp(m: Mgr, i: nat): Option<SvcOp>
    requires i < |m.services|
  {
    var s := m.services[i];
    if !m.shuttingDown && s.state.Waiting? then
      if DependenciesRunning(m.services, s.config.dependsOn) then Some(StartOp)
      else if DependencyBlocked(m.services, s.config.dependsOn) then Some(AbandonOp)
      else None
    else if m.shuttingDown && Stoppable(m, i) then
      Some(StopOp)
    else
      None
  }

  function FollowUpNext(m: Mgr, i: nat, env: Env, now: Instant): (r: Mgr)
    requires AllOk(m.services) && i < |m.services|
    ensures AllOk(r.services) && SameConfigs(m.services, r.services)
    ensures r.shuttingDown == m.shuttingDown && r.removed == m.removed
  {
    match FollowUp(m, i)
    case None => m
    case Some(op) => Act(m, i, op, env, now).mgr
  }

  function FollowUps(m: Mgr, i: nat, env: Env, now: Instant): (r: Mgr)
    requires AllOk(m.services) && i <= |m.services|
    ensures AllOk(r.services) && SameConfigs(m.services, r.services)
    ensures r.shuttingDown == m.shuttingDown && r.removed == m.removed
    decreases |m.services| - i
  {
    if i == |m.services| then m else FollowUps(FollowUpNext(m, i, env, now), i + 1, env, now)
  }

  predicate Finished(s: Svc) {
    s.removing && !IsAlive(s.state)
  }

  /** The services that stay after those dropped by a reload have stopped. */
  function Kept(ss: seq<Svc>): (r: seq<Svc>)
    ensures forall s :: s in r <==> s in ss && !Finished(s)
    ensures AllOk(ss) ==> AllOk(r)
  {
    if ss == [] then [] else
      var rest := Kept(ss[..|ss| - 1]);
      if Finished(ss[|ss| - 1]) then rest else rest + [ss[|ss| - 1]]
  }

  function RemovedNames(ss: seq<Svc>): seq<string> {
    if ss == [] then [] else
      var rest := RemovedNames(ss[..|ss| - 1]);
      if Finished(ss[|ss| - 1]) then rest + [ss[|ss| - 1].config.name] else rest
  }

  function Sweep(m: Mgr): (r: Mgr)
    requires AllOk(m.services)
    ensures AllOk(r.services)
  {
    m.(services := Kept(m.services), removed := m.removed + RemovedNames(m.services))
  }

  function Tick(m: Mgr, env: Env, now: Instant): (r: Mgr)
    requires AllOk(m.services)
    ensures AllOk(r.services)
  {
    Sweep(FollowUps(TickServices(m, 0, env, now), 0, env, now))
  }

  // ----- starting with dependencies

  /** What a traversal leaves: `calls` lists the services Start was called on, in order. */
  datatype Traversal = Traversal(mgr: Mgr, visiting: seq<string>, started: seq<string>, calls: seq<string>)

  function Unvisited(ss: seq<Svc>, visiting: seq<string>): set<string> {
    set i | 0 <= i < |ss| && ss[i].config.name !in visiting :: ss[i].config.name
  }

  lemma UnvisitedShrinks(ss: seq<Svc>, tt: seq<Svc>, name: string, visiting: seq<string>, later: seq<string>)
    requires SameConfigs(ss, tt)
    requires visiting + [name] <= later && FindIndex(ss, name) < |ss| && name !in visiting
    ensures Unvisited(tt, later) < Unvisited(ss, visiting)
  {
    assert later[|visiting|] == name;
    forall x | x in visiting
      ensures x in later
    {
      var j :| 0 <= j < |visiting| && visiting[j] == x;
      assert later[j] == x;
    }
    assert name in Unvisited(ss, visiting);
    assert name !in Unvisited(tt, later);
  }

  predicate WasUp(state: ServiceState) {
    state.Starting? || state.Running? || state.Unhealthy?
  }

  /** Start on one dependency once everything it needs has been started. */
  function StartDependency(t: Traversal, k: nat, env: Env, now: Instant): (r: Traversal)
    requires AllOk(t.mgr.services) && k < |t.mgr.services|
    ensures AllOk(r.mgr.services) && SameConfigs(t.mgr.services, r.mgr.services)
    ensures r.mgr.shuttingDown == t.mgr.shuttingDown && r.mgr.removed == t.mgr.removed
    ensures r.visiting == t.visiting && r.calls == t.calls + [t.mgr.services[k].config.name]
  {
    var name := t.mgr.services[k].config.name;
    var isNew := !WasUp(t.mgr.services[k].state) && name !in t.started;
    Traversal(Act(t.mgr, k, StartOp, env, now).mgr, t.visiting, if isNew then t.started + [name] else t.started,
              t.calls + [name])
  }

  /** One dependency: what it needs first, then itself. One that is unknown or already visited is passed over. */
  function VisitDependency(t: Traversal, name: string, env: Env, now: Instant): (r: Traversal)
    requires AllOk(t.mgr.services)
    ensures AllOk(r.mgr.services) && SameConfigs(t.mgr.services, r.mgr.services)
    ensures r.mgr.shuttingDown == t.mgr.shuttingDown && r.mgr.removed == t.mgr.removed
    ensures t.visiting <= r.visiting
    ensures r == t || Unvisited(r.mgr.services, r.visiting) < Unvisited(t.mgr.services, t.visiting)
    decreases Unvisited(t.mgr.services, t.visiting), 0, 0
  {
    var k := FindIndex(t.mgr.services, name);
    if k == |t.mgr.services| || name in t.visiting then
      t
    else
      var entered := t.(visiting := t.visiting + [name]);
      UnvisitedShrinks(t.mgr.services, t.mgr.services, name, t.visiting, entered.visiting);
      var inner := StartDependencies(entered, t.mgr.services[k].config.dependsOn, env, now);
      var started := StartDependency(inner, k, env, now);
      SameConfigsTrans(t.mgr.services, inner.mgr.services, started.mgr.services);
      assert entered.visiting <= started.visiting;
      UnvisitedShrinks(t.mgr.services, started.mgr.services, name, t.visiting, started.visiting);
      started
  }

  /** Depth first: start what each dependency needs, then the dependency itself. */
  function StartDependencies(t: Traversal, dependsOn: seq<string>, env: Env, now: Instant): (r: Traversal)
    requires AllOk(t.mgr.services)
    ensures AllOk(r.mgr.services) && SameConfigs(t.mgr.services, r.mgr.services)
    ensures r.mgr.shuttingDown == t.mgr.shuttingDown && r.mgr.removed == t.mgr.removed
    ensures t.visiting <= r.visiting
    decreases Unvisited(t.mgr.services, t.visiting), |dependsOn|, 1
  {
    if dependsOn == [] then
      t
    else
      var visited := VisitDependency(t, dependsOn[0], env, now);
      var rest := StartDependencies(visited, dependsOn[1..], env, now);
      SameConfigsTrans(t.mgr.services, visited.mgr.services, rest.mgr.services);
      rest
  }

  datatype Commanded = Commanded(mgr: Mgr, result: CommandResult, started: seq<string>)

  function StartWithDependencies(m: Mgr, i: nat, restart: bool, started: seq<string>, env: Env, now: Instant)
    : (r: Commanded)
    requires AllOk(m.services) && i < |m.services|
    ensures AllOk(r.mgr.services) && SameConfigs(m.services, r.mgr.services)
    ensures r.mgr.shuttingDown == m.shuttingDown && r.mgr.removed == m.removed
  {
    var s := m.services[i].config;
    var t := StartDependencies(Traversal(m, [s.name], started, []), s.dependsOn, env, now);
    var acted := Act(t.mgr, i, if restart then RestartOp else StartOp, env, now);
    Commanded(acted.mgr, acted.result, t.started)
  }

  function AutostartNext(m: Mgr, i: nat, env: Env, now: Instant): (r: Mgr)
    requires AllOk(m.services) && i < |m.services|
    ensures AllOk(r.services) && SameConfigs(m.services, r.services)
    ensures r.shuttingDown == m.shuttingDown && r.removed == m.removed
  {
    if m.services[i].config.autostart && m.services[i].state.Stopped? then
      StartWithDependencies(m, i, false, [], env, now).mgr
    else
      m
  }

  function StartAutostart(m: Mgr, i: nat, env: Env, now: Instant): (r: Mgr)
    requires AllOk(m.services) && i <= |m.services|
    ensures AllOk(r.services) && SameConfigs(m.services, r.services)
    ensures r.shuttingDown == m.shuttingDown && r.removed == m.removed
    decreases |m.services| - i
  {
    if i == |m.services| then m else StartAutostart(AutostartNext(m, i, env, now), i + 1, env, now)
  }

  // ----- commands

  datatype CommandCode = StartCommand | StopCommand | RestartCommand | HeartbeatCommand | ReloadCommand

  function CommandCodeFromByte(value: int): Option<CommandCode> {
    if value == 78 then Some(StartCommand)
    else if value == 79 then Some(StopCommand)
    else if value == 81 then Some(RestartCommand)
    else if value == 90 then Some(HeartbeatCommand)
    else if value == 91 then Some(ReloadCommand)
    else None
  }

  const ALL_SERVICES: string := "*"

  predicate IsSuccess(result: CommandResult) {
    result.Ok? || result.AlreadyInState?
  }

  function ExecuteOne(m: Mgr, code: CommandCode, i: nat, started: seq<string>, env: Env, now: Instant): (r: Commanded)
    requires AllOk(m.services) && i < |m.services|
    ensures AllOk(r.mgr.services) && SameConfigs(m.services, r.mgr.services)
    ensures r.mgr.shuttingDown == m.shuttingDown && r.mgr.removed == m.removed
  {
    match code
    case StartCommand => StartWithDependencies(m, i, false, started, env, now)
    case RestartCommand => StartWithDependencies(m, i, true, started, env, now)
    case StopCommand =>
      var acted := Act(m, i, StopOp, env, now);
      Commanded(acted.mgr, acted.result, started)
    case HeartbeatCommand =>
      var acted := Act(m, i, HeartbeatOp, env, now);
      Commanded(acted.mgr, acted.result, started)
    case ReloadCommand => Commanded(m, UnknownCommand, started)
  }

  datatype Tally = Tally(mgr: Mgr, started: seq<string>, failed: nat)

  /** The command for service i, unless it is being removed or was started for another one already. */
  function ExecuteNext(t: Tally, code: CommandCode, i: nat, env: Env, now: Instant): (r: Tally)
    requires AllOk(t.mgr.services) && i < |t.mgr.services|
    ensures AllOk(r.mgr.services) && SameConfigs(t.mgr.services, r.mgr.services)
    ensures r.mgr.shuttingDown == t.mgr.shuttingDown && r.mgr.removed == t.mgr.removed
  {
    if t.mgr.services[i].removing || t.mgr.services[i].config.name in t.started then
      t
    else
      var one := ExecuteOne(t.mgr, code, i, t.started, env, now);
      Tally(one.mgr, one.started, if IsSuccess(one.result) then t.failed else t.failed + 1)
  }

  function ExecuteAll(t: Tally, code: CommandCode, i: nat, env: Env, now: Instant): (r: Tally)
    requires AllOk(t.mgr.services) && i <= |t.mgr.services|
    ensures AllOk(r.mgr.services) && SameConfigs(t.mgr.services, r.mgr.services)
    ensures r.mgr.shuttingDown == t.mgr.shuttingDown && r.mgr.removed == t.mgr.removed
    decreases |t.mgr.services| - i
  {
    if i == |t.mgr.services| then t else ExecuteAll(ExecuteNext(t, code, i, env, now), code, i + 1, env, now)
  }

  /** `command` is the byte on the wire. */
  function Execute(m: Mgr, command: int, name: string, env: Env, now: Instant): (r: Acted)
    requires AllOk(m.services)
    ensures AllOk(r.mgr.services) && SameConfigs(m.services, r.mgr.services)
    ensures r.mgr.shuttingDown == m.shuttingDown && r.mgr.removed == m.removed
  {
    match CommandCodeFromByte(command)
    case None => Acted(m, UnknownCommand)
    case Some(code) =>
      if code.ReloadCommand? then
        Acted(m, UnknownCommand)
      else if m.shuttingDown && !code.HeartbeatCommand? then
        Acted(m, ShuttingDown)
      else if name == ALL_SERVICES then
        if code.HeartbeatCommand? then
          Acted(m, Malformed)
        else
          var all := ExecuteAll(Tally(m, [], 0), code, 0, env, now);
          Acted(all.mgr, if all.failed > 0 then LaunchFailed else Ok)
      else
        var k := FindIndex(m.services, name);
        if k == |m.services| || m.services[k].removing then
          Acted(m, UnknownService)
        else
          var one := ExecuteOne(m, code, k, [], env, now);
          Acted(one.mgr, one.result)
  }

  // ----- reload

  datatype ReloadSummary = ReloadSummary(added: nat, removed: nat, changed: nat)

  predicate Listed(configs: seq<ServiceConfig>, name: string) {
    exists c :: 0 <= c < |configs| && configs[c].name == name
  }

  datatype Merge = Merge(mgr: Mgr, added: seq<string>, summary: ReloadSummary)

  /** One entry of the new list: a new service, one that comes back, or new settings for one that stays. */
  function MergeOne(a: Merge, config: ServiceConfig, env: Env, now: Instant): (r: Merge)
    requires AllOk(a.mgr.services)
    ensures AllOk(r.mgr.services)
    ensures r.mgr.shuttingDown == a.mgr.shuttingDown && r.mgr.removed == a.mgr.removed
  {
    var m := a.mgr;
    var k := FindIndex(m.services, config.name);
    if k == |m.services| then
      Merge(m.(services := m.services + [NewService(config)]), a.added + [config.name],
            a.summary.(added := a.summary.added + 1))
    else
      var readded := m.services[k].removing;
      var changed := m.services[k].config != config;
      var replaced := if changed then Act(m, k, ReplaceOp(config), env, now).mgr else m;
      if readded then
        Merge(Act(replaced, k, ReaddOp, env, now).mgr, a.added + [config.name],
              a.summary.(added := a.summary.added + 1))
      else
        Merge(replaced, a.added, if changed then a.summary.(changed := a.summary.changed + 1) else a.summary)
  }

  function MergeAll(a: Merge, configs: seq<ServiceConfig>, env: Env, now: Instant): (r: Merge)
    requires AllOk(a.mgr.services)
    ensures AllOk(r.mgr.services)
    ensures r.mgr.shuttingDown == a.mgr.shuttingDown && r.mgr.removed == a.mgr.removed
    decreases |configs|
  {
    if configs == [] then a else MergeAll(MergeOne(a, configs[0], env, now), configs[1..], env, now)
  }

  /** Service i is stopped and marked for removal when the new list no longer names it. */
  function RetireNext(a: Merge, configs: seq<ServiceConfig>, i: nat, env: Env, now: Instant): (r: Merge)
    requires AllOk(a.mgr.services) && i < |a.mgr.services|
    ensures AllOk(r.mgr.services) && |r.mgr.services| == |a.mgr.services|
    ensures r.mgr.shuttingDown == a.mgr.shuttingDown && r.mgr.removed == a.mgr.removed && r.added == a.added
  {
    if !Listed(configs, a.mgr.services[i].config.name) && !a.mgr.services[i].removing then
      a.(mgr := Act(a.mgr, i, RetireOp, env, now).mgr, summary := a.summary.(removed := a.summary.removed + 1))
    else
      a
  }

  function RetireFrom(a: Merge, configs: seq<ServiceConfig>, i: nat, env: Env, now: Instant): (r: Merge)
    requires AllOk(a.mgr.services) && i <= |a.mgr.services|
    ensures AllOk(r.mgr.services) && |r.mgr.services| == |a.mgr.services|
    ensures r.mgr.shuttingDown == a.mgr.shuttingDown && r.mgr.removed == a.mgr.removed && r.added == a.added
    decreases |a.mgr.services| - i
  {
    if i == |a.mgr.services| then a else RetireFrom(RetireNext(a, configs, i, env, now), configs, i + 1, env, now)
  }

  function StartIfAutostart(m: Mgr, name: string, env: Env, now: Instant): (r: Mgr)
    requires AllOk(m.services)
    ensures AllOk(r.services) && SameConfigs(m.services, r.services)
    ensures r.shuttingDown == m.shuttingDown && r.removed == m.removed
  {
    var k := FindIndex(m.services, name);
    if k < |m.services| && m.services[k].config.autostart && !m.shuttingDown then
      StartWithDependencies(m, k, false, [], env, now).mgr
    else
      m
  }

  /** Start what was added. */
  function StartAdded(m: Mgr, added: seq<string>, env: Env, now: Instant): (r: Mgr)
    requires AllOk(m.services)
    ensures AllOk(r.services) && SameConfigs(m.services, r.services)
    ensures r.shuttingDown == m.shuttingDown && r.removed == m.removed
    decreases |added|
  {
    if added == [] then m else StartAdded(StartIfAutostart(m, added[0], env, now), added[1..], env, now)
  }

  datatype Applied = Applied(mgr: Mgr, summary: ReloadSummary)

  function Apply(m: Mgr, configs: seq<ServiceConfig>, env: Env, now: Instant): (r: Applied)
    requires AllOk(m.services)
    ensures AllOk(r.mgr.services) && r.mgr.removed == m.removed
  {
    var merged := MergeAll(Merge(m, [], ReloadSummary(0, 0, 0)), configs, env, now);
    var retired := RetireFrom(merged, configs, 0, env, now);
    Applied(StartAdded(retired.mgr, merged.added, env, now), retired.summary)
  }

  // ----- shutdown and the rest

  function StopNext(m: Mgr, i: nat, env: Env, now: Instant): (r: Mgr)
    requires AllOk(m.services) && i < |m.services|
    ensures AllOk(r.services) && SameConfigs(m.services, r.services)
    ensures r.shuttingDown == m.shuttingDown && r.removed == m.removed
  {
    if Stoppable(m, i) then Act(m, i, StopOp, env, now).mgr else m
  }

  function StopFrom(m: Mgr, i: nat, env: Env, now: Instant): (r: Mgr)
    requires AllOk(m.services) && i <= |m.services|
    ensures AllOk(r.services) && SameConfigs(m.services, r.services)
    ensures r.shuttingDown == m.shuttingDown && r.removed == m.removed
    decreases |m.services| - i
  {
    if i == |m.services| then m else StopFrom(StopNext(m, i, env, now), i + 1, env, now)
  }

  function StopAll(m: Mgr, env: Env, now: Instant): (r: Mgr)
    requires AllOk(m.services)
    ensures AllOk(r.services) && SameConfigs(m.services, r.services)
  {
    StopFrom(m.(shuttingDown := true), 0, env, now)
  }

  function KillFrom(m: Mgr, i: nat, env: Env, now: Instant): (r: Mgr)
    requires AllOk(m.services) && i <= |m.services|
    ensures AllOk(r.services) && SameConfigs(m.services, r.services)
    ensures r.shuttingDown == m.shuttingDown && r.removed == m.removed
    decreases |m.services| - i
  {
    if i == |m.services| then m else KillFrom(Act(m, i, KillOp, env, now).mgr, i + 1, env, now)
  }

  function KillAll(m: Mgr, env: Env, now: Instant): (r: Mgr)
    requires AllOk(m.services)
    ensures AllOk(r.services) && SameConfigs(m.services, r.services)
  {
    KillFrom(m.(shuttingDown := true), 0, env, now)
  }

  function ReadingOf(s: Svc, readings: nat -> UsageSample): UsageSample {
    if s.child.Some? then readings(s.child.value.id) else NO_USAGE
  }

  function SampleNext(m: Mgr, i: nat, readings: nat -> UsageSample, env: Env, now: Instant): (r: Mgr)
    requires AllOk(m.services) && i < |m.services|
    ensures AllOk(r.services) && SameConfigs(m.services, r.services)
    ensures r.shuttingDown == m.shuttingDown && r.removed == m.removed
  {
    Act(m, i, SampleOp(ReadingOf(m.services[i], readings)), env, now).mgr
  }

  /** Measure every running service; `readings` gives what its process reports. */
  function SampleFrom(m: Mgr, i: nat, readings: nat -> UsageSample, env: Env, now: Instant): (r: Mgr)
    requires AllOk(m.services) && i <= |m.services|
    ensures AllOk(r.services) && SameConfigs(m.services, r.services)
    ensures r.shuttingDown == m.shuttingDown && r.removed == m.removed
    decreases |m.services| - i
  {
    if i == |m.services| then m
    else SampleFrom(SampleNext(m, i, readings, env, now), i + 1, readings, env, now)
  }

  predicate AllStopped(m: Mgr) {
    forall i :: 0 <= i < |m.services| ==> !IsAlive(m.services[i].state)
  }

  function NewServices(configs: seq<ServiceConfig>): (r: seq<Svc>)
    ensures |r| == |configs| && forall i :: 0 <= i < |r| ==> r[i] == NewService(configs[i])
    ensures AllOk(r)
  {
    seq(|configs|, i requires 0 <= i < |configs| => NewService(configs[i]))
  }

  /** A manager that has just loaded a configuration. */
  function Load(configs: seq<ServiceConfig>): (r: Mgr)
    ensures AllOk(r.services)
  {
    Mgr(NewServices(configs), [], false, [])
  }
}
