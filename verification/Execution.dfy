/** What the manager promises about one command: what it refuses, and that it undoes nothing it did itself. */
module Execution {
  import opened Wrappers
  import opened Launching
  import opened ServiceSpec
  import opened ManagerSpec
  import opened Lifecycle
  import opened MicroSteps
  import opened Runs
  import opened Supervision

  // ----- refusals

  predicate NamesActive(ss: seq<Svc>, name: string) {
    var k := FindIndex(ss, name);
    k < |ss| && !ss[k].removing
  }

  /** What a command is refused with, if it is. */
  function Refusal(m: Mgr, command: int, name: string): Option<CommandResult> {
    match CommandCodeFromByte(command)
    case None => Some(UnknownCommand)
    case Some(code) =>
      if code.ReloadCommand? then Some(UnknownCommand)
      else if m.shuttingDown && !code.HeartbeatCommand? then Some(ShuttingDown)
      else if name == ALL_SERVICES then if code.HeartbeatCommand? then Some(Malformed) else None
      else if !NamesActive(m.services, name) then Some(UnknownService)
      else None
  }

  predicate IsRefusal(result: CommandResult) {
    result.UnknownCommand? || result.ShuttingDown? || result.Malformed? || result.UnknownService?
  }

  lemma StartNeverRefuses(s: Svc, log: Log, ctx: Ctx)
    ensures !IsRefusal(Start(s, log, ctx).result)
  {
    hide ScheduleRestart, ApplyRestartPolicy;
  }

  lemma StepNeverRefuses(s: Svc, log: Log, op: SvcOp, ctx: Ctx)
    requires SvcInv(s) && (op.StartOp? || op.RestartOp? || op.StopOp? || op.HeartbeatOp?)
    ensures !IsRefusal(Step(s, log, op, ctx).result)
  {
    hide Start;
    StartNeverRefuses(s, log, ctx);
  }

  lemma ExecuteOneNeverRefuses(m: Mgr, code: CommandCode, i: nat, started: seq<string>, env: Env, now: Instant)
    requires AllOk(m.services) && i < |m.services| && !code.ReloadCommand?
    ensures !IsRefusal(ExecuteOne(m, code, i, started, env, now).result)
  {
    hide Step, StartDependencies;
    var op := match code
      case StartCommand => StartOp
      case RestartCommand => RestartOp
      case StopCommand => StopOp
      case _ => HeartbeatOp;
    var config := m.services[i].config;
    var at := if code.StartCommand? || code.RestartCommand? then
      StartDependencies(Traversal(m, [config.name], started, []), config.dependsOn, env, now).mgr
    else m;
    StepNeverRefuses(at.services[i], at.log, op, CtxFor(at, i, env, now));
  }

  /** A refused command changes nothing, and each refusal has exactly its own reason. */
  lemma RefusalsChangeNothing(m: Mgr, command: int, name: string, env: Env, now: Instant)
    requires AllOk(m.services)
    ensures var r := Execute(m, command, name, env, now);
            match Refusal(m, command, name)
            case Some(result) => r.result == result && r.mgr == m
            case None => !IsRefusal(r.result)
  {
    hide ExecuteAll, ExecuteOne;
    if Refusal(m, command, name).None? && name != ALL_SERVICES {
      ExecuteOneNeverRefuses(m, CommandCodeFromByte(command).value, FindIndex(m.services, name), [], env, now);
    }
  }

  // ----- one command does not undo what it did itself

  /** The k-th event is a launch, a refused launch, or a stop request to a process launched before `base`. */
  predicate Mild(e: Event, k: nat, base: nat) {
    (e.Launched? && e.id == k) || e.LaunchRefused? || (e.StopRequested? && e.id < base)
  }

  predicate MildSince(log: Log, newLog: Log, base: nat) {
    log <= newLog && forall k :: |log| <= k < |newLog| ==> Mild(newLog[k], k, base)
  }

  lemma MildTrans(a: Log, b: Log, c: Log, base: nat)
    requires MildSince(a, b, base) && MildSince(b, c, base)
    ensures MildSince(a, c, base)
  {
    forall k | |a| <= k < |c|
      ensures Mild(c[k], k, base)
    {
      if k < |b| {
        assert c[k] == b[k];
      }
    }
  }

  predicate IsNew(s: Svc, base: nat) {
    s.child.Some? && s.child.value.id >= base
  }

  /** From index `from` on, a service whose process is new is among those started. */
  predicate Tracked(ss: seq<Svc>, from: nat, base: nat, started: seq<string>) {
    forall j :: from <= j < |ss| && IsNew(ss[j], base) ==> ss[j].config.name in started
  }

  lemma StartIsMild(s: Svc, log: Log, ctx: Ctx, base: nat)
    requires SvcInv(s)
    ensures var r := Start(s, log, ctx);
            && MildSince(log, r.log, base)
            && (WasUp(s.state) || s.state.Stopping? ==> r.svc.child == s.child)
  {
    hide ScheduleRestart;
  }

  lemma RestartIsMild(s: Svc, log: Log, ctx: Ctx, base: nat)
    requires SvcInv(s) && !IsNew(s, base)
    ensures MildSince(log, Restart(s, log, ctx).log, base) && MildSince(log, Stop(s, log, ctx).log, base)
  {
    hide Start;
    StartIsMild(s, log, ctx, base);
  }

  lemma StartDependencyTracked(t: Traversal, k: nat, from: nat, base: nat, env: Env, now: Instant)
    requires AllOk(t.mgr.services) && k < |t.mgr.services| && Tracked(t.mgr.services, from, base, t.started)
    ensures var r := StartDependency(t, k, env, now);
            && MildSince(t.mgr.log, r.mgr.log, base) && t.started <= r.started
            && Tracked(r.mgr.services, from, base, r.started)
  {
    hide Start;
    var s, ctx := t.mgr.services[k], CtxFor(t.mgr, k, env, now);
    StartIsMild(s, t.mgr.log, ctx, base);
    var r := StartDependency(t, k, env, now);
    forall j | from <= j < |r.mgr.services| && IsNew(r.mgr.services[j], base)
      ensures r.mgr.services[j].config.name in r.started
    {
      if j != k || r.mgr.services[k].child == s.child {
        assert t.mgr.services[j].config.name in t.started;
        InLonger(t.started, r.started, t.mgr.services[j].config.name);
      } else if s.config.name !in t.started {
        assert r.started[|t.started|] == s.config.name;
      }
    }
  }

  lemma InLonger(a: seq<string>, b: seq<string>, x: string)
    requires a <= b && x in a
    ensures x in b
  {
    var i :| 0 <= i < |a| && a[i] == x;
    assert b[i] == x;
  }

  /** A traversal starts nothing that is being visited already, and keeps track of what it starts. */
  ghost predicate TracksFrom(t: Traversal, r: Traversal, from: nat, base: nat) {
    && MildSince(t.mgr.log, r.mgr.log, base) && t.started <= r.started && t.visiting <= r.visiting
    && Tracked(r.mgr.services, from, base, r.started)
    && |r.mgr.services| == |t.mgr.services|
    && (forall i :: 0 <= i < |t.mgr.services| && t.mgr.services[i].config.name in t.visiting ==>
          r.mgr.services[i] == t.mgr.services[i])
  }

  lemma {:induction false} VisitTracks(t: Traversal, name: string, from: nat, base: nat, env: Env, now: Instant)
    requires AllOk(t.mgr.services) && UniqueNames(t.mgr.services) && Tracked(t.mgr.services, from, base, t.started)
    ensures TracksFrom(t, VisitDependency(t, name, env, now), from, base)
    decreases Unvisited(t.mgr.services, t.visiting), 0, 0
  {
    hide Act, Tracked, MildSince, StartDependencies;
    var k := FindIndex(t.mgr.services, name);
    if k == |t.mgr.services| || name in t.visiting {
      MildSelf(t.mgr.log, base);
    } else {
      var entered := t.(visiting := t.visiting + [name]);
      UnvisitedShrinks(t.mgr.services, t.mgr.services, name, t.visiting, entered.visiting);
      var dependsOn := t.mgr.services[k].config.dependsOn;
      StartTracks(entered, dependsOn, from, base, env, now);
      var inner := StartDependencies(entered, dependsOn, env, now);
      StartDependencyTracked(inner, k, from, base, env, now);
      MildTrans(t.mgr.log, inner.mgr.log, StartDependency(inner, k, env, now).mgr.log, base);
    }
  }

  lemma MildSelf(log: Log, base: nat)
    ensures MildSince(log, log, base)
  {}

  lemma {:induction false} StartTracks(t: Traversal, dependsOn: seq<string>, from: nat, base: nat, env: Env,
                                       now: Instant)
    requires AllOk(t.mgr.services) && UniqueNames(t.mgr.services) && Tracked(t.mgr.services, from, base, t.started)
    ensures TracksFrom(t, StartDependencies(t, dependsOn, env, now), from, base)
    decreases Unvisited(t.mgr.services, t.visiting), |dependsOn|, 1
  {
    hide Tracked, MildSince, VisitDependency;
    if dependsOn == [] {
      MildSelf(t.mgr.log, base);
    } else {
      VisitTracks(t, dependsOn[0], from, base, env, now);
      var v := VisitDependency(t, dependsOn[0], env, now);
      UniqueSame(t.mgr.services, v.mgr.services);
      StartTracks(v, dependsOn[1..], from, base, env, now);
      MildTrans(t.mgr.log, v.mgr.log, StartDependencies(v, dependsOn[1..], env, now).mgr.log, base);
      forall x | x in t.visiting
        ensures x in v.visiting
      {
        InLonger(t.visiting, v.visiting, x);
      }
    }
  }

  lemma UniqueSame(ss: seq<Svc>, tt: seq<Svc>)
    requires SameConfigs(ss, tt) && UniqueNames(ss)
    ensures UniqueNames(tt)
  {
    assert forall i :: 0 <= i < |ss| ==> ss[i].config.name == tt[i].config.name;
  }

  lemma OneTracks(m: Mgr, code: CommandCode, i: nat, started: seq<string>, base: nat, env: Env, now: Instant)
    requires AllOk(m.services) && UniqueNames(m.services) && i < |m.services|
    requires Tracked(m.services, i, base, started) && !IsNew(m.services[i], base)
    ensures var r := ExecuteOne(m, code, i, started, env, now);
            MildSince(m.log, r.mgr.log, base) && Tracked(r.mgr.services, i + 1, base, r.started)
  {
    hide MildSince, StartDependencies, Start, Restart, Stop, Heartbeat, UniqueNames;
    MildSelf(m.log, base);
    var s := m.services[i];
    if code.StartCommand? || code.RestartCommand? {
      var entered := Traversal(m, [s.config.name], started, []);
      StartTracks(entered, s.config.dependsOn, i, base, env, now);
      var t := StartDependencies(entered, s.config.dependsOn, env, now);
      assert s.config.name in [s.config.name];
      assert t.mgr.services[i] == s;
      StartIsMild(s, t.mgr.log, CtxFor(t.mgr, i, env, now), base);
      RestartIsMild(s, t.mgr.log, CtxFor(t.mgr, i, env, now), base);
      MildTrans(m.log, t.mgr.log, ExecuteOne(m, code, i, started, env, now).mgr.log, base);
    } else {
      RestartIsMild(s, m.log, CtxFor(m, i, env, now), base);
      HeartbeatIsMild(s, m.log, now, base);
    }
  }

  lemma HeartbeatIsMild(s: Svc, log: Log, now: Instant, base: nat)
    ensures MildSince(log, Heartbeat(s, log, now).log, base)
  {}

  lemma {:induction false} AllTrack(t: Tally, code: CommandCode, i: nat, base: nat, env: Env, now: Instant)
    requires AllOk(t.mgr.services) && UniqueNames(t.mgr.services) && i <= |t.mgr.services|
    requires Tracked(t.mgr.services, i, base, t.started)
    ensures MildSince(t.mgr.log, ExecuteAll(t, code, i, env, now).mgr.log, base)
    decreases |t.mgr.services| - i
  {
    hide MildSince, ExecuteOne, UniqueNames;
    MildSelf(t.mgr.log, base);
    if i < |t.mgr.services| {
      var next := ExecuteNext(t, code, i, env, now);
      if !t.mgr.services[i].removing && t.mgr.services[i].config.name !in t.started {
        OneTracks(t.mgr, code, i, t.started, base, env, now);
      }
      UniqueSame(t.mgr.services, next.mgr.services);
      AllTrack(next, code, i + 1, base, env, now);
      MildTrans(t.mgr.log, next.mgr.log, ExecuteAll(next, code, i + 1, env, now).mgr.log, base);
    }
  }

  /**
   A command, the one for all services included, stops no process that it launched itself: what
   was started as a dependency of one service is not restarted again on its own turn.
   */
  lemma CommandUndoesNothing(m: Mgr, command: int, name: string, env: Env, now: Instant)
    requires Inv(m)
    ensures MildSince(m.log, Execute(m, command, name, env, now).mgr.log, |m.log|)
  {
    hide ExecuteAll, ExecuteOne, MildSince, UniqueNames, Processes, LaunchesSafe, DroppedQuiet;
    MildSelf(m.log, |m.log|);
    NothingNew(m);
    var parsed := CommandCodeFromByte(command);
    if parsed.Some? {
      AllTrack(Tally(m, [], 0), parsed.value, 0, |m.log|, env, now);
      var k := FindIndex(m.services, name);
      if k < |m.services| {
        OneTracks(m, parsed.value, k, [], |m.log|, env, now);
      }
    }
  }

  lemma NothingNew(m: Mgr)
    requires Inv(m)
    ensures Tracked(m.services, 0, |m.log|, []) && forall i :: 0 <= i < |m.services| ==> !IsNew(m.services[i], |m.log|)
  {
    forall i | 0 <= i < |m.services|
      ensures !IsNew(m.services[i], |m.log|)
    {
      assert Agrees(m.services[i], m.log);
    }
  }

  /** A process that was launched and has not exited is live. */
  lemma {:induction false} LaunchedLives(log: Log, id: nat)
    requires NothingBroken(log) && id < |log| && log[id].Launched? && log[id].id == id
    requires forall k :: id <= k < |log| ==> !log[k].Exited?
    ensures Lives(PhaseOf(log, id))
    decreases |log|
  {
    var front := log[..|log| - 1];
    assert !PhaseOf(log, id).Broken?;
    if id < |front| {
      PrefixUnbroken(log);
      LaunchedLives(front, id);
    }
  }

  lemma PrefixUnbroken(log: Log)
    requires log != [] && NothingBroken(log)
    ensures NothingBroken(log[..|log| - 1])
  {
    var front := log[..|log| - 1];
    forall id: nat
      ensures !PhaseOf(front, id).Broken?
    {
      assert !PhaseOf(log, id).Broken?;
    }
  }

  /** One command, the one for all services included, launches each service at most once. */
  lemma CommandLaunchesEachOnce(m: Mgr, command: int, name: string, env: Env, now: Instant, a: nat, b: nat)
    requires WellManaged(m)
    requires var log := Execute(m, command, name, env, now).mgr.log;
             && |m.log| <= a < |log| && |m.log| <= b < |log|
             && log[a].Launched? && log[b].Launched? && log[a].name == log[b].name
    ensures a == b
  {
    hide Execute, MildSince, OneProcessEach;
    var r := Execute(m, command, name, env, now).mgr;
    CommandUndoesNothing(m, command, name, env, now);
    ExecuteReaches(m, command, name, [], env, now);
    ReachesKeepsInv(m, r, [], env, now);
    InvOneProcess(r);
    NewLaunchLives(m.log, r.log, a);
    NewLaunchLives(m.log, r.log, b);
    SameNameSameProcess(r, a, b);
  }

  lemma NewLaunchLives(log: Log, newLog: Log, id: nat)
    requires MildSince(log, newLog, |log|) && NothingBroken(newLog)
    requires |log| <= id < |newLog| && newLog[id].Launched?
    ensures Lives(PhaseOf(newLog, id))
  {
    assert Mild(newLog[id], id, |log|);
    LaunchedLives(newLog, id);
  }

  lemma SameNameSameProcess(m: Mgr, a: nat, b: nat)
    requires OneProcessEach(m) && Lives(PhaseOf(m.log, a)) && Lives(PhaseOf(m.log, b))
    ensures LaunchedAs(m.log, a) && LaunchedAs(m.log, b) && (m.log[a].name == m.log[b].name ==> a == b)
  {}

  // ----- one command for all services reaches all of them

  /** The log refuses a launch of this name at or after `base`. */
  predicate RefusedSince(log: Log, base: nat, name: string) {
    exists k :: base <= k < |log| && log[k] == LaunchRefused(name)
  }

  /**
   What a start or a restart makes of a service s: one that is live keeps its process, and stops with
   a start queued if it was to be restarted or was stopping already, and is not touched otherwise; one
   that is not live has a new process, waits for a dependency that is not running, or rests because
   this command's launch was refused.
   */
  predicate Went(code: CommandCode, s: Svc, x: Svc, ss: seq<Svc>, log: Log, base: nat) {
    if IsAlive(s.state) then
      && x.child == s.child
      && if code.RestartCommand? || s.state.Stopping? then x.state.Stopping? && x.pendingStart else x == s
    else
      || (x.state.Starting? && IsNew(x, base))
      || (x.state.Waiting? && !DependenciesRunning(ss, x.config.dependsOn))
      || ((x.state.Failed? || x.state.Backoff?) && RefusedSince(log, base, x.config.name))
  }

  /** No service is running that was not. */
  predicate NoneMoreRunning(ss: seq<Svc>, tt: seq<Svc>) {
    SameConfigs(ss, tt) && forall i :: 0 <= i < |ss| && tt[i].state.Running? ==> ss[i].state.Running?
  }

  lemma FewerDependencies(ss: seq<Svc>, tt: seq<Svc>, dependsOn: seq<string>)
    requires NoneMoreRunning(ss, tt) && DependenciesRunning(tt, dependsOn)
    ensures DependenciesRunning(ss, dependsOn)
  {
    forall j | 0 <= j < |dependsOn|
      ensures var k := FindIndex(ss, dependsOn[j]); k < |ss| && ss[k].state.Running?
    {
      FindSame(ss, tt, dependsOn[j]);
    }
  }

  lemma WentLater(code: CommandCode, s: Svc, x: Svc, ss: seq<Svc>, log: Log, tt: seq<Svc>, newLog: Log, base: nat)
    requires Went(code, s, x, ss, log, base) && NoneMoreRunning(ss, tt) && log <= newLog
    ensures Went(code, s, x, tt, newLog, base)
  {
    hide DependenciesRunning;
    if DependenciesRunning(tt, x.config.dependsOn) {
      FewerDependencies(ss, tt, x.config.dependsOn);
    }
    if RefusedSince(log, base, x.config.name) {
      var k :| base <= k < |log| && log[k] == LaunchRefused(x.config.name);
      assert newLog[k] == log[k];
    }
  }

  /** A launch that is refused is the last thing that happened. */
  lemma RelaunchGoes(s: Svc, log: Log, ctx: Ctx)
    ensures var r := Relaunch(s, log, ctx);
            && log <= r.log && r.svc.config == s.config
            && ((r.svc.state.Starting? && r.svc.child.Some? && r.svc.child.value.id == |log|)
                || (r.svc.state.Waiting? && !ctx.dependenciesReady)
                || ((r.svc.state.Failed? || r.svc.state.Backoff?) && r.log == log + [LaunchRefused(s.config.name)]))
  {
    hide ScheduleRestart;
    ScheduleRests(s.(report := s.report.(lastExitCode := 127, lastExitTime := ctx.now.wallNs)), ctx.now);
  }

  lemma ScheduleRests(s: Svc, now: Instant)
    ensures ScheduleRestart(s, now).state.Failed? || ScheduleRestart(s, now).state.Backoff?
  {}

  lemma RelaunchWent(code: CommandCode, s: Svc, x: Svc, log: Log, ctx: Ctx, ss: seq<Svc>, base: nat)
    requires !IsAlive(s.state) && base <= |log|
    requires ctx.dependenciesReady == DependenciesRunning(ss, x.config.dependsOn)
    ensures var r := Relaunch(x, log, ctx); Went(code, s, r.svc, ss, r.log, base) && !r.svc.state.Running?
  {
    hide Relaunch, DependenciesRunning;
    RelaunchGoes(x, log, ctx);
    var r := Relaunch(x, log, ctx);
    if r.svc.state.Failed? || r.svc.state.Backoff? {
      assert r.log[|log|] == LaunchRefused(x.config.name);
    }
  }

  /** The first start of s by this command, or a start after others have gone before. */
  lemma StartWent(code: CommandCode, s: Svc, x: Svc, log: Log, ctx: Ctx, ss: seq<Svc>, base: nat)
    requires SvcInv(x) && base <= |log| && ctx.dependenciesReady == DependenciesRunning(ss, x.config.dependsOn)
    requires x == s || Went(code, s, x, ss, log, base)
    ensures var r := Start(x, log, ctx);
            && log <= r.log && (r.svc.state.Running? ==> x.state.Running?)
            && (x != s || !WasUp(s.state) || code.StartCommand? ==> Went(code, s, r.svc, ss, r.log, base))
            && (WasUp(x.state) ==> r.svc == x && r.log == log)
  {
    hide Relaunch, DependenciesRunning;
    if !IsAlive(x.state) {
      var y := if x.state.Waiting? then x else x.(history := NO_HISTORY);
      assert Start(x, log, ctx) == Relaunch(y, log, ctx);
      RelaunchWent(code, s, y, log, ctx, ss, base);
      RelaunchGoes(y, log, ctx);
    }
  }

  lemma RestartWent(s: Svc, log: Log, ctx: Ctx, ss: seq<Svc>, base: nat)
    requires SvcInv(s) && base <= |log| && ctx.dependenciesReady == DependenciesRunning(ss, s.config.dependsOn)
    ensures var r := Restart(s, log, ctx);
            log <= r.log && !r.svc.state.Running? && Went(RestartCommand, s, r.svc, ss, r.log, base)
  {
    hide Start, DependenciesRunning;
    if !IsAlive(s.state) {
      StartWent(RestartCommand, s, s, log, ctx, ss, base);
    }
  }

  /** Which services the command has dealt with before it comes to index i. */
  predicate DealtWith(s: Svc, j: nat, i: nat, started: seq<string>) {
    (j < i && !s.removing) || s.config.name in started
  }

  /** Every service dealt with has gone as it should; the others are as they were. */
  predicate AllWent(m: Mgr, r: Mgr, code: CommandCode, i: nat, started: seq<string>) {
    && SameConfigs(m.services, r.services) && m.log <= r.log
    && forall j :: 0 <= j < |m.services| ==>
         if DealtWith(m.services[j], j, i, started) then
           Went(code, m.services[j], r.services[j], r.services, r.log, |m.log|)
         else
           r.services[j] == m.services[j]
  }

  /** One call on service k, with what it makes of that service. */
  lemma OneWent(m: Mgr, a: Mgr, b: Mgr, code: CommandCode, i: nat, started: seq<string>, k: nat, i2: nat,
                more: seq<string>)
    requires AllWent(m, a, code, i, started) && SameConfigs(a.services, b.services) && a.log <= b.log
    requires k < |a.services| && forall j :: 0 <= j < |a.services| && j != k ==> b.services[j] == a.services[j]
    requires b.services[k].state.Running? ==> a.services[k].state.Running?
    requires forall j :: 0 <= j < |m.services| && j != k ==>
               DealtWith(m.services[j], j, i2, more) == DealtWith(m.services[j], j, i, started)
    requires if DealtWith(m.services[k], k, i2, more) then
               Went(code, m.services[k], b.services[k], a.services, b.log, |m.log|)
             else b.services[k] == m.services[k]
    ensures AllWent(m, b, code, i2, more)
  {
    hide Went, DealtWith;
    SameConfigsTrans(m.services, a.services, b.services);
    forall j | 0 <= j < |m.services| && DealtWith(m.services[j], j, i2, more)
      ensures Went(code, m.services[j], b.services[j], b.services, b.log, |m.log|)
    {
      if j == k {
        WentLater(code, m.services[k], b.services[k], a.services, b.log, b.services, b.log, |m.log|);
      } else {
        WentLater(code, m.services[j], b.services[j], a.services, a.log, b.services, b.log, |m.log|);
      }
    }
  }

  lemma StartDependencyWent(m: Mgr, t: Traversal, code: CommandCode, i: nat, k: nat, env: Env, now: Instant)
    requires AllOk(t.mgr.services) && UniqueNames(m.services) && k < |t.mgr.services|
    requires AllWent(m, t.mgr, code, i, t.started) && (code.StartCommand? || code.RestartCommand?)
    ensures var r := StartDependency(t, k, env, now); AllWent(m, r.mgr, code, i, r.started)
  {
    hide Start, Went;
    var r := StartDependency(t, k, env, now);
    var s, x := m.services[k], t.mgr.services[k];
    assert SameSettings(s, x);
    StartWent(code, s, x, t.mgr.log, CtxFor(t.mgr, k, env, now), t.mgr.services, |m.log|);
    forall j | 0 <= j < |m.services| && j != k
      ensures DealtWith(m.services[j], j, i, r.started) == DealtWith(m.services[j], j, i, t.started)
    {
      assert m.services[j].config.name != s.config.name;
    }
    OneWent(m, t.mgr, r.mgr, code, i, t.started, k, i, r.started);
  }

  lemma {:induction false} VisitWent(m: Mgr, t: Traversal, code: CommandCode, i: nat, name: string, env: Env,
                                     now: Instant)
    requires AllOk(t.mgr.services) && UniqueNames(m.services) && (code.StartCommand? || code.RestartCommand?)
    requires AllWent(m, t.mgr, code, i, t.started)
    ensures var r := VisitDependency(t, name, env, now); AllWent(m, r.mgr, code, i, r.started)
    decreases Unvisited(t.mgr.services, t.visiting), 0, 0
  {
    hide AllWent, StartDependencies, UniqueNames, StartDependency;
    var k := FindIndex(t.mgr.services, name);
    if k < |t.mgr.services| && name !in t.visiting {
      var entered := t.(visiting := t.visiting + [name]);
      UnvisitedShrinks(t.mgr.services, t.mgr.services, name, t.visiting, entered.visiting);
      var dependsOn := t.mgr.services[k].config.dependsOn;
      StartsWent(m, entered, code, i, dependsOn, env, now);
      StartDependencyWent(m, StartDependencies(entered, dependsOn, env, now), code, i, k, env, now);
    }
  }

  lemma {:induction false} StartsWent(m: Mgr, t: Traversal, code: CommandCode, i: nat, dependsOn: seq<string>, env: Env,
                                      now: Instant)
    requires AllOk(t.mgr.services) && UniqueNames(m.services) && (code.StartCommand? || code.RestartCommand?)
    requires AllWent(m, t.mgr, code, i, t.started)
    ensures var r := StartDependencies(t, dependsOn, env, now); AllWent(m, r.mgr, code, i, r.started)
    decreases Unvisited(t.mgr.services, t.visiting), |dependsOn|, 1
  {
    hide AllWent, VisitDependency, UniqueNames;
    if dependsOn != [] {
      VisitWent(m, t, code, i, dependsOn[0], env, now);
      StartsWent(m, VisitDependency(t, dependsOn[0], env, now), code, i, dependsOn[1..], env, now);
    }
  }

  /** The call on service i itself, which nothing before has touched. */
  lemma OwnTurn(m: Mgr, t: Mgr, code: CommandCode, i: nat, started: seq<string>, env: Env, now: Instant)
    requires AllOk(t.services) && UniqueNames(m.services) && i < |t.services| && !t.services[i].removing
    requires AllWent(m, t, code, i, started) && t.services[i] == m.services[i]
    requires code.StartCommand? || code.RestartCommand?
    ensures var r := Act(t, i, if code.RestartCommand? then RestartOp else StartOp, env, now).mgr;
            AllWent(m, r, code, i + 1, started)
  {
    hide Start, Restart, Went;
    var s := m.services[i];
    var ctx := CtxFor(t, i, env, now);
    StartWent(code, s, s, t.log, ctx, t.services, |m.log|);
    RestartWent(s, t.log, ctx, t.services, |m.log|);
    var r := Act(t, i, if code.RestartCommand? then RestartOp else StartOp, env, now).mgr;
    assert Went(code, s, r.services[i], t.services, r.log, |m.log|);
    OneWent(m, t, r, code, i, started, i, i + 1, started);
  }

  lemma NewAreStarted(m: Mgr, r: Mgr, code: CommandCode, i: nat, started: seq<string>)
    requires AllWent(m, r, code, i, started)
    requires forall j :: 0 <= j < |m.services| ==> !IsNew(m.services[j], |m.log|)
    ensures Tracked(r.services, i, |m.log|, started)
  {
    forall j | i <= j < |r.services| && IsNew(r.services[j], |m.log|)
      ensures r.services[j].config.name in started
    {
      assert SameSettings(m.services[j], r.services[j]);
    }
  }

  lemma NextWent(m: Mgr, t: Tally, code: CommandCode, i: nat, env: Env, now: Instant)
    requires AllOk(t.mgr.services) && UniqueNames(m.services) && i < |t.mgr.services|
    requires code.StartCommand? || code.RestartCommand?
    requires AllWent(m, t.mgr, code, i, t.started)
    requires forall j :: 0 <= j < |m.services| ==> !IsNew(m.services[j], |m.log|)
    ensures var r := ExecuteNext(t, code, i, env, now); AllWent(m, r.mgr, code, i + 1, r.started)
  {
    hide Act, Went, IsNew, Tracked, StartDependencies;
    var s := t.mgr.services[i].config;
    assert SameSettings(m.services[i], t.mgr.services[i]);
    if !t.mgr.services[i].removing && s.name !in t.started {
      var entered := Traversal(t.mgr, [s.name], t.started, []);
      UniqueSame(m.services, t.mgr.services);
      NewAreStarted(m, t.mgr, code, i, t.started);
      StartTracks(entered, s.dependsOn, i, |m.log|, env, now);
      StartsWent(m, entered, code, i, s.dependsOn, env, now);
      var inner := StartDependencies(entered, s.dependsOn, env, now);
      assert s.name in [s.name];
      assert inner.mgr.services[i] == m.services[i];
      OwnTurn(m, inner.mgr, code, i, inner.started, env, now);
    }
  }

  lemma {:induction false} AllGo(m: Mgr, t: Tally, code: CommandCode, i: nat, env: Env, now: Instant)
    requires AllOk(t.mgr.services) && UniqueNames(m.services) && i <= |t.mgr.services|
    requires code.StartCommand? || code.RestartCommand?
    requires AllWent(m, t.mgr, code, i, t.started)
    requires forall j :: 0 <= j < |m.services| ==> !IsNew(m.services[j], |m.log|)
    ensures var r := ExecuteAll(t, code, i, env, now); AllWent(m, r.mgr, code, |m.services|, r.started)
    decreases |t.mgr.services| - i
  {
    hide ExecuteNext, UniqueNames, AllWent, IsNew;
    if i < |t.mgr.services| {
      NextWent(m, t, code, i, env, now);
      AllGo(m, ExecuteNext(t, code, i, env, now), code, i + 1, env, now);
    } else {
      assert |t.mgr.services| == |m.services| by {
        SameLength(m, t.mgr, code, i, t.started);
      }
    }
  }

  lemma SameLength(m: Mgr, r: Mgr, code: CommandCode, i: nat, started: seq<string>)
    requires AllWent(m, r, code, i, started)
    ensures |r.services| == |m.services|
  {}

  /** What a stop makes of a service: it keeps its process, which is stopping, or is stopped; nothing stays queued. */
  predicate WasStopped(s: Svc, x: Svc) {
    x.child == s.child && Quiet(x) && (x.state.Stopping? <==> IsAlive(s.state))
  }

  lemma StopGoes(s: Svc, log: Log, ctx: Ctx)
    requires SvcInv(s)
    ensures WasStopped(s, Stop(s, log, ctx).svc)
  {}

  lemma NextStops(t: Tally, i: nat, env: Env, now: Instant, j: nat)
    requires AllOk(t.mgr.services) && i < |t.mgr.services| && j < |t.mgr.services| && t.started == []
    ensures var s, r := t.mgr.services[j], ExecuteNext(t, StopCommand, i, env, now);
            && r.started == []
            && if j != i || s.removing then r.mgr.services[j] == s else WasStopped(s, r.mgr.services[j])
  {
    hide Stop, WasStopped, SvcInv;
    StopGoes(t.mgr.services[i], t.mgr.log, CtxFor(t.mgr, i, env, now));
  }

  lemma {:induction false} AllStop(t: Tally, i: nat, env: Env, now: Instant, j: nat)
    requires AllOk(t.mgr.services) && i <= |t.mgr.services| && j < |t.mgr.services| && t.started == []
    ensures var s, r := t.mgr.services[j], ExecuteAll(t, StopCommand, i, env, now).mgr.services[j];
            if j < i || s.removing then r == s else WasStopped(s, r)
    decreases |t.mgr.services| - i
  {
    hide ExecuteNext, WasStopped;
    if i < |t.mgr.services| {
      NextStops(t, i, env, now, j);
      var next := ExecuteNext(t, StopCommand, i, env, now);
      SameNamesRemoving(t.mgr.services, next.mgr.services);
      AllStop(next, i + 1, env, now, j);
    }
  }

  lemma SameNamesRemoving(ss: seq<Svc>, tt: seq<Svc>)
    requires SameConfigs(ss, tt)
    ensures forall j :: 0 <= j < |ss| ==> tt[j].removing == ss[j].removing
  {
    forall j | 0 <= j < |ss|
      ensures tt[j].removing == ss[j].removing
    {
      assert SameSettings(ss[j], tt[j]);
    }
  }

  /**
   A command for all services reaches every one that is not being removed, and does to each exactly
   what it should: `Went` for a start or a restart, `WasStopped` for a stop.
   */
  lemma WildcardReachesAll(m: Mgr, command: int, env: Env, now: Instant, j: nat)
    requires Inv(m) && !m.shuttingDown && j < |m.services| && !m.services[j].removing
    requires Refusal(m, command, ALL_SERVICES).None?
    ensures var r := Execute(m, command, ALL_SERVICES, env, now).mgr;
            var code := CommandCodeFromByte(command).value;
            if code.StopCommand? then WasStopped(m.services[j], r.services[j])
            else Went(code, m.services[j], r.services[j], r.services, r.log, |m.log|)
  {
    hide ExecuteAll, UniqueNames, Went, WasStopped, Processes, LaunchesSafe, DroppedQuiet;
    var t := Tally(m, [], 0);
    var code := CommandCodeFromByte(command).value;
    if code.StopCommand? {
      AllStop(t, 0, env, now, j);
    } else {
      NothingNew(m);
      AllGo(m, t, code, 0, env, now);
      assert DealtWith(m.services[j], j, |m.services|, ExecuteAll(t, code, 0, env, now).started);
    }
  }
}
