/** What one command does, for one named service and for all, and what it answers. */
module NamedCommands {
  import opened Wrappers
  import opened Launching
  import opened ServiceSpec
  import opened Heartbeats
  import opened ManagerSpec
  import opened MicroSteps
  import opened Graphs
  import opened Runs
  import opened StartOrder
  import opened Execution
  import opened Starts

  // The bytes of the commands.
  const START: int := 78
  const STOP: int := 79
  const RESTART: int := 81
  const HEARTBEAT: int := 90

  // ----- stop and heartbeat

  /** A stop asks a process that is not stopping yet, and no other, once. */
  predicate StopLogged(s: Svc, log: Log, newLog: Log) {
    if IsUp(s) then
      && |newLog| == |log| + 1 && log <= newLog && newLog[|log|].StopRequested?
      && s.child.Some? && s.child.value.id == newLog[|log|].id
    else
      newLog == log
  }

  lemma StopDoes(s: Svc, log: Log, ctx: Ctx)
    requires SvcInv(s)
    ensures var r := Stop(s, log, ctx);
            && WasStopped(s, r.svc) && StopLogged(s, log, r.log)
            && r.result == if s.state.Stopping? || s.state.Stopped? then AlreadyInState else Ok
  {}

  /** A stop of one service: what becomes of it, and of nothing else. */
  lemma StopNamed(m: Mgr, name: string, env: Env, now: Instant, k: nat)
    requires AllOk(m.services) && UniqueNames(m.services) && !m.shuttingDown && name != ALL_SERVICES
    requires k < |m.services| && m.services[k].config.name == name && !m.services[k].removing
    ensures var r := Execute(m, STOP, name, env, now);
            var s := m.services[k];
            && r.mgr.services == m.services[k := r.mgr.services[k]] && WasStopped(s, r.mgr.services[k])
            && StopLogged(s, m.log, r.mgr.log)
            && r.result == if s.state.Stopping? || s.state.Stopped? then AlreadyInState else Ok
  {
    hide Stop, WasStopped, StopLogged;
    FoundHere(m.services, k);
    StopDoes(m.services[k], m.log, CtxFor(m, k, env, now));
  }

  lemma FoundHere(ss: seq<Svc>, k: nat)
    requires UniqueNames(ss) && k < |ss|
    ensures FindIndex(ss, ss[k].config.name) == k
  {}

  /** A beat: an up service is running, with its last beat now and none missed; any other refuses it. */
  predicate WasBeaten(s: Svc, x: Svc, now: Instant) {
    if IsUp(s) then
      && x.state.Running? && x.child == s.child && x.config == s.config && x.history == s.history
      && x.timers == s.timers.(lastBeat := now.steady)
      && x.report == s.report.(lastSeen := now.wallNs, missedBeats := 0)
    else
      x == s
  }

  /** A heartbeat of one service, also while shutting down. */
  lemma HeartbeatNamed(m: Mgr, name: string, env: Env, now: Instant, k: nat)
    requires AllOk(m.services) && UniqueNames(m.services) && name != ALL_SERVICES
    requires k < |m.services| && m.services[k].config.name == name && !m.services[k].removing
    ensures var r := Execute(m, HEARTBEAT, name, env, now);
            && r.mgr.services == m.services[k := r.mgr.services[k]] && r.mgr.log == m.log
            && WasBeaten(m.services[k], r.mgr.services[k], now)
            && r.result == if IsUp(m.services[k]) then Ok else InvalidState
  {
    hide Heartbeat, WasBeaten;
    FoundHere(m.services, k);
    HeartbeatDoes(m.services[k], m.log, now);
  }

  lemma HeartbeatDoes(s: Svc, log: Log, now: Instant)
    ensures var r := Heartbeat(s, log, now);
            && WasBeaten(s, r.svc, now) && r.log == log && r.result == if IsUp(s) then Ok else InvalidState
  {}

  // ----- start and restart

  /** What a start or a restart answers, by what was and what has become of the service. */
  function Answer(code: CommandCode, s: Svc, x: Svc): CommandResult {
    if IsUp(s) && code.StartCommand? then AlreadyInState
    else if !IsAlive(s.state) && (x.state.Failed? || x.state.Backoff?) then LaunchFailed
    else Ok
  }

  lemma RelaunchAnswers(s: Svc, log: Log, ctx: Ctx)
    requires !IsAlive(s.state)
    ensures var r := Relaunch(s, log, ctx);
            r.result == if r.svc.state.Failed? || r.svc.state.Backoff? then LaunchFailed else Ok
  {
    hide ScheduleRestart;
    ScheduleRests(s.(report := s.report.(lastExitCode := 127, lastExitTime := ctx.now.wallNs)), ctx.now);
  }

  lemma StartAnswers(s: Svc, log: Log, ctx: Ctx)
    requires SvcInv(s)
    ensures var r := Start(s, log, ctx); r.result == Answer(StartCommand, s, r.svc)
    ensures var r := Restart(s, log, ctx);
            && r.result == Answer(RestartCommand, s, r.svc)
            && (IsAlive(s.state) ==> r.svc.pendingStart && r.svc.pendingStartIsRestart)
  {
    hide Relaunch;
    if !IsAlive(s.state) {
      RelaunchAnswers(s, log, ctx);
      RelaunchAnswers(s.(history := NO_HISTORY), log, ctx);
    }
  }

  /** What is needed by this service, itself excepted. */
  ghost function Below(g: Graph, own: string): Scope {
    name => name != own && Leads(g, own, name)
  }

  lemma BelowCloses(ss: seq<Svc>, own: string)
    ensures ScopeCloses(ss, Below(HeldGraph(ss), own), own)
  {
    hide Leads;
    forall i, d | 0 <= i < |ss| && Below(HeldGraph(ss), own)(ss[i].config.name) &&
      d in ss[i].config.dependsOn && HeldName(ss, d)
      ensures Below(HeldGraph(ss), own)(d) || d == own
    {
      DependencyEdge(ss, i, d);
      LeadsOn(HeldGraph(ss), own, ss[i].config.name, d);
    }
  }

  lemma OwnNeeds(ss: seq<Svc>, k: nat)
    requires k < |ss|
    ensures Leaves(ss, ss[k].config.dependsOn, Below(HeldGraph(ss), ss[k].config.name), ss[k].config.name)
  {
    hide Leads;
    AllLeadHere(ss, k);
    forall d | d in ss[k].config.dependsOn && HeldName(ss, d)
      ensures Leads(HeldGraph(ss), ss[k].config.name, d)
    {}
  }

  /** What is needed has been started first, and the service itself has not been touched by that. */
  lemma NeedsFirst(m: Mgr, k: nat, before: seq<string>, env: Env, now: Instant)
    requires AllOk(m.services) && UniqueNames(m.services) && k < |m.services|
    ensures var own := m.services[k].config.name;
            var t := StartDependencies(Traversal(m, [own], before, []), m.services[k].config.dependsOn, env, now).mgr;
            Started(m, t, {}, Below(HeldGraph(m.services), own)) && t.services[k] == m.services[k]
  {
    hide Started, StartDependencies, UniqueNames, Below;
    var own := m.services[k].config.name;
    var scope := Below(HeldGraph(m.services), own);
    StartedNone(m, scope);
    BelowCloses(m.services, own);
    OwnNeeds(m.services, k);
    assert own in [own];
    DependenciesStart(m, Traversal(m, [own], before, []), m.services[k].config.dependsOn, {}, scope, own, env, now);
    OutOfScope(m, StartDependencies(Traversal(m, [own], before, []), m.services[k].config.dependsOn, env, now).mgr, k);
  }

  lemma OutOfScope(m: Mgr, r: Mgr, k: nat)
    requires k < |m.services| && Started(m, r, {}, Below(HeldGraph(m.services), m.services[k].config.name))
    ensures |r.services| == |m.services| && r.services[k] == m.services[k]
  {
    var scope := Below(HeldGraph(m.services), m.services[k].config.name);
    assert MayHaveGone(m.services[k], r.services[k], r, |m.log|, {}, scope);
  }

  /**
   What a start or a restart of service k does: it goes as the command says; of the others, what it needs,
   directly or through others, may have been started, and nothing else is touched. The answer says that
   it was up already, that its launch was refused, or that all is well.
   */
  ghost predicate GoesAlone(code: CommandCode, m: Mgr, r: Mgr, result: CommandResult, k: nat)
    requires k < |m.services|
  {
    && SameConfigs(m.services, r.services) && m.log <= r.log
    && Went(code, m.services[k], r.services[k], r.services, r.log, |m.log|)
    && result == Answer(code, m.services[k], r.services[k])
    && forall j :: 0 <= j < |m.services| && j != k ==>
         MayHaveGone(m.services[j], r.services[j], r, |m.log|, {},
                     Below(HeldGraph(m.services), m.services[k].config.name))
  }

  /** The launches are of the service itself and of what it needs. */
  ghost predicate LaunchesNeeded(m: Mgr, r: Mgr, k: nat)
    requires k < |m.services|
  {
    forall i :: |m.log| <= i < |r.log| && (r.log[i].Launched? || r.log[i].LaunchRefused?) ==>
      Leads(HeldGraph(m.services), m.services[k].config.name, r.log[i].name)
  }

  lemma OwnCall(m: Mgr, t: Mgr, code: CommandCode, k: nat, env: Env, now: Instant)
    requires AllOk(m.services) && AllOk(t.services) && UniqueNames(m.services) && k < |m.services|
    requires code.StartCommand? || code.RestartCommand?
    requires Started(m, t, {}, Below(HeldGraph(m.services), m.services[k].config.name))
    requires k < |t.services| && t.services[k] == m.services[k]
    ensures var r := Act(t, k, if code.RestartCommand? then RestartOp else StartOp, env, now);
            GoesAlone(code, m, r.mgr, r.result, k)
  {
    hide Start, Restart, Went, Below, Answer, NoneMoreRunning;
    var r := Act(t, k, if code.RestartCommand? then RestartOp else StartOp, env, now);
    var s, ctx := m.services[k], CtxFor(t, k, env, now);
    var scope := Below(HeldGraph(m.services), s.config.name);
    StartAnswers(s, t.log, ctx);
    StartWent(code, s, s, t.log, ctx, t.services, |m.log|);
    RestartWent(s, t.log, ctx, t.services, |m.log|);
    SameConfigsTrans(m.services, t.services, r.mgr.services);
    NoneMore(t.services, r.mgr.services, k);
    WentLater(code, s, r.mgr.services[k], t.services, r.mgr.log, r.mgr.services, r.mgr.log, |m.log|);
    forall j | 0 <= j < |m.services| && j != k
      ensures MayHaveGone(m.services[j], r.mgr.services[j], r.mgr, |m.log|, {}, scope)
    {
      assert MayHaveGone(m.services[j], t.services[j], t, |m.log|, {}, scope);
      if Went(StartCommand, m.services[j], t.services[j], t.services, t.log, |m.log|) {
        WentLater(StartCommand, m.services[j], t.services[j], t.services, t.log, r.mgr.services, r.mgr.log, |m.log|);
      }
    }
  }

  lemma OwnLaunches(m: Mgr, t: Mgr, code: CommandCode, k: nat, env: Env, now: Instant)
    requires AllOk(m.services) && AllOk(t.services) && k < |m.services|
    requires code.StartCommand? || code.RestartCommand?
    requires Started(m, t, {}, Below(HeldGraph(m.services), m.services[k].config.name))
    requires k < |t.services| && t.services[k] == m.services[k]
    ensures var r := Act(t, k, if code.RestartCommand? then RestartOp else StartOp, env, now);
            LaunchesNeeded(m, r.mgr, k)
  {
    hide Start, Leads, MayHaveGone;
    var r := Act(t, k, if code.RestartCommand? then RestartOp else StartOp, env, now).mgr;
    var s, ctx := m.services[k], CtxFor(t, k, env, now);
    StartLogsOwn(s, t.log, ctx);
    LeadsToItself(HeldGraph(m.services), s.config.name);
    forall i | |m.log| <= i < |r.log| && (r.log[i].Launched? || r.log[i].LaunchRefused?)
      ensures Leads(HeldGraph(m.services), s.config.name, r.log[i].name)
    {
      if i < |t.log| {
        assert r.log[i] == t.log[i];
      }
    }
  }

  lemma LeadsToItself(g: Graph, name: string)
    ensures Leads(g, name, name)
  {
    assert LeadsBy(g, [name], name, name);
  }

  lemma OneGoes(m: Mgr, code: CommandCode, k: nat, before: seq<string>, env: Env, now: Instant)
    requires AllOk(m.services) && UniqueNames(m.services) && k < |m.services|
    requires code.StartCommand? || code.RestartCommand?
    ensures var r := ExecuteOne(m, code, k, before, env, now);
            GoesAlone(code, m, r.mgr, r.result, k) && LaunchesNeeded(m, r.mgr, k)
  {
    hide Act, StartDependencies, GoesAlone, LaunchesNeeded, Below, UniqueNames, Started;
    var own := m.services[k].config;
    var t := StartDependencies(Traversal(m, [own.name], before, []), own.dependsOn, env, now).mgr;
    NeedsFirst(m, k, before, env, now);
    OwnCall(m, t, code, k, env, now);
    OwnLaunches(m, t, code, k, env, now);
  }

  /** A start or a restart of one service by its name. */
  lemma StartNamed(m: Mgr, command: int, name: string, env: Env, now: Instant, k: nat)
    requires AllOk(m.services) && UniqueNames(m.services) && !m.shuttingDown && name != ALL_SERVICES
    requires k < |m.services| && m.services[k].config.name == name && !m.services[k].removing
    requires command == START || command == RESTART
    ensures var r := Execute(m, command, name, env, now);
            && GoesAlone(if command == START then StartCommand else RestartCommand, m, r.mgr, r.result, k)
            && LaunchesNeeded(m, r.mgr, k)
  {
    hide ExecuteOne, GoesAlone, LaunchesNeeded;
    FoundHere(m.services, k);
    OneGoes(m, if command == START then StartCommand else RestartCommand, k, [], env, now);
  }

  // ----- a command for all services

  /** What a command does to service k on its own turn, with its answer. */
  ghost predicate TurnGoes(code: CommandCode, m: Mgr, r: Mgr, result: CommandResult, k: nat)
    requires k < |m.services|
  {
    if code.StopCommand? then
      && |r.services| == |m.services| && r.services == m.services[k := r.services[k]]
      && WasStopped(m.services[k], r.services[k]) && StopLogged(m.services[k], m.log, r.log)
      && result == if m.services[k].state.Stopping? || m.services[k].state.Stopped? then AlreadyInState else Ok
    else
      GoesAlone(code, m, r, result, k) && LaunchesNeeded(m, r, k)
  }

  lemma {:induction false} VisitStartsCalled(t: Traversal, name: string, env: Env, now: Instant)
    requires AllOk(t.mgr.services)
    ensures var r := VisitDependency(t, name, env, now);
            t.calls <= r.calls && forall n :: n in r.started ==> n in t.started || n in r.calls
    decreases Unvisited(t.mgr.services, t.visiting), 0, 0
  {
    hide Act, StartDependencies;
    var k := FindIndex(t.mgr.services, name);
    if k < |t.mgr.services| && name !in t.visiting {
      var entered := t.(visiting := t.visiting + [name]);
      UnvisitedShrinks(t.mgr.services, t.mgr.services, name, t.visiting, entered.visiting);
      DependenciesStartCalled(entered, t.mgr.services[k].config.dependsOn, env, now);
    }
  }

  lemma {:induction false} DependenciesStartCalled(t: Traversal, dependsOn: seq<string>, env: Env, now: Instant)
    requires AllOk(t.mgr.services)
    ensures var r := StartDependencies(t, dependsOn, env, now);
            t.calls <= r.calls && forall n :: n in r.started ==> n in t.started || n in r.calls
    decreases Unvisited(t.mgr.services, t.visiting), |dependsOn|, 1
  {
    hide VisitDependency;
    if dependsOn != [] {
      VisitStartsCalled(t, dependsOn[0], env, now);
      var v := VisitDependency(t, dependsOn[0], env, now);
      DependenciesStartCalled(v, dependsOn[1..], env, now);
      PrefixIn(v.calls, StartDependencies(v, dependsOn[1..], env, now).calls);
    }
  }

  /** Everything on the list of started ones is needed by an earlier service that had its turn. */
  ghost predicate AllNeeded(ss: seq<Svc>, answers: seq<Option<CommandResult>>, started: seq<string>) {
    forall n :: n in started ==> NeededEarlier(ss, answers, n)
  }

  ghost predicate NeededEarlier(ss: seq<Svc>, answers: seq<Option<CommandResult>>, name: string) {
    exists h :: 0 <= h < |answers| && h < |ss| && answers[h].Some? && Below(HeldGraph(ss), ss[h].config.name)(name)
  }

  lemma StartedAreNeeded(m: Mgr, k: nat, before: seq<string>, env: Env, now: Instant, n: string)
    requires AllOk(m.services) && UniqueNames(m.services) && k < |m.services|
    requires n in StartWithDependencies(m, k, false, before, env, now).started ||
             n in StartWithDependencies(m, k, true, before, env, now).started
    ensures n in before || Below(HeldGraph(m.services), m.services[k].config.name)(n)
  {
    hide StartDependencies, Act;
    var own := m.services[k].config;
    DependenciesStartCalled(Traversal(m, [own.name], before, []), own.dependsOn, env, now);
    StartsExactlyWhatIsNeeded(m, k, before, env, now, n);
  }

  /** What turn i came to: passed over, because service i is being removed or was needed earlier, or done. */
  ghost predicate TurnIs(code: CommandCode, m: Mgr, a: Mgr, b: Mgr, answers: seq<Option<CommandResult>>, i: nat)
    requires i < |answers| && i < |m.services| && i < |a.services|
  {
    match answers[i]
    case None =>
      b == a && (m.services[i].removing || NeededEarlier(m.services, answers[..i], m.services[i].config.name))
    case Some(answer) => !m.services[i].removing && TurnGoes(code, a, b, answer, i)
  }

  /** Turns from the first service to the n-th, one after the other. */
  ghost predicate TurnsGo(code: CommandCode, m: Mgr, turns: seq<Mgr>, answers: seq<Option<CommandResult>>, n: nat) {
    && |turns| == n + 1 && |answers| == n && n <= |m.services| && turns[0] == m
    && (forall i :: 0 <= i <= n ==> SameConfigs(m.services, turns[i].services))
    && (forall i :: 0 <= i < n ==> TurnIs(code, m, turns[i], turns[i + 1], answers, i))
  }

  predicate OneFailed(answers: seq<Option<CommandResult>>) {
    exists i :: 0 <= i < |answers| && answers[i] == Some(LaunchFailed)
  }

  lemma StopTurn(m: Mgr, k: nat, before: seq<string>, env: Env, now: Instant)
    requires AllOk(m.services) && k < |m.services|
    ensures var r := ExecuteOne(m, StopCommand, k, before, env, now);
            TurnGoes(StopCommand, m, r.mgr, r.result, k) && r.started == before
  {
    hide Stop, WasStopped, StopLogged;
    StopDoes(m.services[k], m.log, CtxFor(m, k, env, now));
  }

  lemma OneTurn(m: Mgr, code: CommandCode, k: nat, before: seq<string>, env: Env, now: Instant)
    requires AllOk(m.services) && UniqueNames(m.services) && k < |m.services|
    requires code.StartCommand? || code.RestartCommand? || code.StopCommand?
    ensures var r := ExecuteOne(m, code, k, before, env, now);
            && TurnGoes(code, m, r.mgr, r.result, k)
            && (r.result.LaunchFailed? || IsSuccess(r.result))
            && forall n :: n in r.started ==> n in before || Below(HeldGraph(m.services), m.services[k].config.name)(n)
  {
    hide ExecuteOne, GoesAlone, LaunchesNeeded, Below;
    if code.StopCommand? {
      StopTurn(m, k, before, env, now);
    } else {
      OneGoes(m, code, k, before, env, now);
      AloneAnswers(code, m, ExecuteOne(m, code, k, before, env, now), k);
      forall n | n in ExecuteOne(m, code, k, before, env, now).started
        ensures n in before || Below(HeldGraph(m.services), m.services[k].config.name)(n)
      {
        IsStart(m, code, k, before, env, now);
        StartedAreNeeded(m, k, before, env, now, n);
      }
    }
  }

  lemma IsStart(m: Mgr, code: CommandCode, k: nat, before: seq<string>, env: Env, now: Instant)
    requires AllOk(m.services) && k < |m.services| && (code.StartCommand? || code.RestartCommand?)
    ensures ExecuteOne(m, code, k, before, env, now) ==
            StartWithDependencies(m, k, code.RestartCommand?, before, env, now)
  {}

  lemma AloneAnswers(code: CommandCode, m: Mgr, r: Commanded, k: nat)
    requires k < |m.services| && GoesAlone(code, m, r.mgr, r.result, k)
    ensures r.result.LaunchFailed? || IsSuccess(r.result)
  {}

  lemma TurnAppends(code: CommandCode, m: Mgr, turns: seq<Mgr>, answers: seq<Option<CommandResult>>, n: nat, b: Mgr,
                    answer: Option<CommandResult>)
    requires TurnsGo(code, m, turns, answers, n) && n < |m.services| && SameConfigs(m.services, b.services)
    requires |turns[n].services| == |m.services| && TurnIs(code, m, turns[n], b, answers + [answer], n)
    ensures TurnsGo(code, m, turns + [b], answers + [answer], n + 1)
    ensures OneFailed(answers + [answer]) <==> OneFailed(answers) || answer == Some(LaunchFailed)
  {
    hide TurnGoes, NeededEarlier;
    var longer, more := turns + [b], answers + [answer];
    forall i | 0 <= i < n
      ensures TurnIs(code, m, longer[i], longer[i + 1], more, i)
    {
      assert TurnIs(code, m, turns[i], turns[i + 1], answers, i);
      assert more[..i] == answers[..i];
    }
    if OneFailed(answers) {
      var i :| 0 <= i < |answers| && answers[i] == Some(LaunchFailed);
      assert more[i] == Some(LaunchFailed);
    }
    if answer == Some(LaunchFailed) {
      assert more[n] == Some(LaunchFailed);
    }
  }

  lemma NeededLonger(ss: seq<Svc>, answers: seq<Option<CommandResult>>, answer: Option<CommandResult>, name: string)
    requires NeededEarlier(ss, answers, name)
    ensures NeededEarlier(ss, answers + [answer], name)
  {
    hide Below;
    var h :| 0 <= h < |answers| && h < |ss| && answers[h].Some? && Below(HeldGraph(ss), ss[h].config.name)(name);
    assert (answers + [answer])[h] == answers[h];
  }

  /** One more turn. */
  lemma NextTurn(m: Mgr, t: Tally, code: CommandCode, n: nat, answers: seq<Option<CommandResult>>, env: Env,
                 now: Instant) returns (answer: Option<CommandResult>)
    requires AllOk(t.mgr.services) && UniqueNames(m.services) && SameConfigs(m.services, t.mgr.services)
    requires code.StartCommand? || code.RestartCommand? || code.StopCommand?
    requires n < |m.services| && |answers| == n && AllNeeded(m.services, answers, t.started)
    ensures var r := ExecuteNext(t, code, n, env, now);
            && TurnIs(code, m, t.mgr, r.mgr, answers + [answer], n)
            && AllNeeded(m.services, answers + [answer], r.started)
            && r.failed == t.failed + if answer == Some(LaunchFailed) then 1 else 0
  {
    hide ExecuteOne, TurnGoes, NeededEarlier, Below, UniqueNames;
    var s := t.mgr.services[n];
    assert SameSettings(m.services[n], s);
    var r := ExecuteNext(t, code, n, env, now);
    if s.removing || s.config.name in t.started {
      answer := None;
      assert (answers + [answer])[..n] == answers;
    } else {
      UniqueSame(m.services, t.mgr.services);
      SameConfigsKeep(m.services, t.mgr.services);
      OneTurn(t.mgr, code, n, t.started, env, now);
      answer := Some(ExecuteOne(t.mgr, code, n, t.started, env, now).result);
    }
    forall x | x in r.started
      ensures NeededEarlier(m.services, answers + [answer], x)
    {
      if x in t.started {
        NeededLonger(m.services, answers, answer, x);
      } else {
        NeededNow(m.services, answers, answer, x);
      }
    }
  }

  lemma NeededNow(ss: seq<Svc>, answers: seq<Option<CommandResult>>, answer: Option<CommandResult>, name: string)
    requires |answers| < |ss| && answer.Some? && Below(HeldGraph(ss), ss[|answers|].config.name)(name)
    ensures NeededEarlier(ss, answers + [answer], name)
  {
    assert (answers + [answer])[|answers|] == answer;
  }

  lemma {:induction false} AllTurns(m: Mgr, t: Tally, code: CommandCode, n: nat, turns: seq<Mgr>,
                                    answers: seq<Option<CommandResult>>, env: Env, now: Instant)
    returns (all: seq<Mgr>, allAnswers: seq<Option<CommandResult>>)
    requires AllOk(t.mgr.services) && UniqueNames(m.services) && n <= |m.services|
    requires code.StartCommand? || code.RestartCommand? || code.StopCommand?
    requires TurnsGo(code, m, turns, answers, n) && turns[n] == t.mgr && |t.mgr.services| == |m.services|
    requires AllNeeded(m.services, answers, t.started) && (t.failed > 0 <==> OneFailed(answers))
    ensures var r := ExecuteAll(t, code, n, env, now);
            && TurnsGo(code, m, all, allAnswers, |m.services|) && all[|m.services|] == r.mgr
            && (r.failed > 0 <==> OneFailed(allAnswers))
    decreases |m.services| - n
  {
    hide ExecuteNext, TurnIs, AllNeeded, OneFailed, UniqueNames;
    if n == |m.services| {
      all, allAnswers := turns, answers;
    } else {
      var next := ExecuteNext(t, code, n, env, now);
      var answer := NextTurn(m, t, code, n, answers, env, now);
      SameConfigsTrans(m.services, t.mgr.services, next.mgr.services);
      TurnAppends(code, m, turns, answers, n, next.mgr, answer);
      all, allAnswers := AllTurns(m, next, code, n + 1, turns + [next.mgr], answers + [answer], env, now);
    }
  }

  /**
   A command for all services, turn by turn: each service that is not being removed has its turn, unless it
   was needed by one that had its turn before and was started for that; the turn does what the command
   for that service alone does. The answer is a failure exactly when the launch of some service was
   refused on its own turn.
   */
  lemma AllNamed(m: Mgr, command: int, env: Env, now: Instant)
    returns (turns: seq<Mgr>, answers: seq<Option<CommandResult>>)
    requires AllOk(m.services) && UniqueNames(m.services) && !m.shuttingDown
    requires command == START || command == RESTART || command == STOP
    ensures var r := Execute(m, command, ALL_SERVICES, env, now);
            var code := if command == START then StartCommand
                        else if command == RESTART then RestartCommand else StopCommand;
            && TurnsGo(code, m, turns, answers, |m.services|) && turns[|m.services|] == r.mgr
            && r.result == if OneFailed(answers) then LaunchFailed else Ok
  {
    hide ExecuteAll, TurnIs, UniqueNames;
    var code := if command == START then StartCommand else if command == RESTART then RestartCommand else StopCommand;
    assert AllNeeded(m.services, [], []);
    turns, answers := AllTurns(m, Tally(m, [], 0), code, 0, [m], [], env, now);
  }

  /** Every other byte is refused as unknown and changes nothing. */
  lemma OtherBytes(m: Mgr, command: int, name: string, env: Env, now: Instant)
    requires AllOk(m.services)
    requires command != START && command != STOP && command != RESTART && command != HEARTBEAT
    ensures Execute(m, command, name, env, now) == Acted(m, UnknownCommand)
  {}
}
