/**
 Time over whole runs, reloads included, with a clock that does not run backwards: every service
 keeps its restart budget, every stop is given no more than the longest timeout listed for it, and
 a shutdown ends within the daemon's budget.
 */
module Timing {
  import opened Sequences
  import opened ServiceConfigs
  import opened Launching
  import opened ServiceSpec
  import opened ManagerSpec
  import opened MicroSteps
  import opened Runs
  import opened Reload
  import opened Supervision
  import opened Deadline
  import opened Schedules
  import opened Outlasting
  import opened RestartBudget

  // ----- what every call on a service keeps, every run keeps

  type Claim = (Svc, int) -> bool

  /** A call that may be made on s while a reload carries `wake`. */
  predicate Allowed(s: Svc, op: SvcOp, wake: seq<ServiceConfig>) {
    op.ReplaceOp? ==> op.config.name == s.config.name && op.config in wake
  }

  /** Time, every call on a service, and being new in `wake` keep the claim. */
  ghost predicate Survives(claim: Claim, wake: seq<ServiceConfig>) {
    && (forall s: Svc, t: int, u: int :: claim(s, t) && t <= u ==> claim(s, u))
    && (forall s: Svc, log: Log, op: SvcOp, ctx: Ctx, t: int {:trigger claim(s, t), Step(s, log, op, ctx)} ::
          SvcInv(s) && claim(s, t) && t <= ctx.now.steady && Allowed(s, op, wake) ==>
            claim(Step(s, log, op, ctx).svc, ctx.now.steady))
    && (forall config: ServiceConfig, t: int :: config in wake ==> claim(NewService(config), t))
  }

  predicate AllHold(claim: Claim, ss: seq<Svc>, t: int) {
    forall i {:trigger ss[i]} :: 0 <= i < |ss| ==> claim(ss[i], t)
  }

  lemma MicroHolds(claim: Claim, m: Mgr, s: Micro, wake: seq<ServiceConfig>, env: Env, now: Instant, t: int)
    requires Inv(m) && MicroOk(m, s, wake) && AllHold(claim, m.services, t) && t <= now.steady
    requires Survives(claim, wake)
    ensures AllHold(claim, MicroStep(m, s, env, now).services, now.steady)
  {
    hide Step;
    match s
    case ActStep(i, op) =>
      assert SvcInv(m.services[i]) && claim(m.services[i], t) && Allowed(m.services[i], op, wake);
      var ctx := CtxFor(m, i, env, now);
      assert claim(Step(m.services[i], m.log, op, ctx).svc, ctx.now.steady);
    case AddStep(config) =>
    case SweepStep =>
      var at := KeptFrom(m.services);
    case ShutdownStep =>
  }

  lemma {:induction false} MicrosHold(claim: Claim, m: Mgr, steps: seq<Micro>, wake: seq<ServiceConfig>, env: Env,
                                      now: Instant, t: int)
    requires Inv(m) && MicrosOk(m, steps, wake, env, now) && AllHold(claim, m.services, t) && t <= now.steady
    requires Survives(claim, wake)
    ensures AllHold(claim, Micros(m, steps, wake, env, now).services, now.steady)
    decreases |steps|
  {
    if steps != [] {
      MicroKeepsInv(m, steps[0], wake, env, now);
      MicroHolds(claim, m, steps[0], wake, env, now, t);
      hide Survives, MicroStep;
      MicrosHold(claim, MicroStep(m, steps[0], env, now), steps[1..], wake, env, now, now.steady);
    }
  }

  lemma OpHolds(claim: Claim, m: Mgr, op: Op, env: Env, now: Instant, t: int)
    requires WellManaged(m) && OpOk(m, op) && AllHold(claim, m.services, t) && t <= now.steady
    requires Survives(claim, Wakes(op))
    ensures AllHold(claim, OpStep(m, op, env, now).services, now.steady)
  {
    hide Survives, AllHold;
    var next := OpStep(m, op, env, now);
    OpReaches(m, op, env, now);
    var steps :| MicrosOk(m, steps, Wakes(op), env, now) && Micros(m, steps, Wakes(op), env, now) == next;
    MicrosHold(claim, m, steps, Wakes(op), env, now, t);
  }

  /** The clock does not run backwards. */
  predicate Forward(calls: seq<Call>, t: int) {
    calls == [] || (t <= calls[0].now.steady && Forward(calls[1..], calls[0].now.steady))
  }

  function LastTime(calls: seq<Call>, t: int): int {
    if calls == [] then t else LastTime(calls[1..], calls[0].now.steady)
  }

  lemma {:induction false} ForwardJoins(a: seq<Call>, b: seq<Call>, t: int)
    ensures Forward(a + b, t) <==> Forward(a, t) && Forward(b, LastTime(a, t))
    ensures LastTime(a + b, t) == LastTime(b, LastTime(a, t))
    decreases |a|
  {
    if a == [] {
      assert a + b == b;
    } else {
      assert (a + b)[0] == a[0] && (a + b)[1..] == a[1..] + b;
      ForwardJoins(a[1..], b, a[0].now.steady);
    }
  }

  ghost predicate SurvivesAll(claim: Claim, calls: seq<Call>) {
    forall k :: 0 <= k < |calls| ==> Survives(claim, Wakes(calls[k].op))
  }

  lemma {:induction false} RunHolds(claim: Claim, m: Mgr, calls: seq<Call>, env: Env, t: int)
    requires WellManaged(m) && RunOk(m, calls, env) && Forward(calls, t) && AllHold(claim, m.services, t)
    requires SurvivesAll(claim, calls)
    ensures AllHold(claim, Run(m, calls, env).services, LastTime(calls, t))
    decreases |calls|
  {
    hide Survives, AllHold;
    if calls != [] {
      var op, now := calls[0].op, calls[0].now;
      var next := OpStep(m, op, env, now);
      assert Survives(claim, Wakes(op));
      OpHolds(claim, m, op, env, now, t);
      OpKeepsManaged(m, op, env, now);
      assert forall k :: 0 <= k < |calls[1..]| ==> calls[1..][k] == calls[k + 1];
      RunHolds(claim, next, calls[1..], env, now.steady);
    }
  }

  // ----- restart budgets

  /** Every entry of this name loosens the restart settings of the services of that name, if any. */
  predicate ListLoosens(held: seq<ServiceConfig>, wake: seq<ServiceConfig>, name: string) {
    forall c, d :: c in held && d in wake && c.name == name && d.name == name ==> Loosens(c, d)
  }

  /** No call of the run gives a service of this name a smaller maximum or a longer window than it has. */
  ghost predicate RunLoosens(m: Mgr, calls: seq<Call>, env: Env, name: string)
    requires AllOk(m.services)
    decreases |calls|
  {
    calls == [] ||
    (ListLoosens(ConfigsOf(m.services), Wakes(calls[0].op), name)
     && RunLoosens(OpStep(m, calls[0].op, env, calls[0].now), calls[1..], env, name))
  }

  /** A service of this name has kept its budget since `past`, and its settings are from one of the two lists. */
  predicate KeptSince(s: Svc, t: int, name: string, past: seq<int>, held: seq<ServiceConfig>,
                      wake: seq<ServiceConfig>) {
    s.config.name == name ==> (s.config in held || s.config in wake) && BudgetSince(s, past, t)
  }

  lemma KeptStep(s: Svc, log: Log, op: SvcOp, ctx: Ctx, t: int, name: string, past: seq<int>,
                 held: seq<ServiceConfig>, wake: seq<ServiceConfig>)
    requires SvcInv(s) && KeptSince(s, t, name, past, held, wake) && t <= ctx.now.steady
    requires Allowed(s, op, wake) && ListLoosens(held, wake, name) && UniqueConfigs(wake)
    ensures KeptSince(Step(s, log, op, ctx).svc, ctx.now.steady, name, past, held, wake)
  {
    hide BudgetSince;
    if s.config.name == name {
      if op.ReplaceOp? && s.config !in held {
        var i :| 0 <= i < |wake| && wake[i] == s.config;
        var j :| 0 <= j < |wake| && wake[j] == op.config;
        assert i == j;
        BudgetLater(s, past, t, ctx.now.steady);
        ReplaceKeepsHistory(s, log, op, ctx);
      } else {
        StepKeepsBudget(s, past, log, op, ctx, t);
      }
    }
    StepConfig(s, log, op, ctx);
  }

  lemma StepConfig(s: Svc, log: Log, op: SvcOp, ctx: Ctx)
    requires SvcInv(s)
    ensures Step(s, log, op, ctx).svc.config == if op.ReplaceOp? then op.config else s.config
  {}

  lemma KeptSurvives(name: string, past: seq<int>, held: seq<ServiceConfig>, wake: seq<ServiceConfig>)
    requires ListLoosens(held, wake, name) && UniqueConfigs(wake)
    ensures Survives((s: Svc, t: int) => KeptSince(s, t, name, past, held, wake), wake)
  {
    hide BudgetSince, Step;
    forall s: Svc, t: int, u: int | KeptSince(s, t, name, past, held, wake) && t <= u
      ensures KeptSince(s, u, name, past, held, wake)
    {
      if s.config.name == name {
        BudgetLater(s, past, t, u);
      }
    }
    forall s: Svc, log: Log, op: SvcOp, ctx: Ctx, t: int
      {:trigger KeptSince(s, t, name, past, held, wake), Step(s, log, op, ctx)} |
      SvcInv(s) && KeptSince(s, t, name, past, held, wake) && t <= ctx.now.steady && Allowed(s, op, wake)
      ensures KeptSince(Step(s, log, op, ctx).svc, ctx.now.steady, name, past, held, wake)
    {
      KeptStep(s, log, op, ctx, t, name, past, held, wake);
    }
    forall config: ServiceConfig, t: int | config in wake
      ensures KeptSince(NewService(config), t, name, past, held, wake)
    {
      BudgetCleared(NewService(config), past, t);
    }
  }

  /** The services of this name have kept their budget since `past`. */
  predicate AllKept(ss: seq<Svc>, t: int, name: string, past: seq<int>) {
    forall i :: 0 <= i < |ss| && ss[i].config.name == name ==> BudgetSince(ss[i], past, t)
  }

  lemma WakesUnique(m: Mgr, op: Op)
    requires OpOk(m, op)
    ensures UniqueConfigs(Wakes(op))
  {}

  lemma OpKeepsBudget(m: Mgr, op: Op, env: Env, now: Instant, t: int, name: string, past: seq<int>)
    requires WellManaged(m) && OpOk(m, op) && t <= now.steady && AllKept(m.services, t, name, past)
    requires ListLoosens(ConfigsOf(m.services), Wakes(op), name)
    ensures AllKept(OpStep(m, op, env, now).services, now.steady, name, past)
  {
    hide BudgetSince, Survives, OpStep;
    var held, wake := ConfigsOf(m.services), Wakes(op);
    var claim := (s: Svc, u: int) => KeptSince(s, u, name, past, held, wake);
    forall i | 0 <= i < |m.services|
      ensures claim(m.services[i], t)
    {
      assert held[i] in held;
    }
    WakesUnique(m, op);
    KeptSurvives(name, past, held, wake);
    OpHolds(claim, m, op, env, now, t);
    var r := OpStep(m, op, env, now);
    forall i | 0 <= i < |r.services| && r.services[i].config.name == name
      ensures BudgetSince(r.services[i], past, now.steady)
    {
      assert claim(r.services[i], now.steady);
    }
  }

  lemma {:induction false} RunKeepsBudget(m: Mgr, calls: seq<Call>, env: Env, t: int, name: string, past: seq<int>)
    requires WellManaged(m) && RunOk(m, calls, env) && Forward(calls, t) && AllKept(m.services, t, name, past)
    requires RunLoosens(m, calls, env, name)
    ensures AllKept(Run(m, calls, env).services, LastTime(calls, t), name, past)
    decreases |calls|
  {
    hide AllKept, OpStep, ListLoosens;
    if calls != [] {
      var op, now := calls[0].op, calls[0].now;
      OpKeepsManaged(m, op, env, now);
      OpKeepsBudget(m, op, env, now, t, name, past);
      RunKeepsBudget(OpStep(m, op, env, now), calls[1..], env, now.steady, name, past);
    }
  }

  lemma TidySurvives(wake: seq<ServiceConfig>)
    ensures Survives(Tidy, wake)
  {
    forall s: Svc, log: Log, op: SvcOp, ctx: Ctx, t: int {:trigger Tidy(s, t), Step(s, log, op, ctx)} |
      SvcInv(s) && Tidy(s, t) && t <= ctx.now.steady
      ensures Tidy(Step(s, log, op, ctx).svc, ctx.now.steady)
    {
      StepKeepsTidy(s, log, op, ctx, t);
    }
  }

  /** The restarts a service of this name already has in its history. */
  function PastOf(ss: seq<Svc>, name: string): seq<int> {
    var k := FindIndex(ss, name);
    if k < |ss| then ss[k].history.all else []
  }

  lemma TidyRun(configs: seq<ServiceConfig>, calls: seq<Call>, env: Env, t: int)
    requires ValidConfigs(configs) && RunOk(Load(configs), calls, env) && Forward(calls, t)
    ensures WellManaged(Run(Load(configs), calls, env))
    ensures AllHold(Tidy, Run(Load(configs), calls, env).services, LastTime(calls, t))
  {
    hide WellManaged, Survives;
    LoadIsManaged(configs);
    RunKeepsManaged(Load(configs), calls, env);
    forall k | 0 <= k < |calls|
      ensures Survives(Tidy, Wakes(calls[k].op))
    {
      TidySurvives(Wakes(calls[k].op));
    }
    RunHolds(Tidy, Load(configs), calls, env, t);
  }

  lemma KeptFromHere(ss: seq<Svc>, t: int, name: string)
    requires UniqueNames(ss) && AllHold(Tidy, ss, t)
    ensures AllKept(ss, t, name, PastOf(ss, name))
  {
    forall i | 0 <= i < |ss| && ss[i].config.name == name
      ensures BudgetSince(ss[i], PastOf(ss, name), t)
    {
      assert Tidy(ss[i], t);
      assert FindIndex(ss, name) == i;
      ChangeBeginsBudget(ss[i], ss[i].config, t);
    }
  }

  /**
   The restart budget from any moment of any run on: as long as every reload only loosens the maximum
   and the window of a service, any closed window holds at most its maximum of restarts scheduled
   after those it had at that moment, or of all since its history was begun anew. Other changes to
   its settings, and any to other services, do not matter.
   */
  lemma LaterRunKeepsBudget(configs: seq<ServiceConfig>, before: seq<Call>, after: seq<Call>, env: Env, t: int,
                            name: string, i: nat, lo: int)
    requires ValidConfigs(configs) && RunOk(Load(configs), before, env) && Forward(before, t)
    requires RunOk(Run(Load(configs), before, env), after, env) && Forward(after, LastTime(before, t))
    requires RunLoosens(Run(Load(configs), before, env), after, env, name)
    requires var r := Run(Run(Load(configs), before, env), after, env).services;
             i < |r| && r[i].config.name == name && r[i].config.maxRestarts > 0
    ensures var m := Run(Load(configs), before, env);
            var s := Run(m, after, env).services[i];
            CountWithin(Since(s.history.all, PastOf(m.services, name)), lo, lo + Window(s.config)) <=
            s.config.maxRestarts
  {
    hide Run, CountWithin, Forward, RunOk, RunLoosens, ValidConfigs, WellManaged, Survives, BudgetSince, Since;
    var m := Run(Load(configs), before, env);
    var past := PastOf(m.services, name);
    TidyRun(configs, before, env, t);
    ManagedIsUnique(m);
    KeptFromHere(m.services, LastTime(before, t), name);
    RunKeepsBudget(m, after, env, LastTime(before, t), name, past);
    WindowHoldsFewRestarts(Run(m, after, env).services[i], past, LastTime(after, LastTime(before, t)), lo);
  }

  /**
   The restart budget of whole runs: as long as every reload only loosens the maximum and the window
   of a service, any closed window as long as its own holds at most its maximum of restarts scheduled
   since the history was last cleared.
   */
  lemma EveryRunKeepsBudgets(configs: seq<ServiceConfig>, calls: seq<Call>, env: Env, t: int, name: string, i: nat,
                             lo: int)
    requires ValidConfigs(configs) && RunOk(Load(configs), calls, env) && Forward(calls, t)
    requires RunLoosens(Load(configs), calls, env, name)
    requires var r := Run(Load(configs), calls, env).services;
             i < |r| && r[i].config.name == name && r[i].config.maxRestarts > 0
    ensures var s := Run(Load(configs), calls, env).services[i];
            CountWithin(s.history.all, lo, lo + Window(s.config)) <= s.config.maxRestarts
  {
    hide CountWithin, ValidConfigs, Run, RunOk, Forward, LastTime, RunLoosens, Load, PastOf;
    RunNone(Load(configs), env);
    NoTimePasses(t);
    LoadHasNoPast(configs, name);
    LaterRunKeepsBudget(configs, [], calls, env, t, name, i, lo);
    var s := Run(Load(configs), calls, env).services[i];
    assert Since(s.history.all, []) == s.history.all;
  }

  // ----- the same by the lists alone

  /** Every list only loosens what any earlier list says of this name. */
  ghost predicate ListsLoosen(earlier: seq<ServiceConfig>, calls: seq<Call>, name: string)
    decreases |calls|
  {
    calls == [] ||
    (ListLoosens(earlier, Wakes(calls[0].op), name) && ListsLoosen(earlier + Wakes(calls[0].op), calls[1..], name))
  }

  predicate FromLists(ss: seq<Svc>, lists: seq<ServiceConfig>) {
    forall i :: 0 <= i < |ss| ==> ss[i].config in lists
  }

  lemma ListedSurvives(lists: seq<ServiceConfig>, wake: seq<ServiceConfig>)
    requires forall c :: c in wake ==> c in lists
    ensures Survives((s: Svc, t: int) => s.config in lists, wake)
  {
    hide Step;
    forall s: Svc, log: Log, op: SvcOp, ctx: Ctx | SvcInv(s) && s.config in lists && Allowed(s, op, wake)
      ensures Step(s, log, op, ctx).svc.config in lists
    {
      StepConfig(s, log, op, ctx);
    }
  }

  lemma OpFromLists(m: Mgr, op: Op, env: Env, now: Instant, lists: seq<ServiceConfig>)
    requires WellManaged(m) && OpOk(m, op) && FromLists(m.services, lists)
    ensures FromLists(OpStep(m, op, env, now).services, lists + Wakes(op))
  {
    hide Survives, OpStep;
    var all := lists + Wakes(op);
    var claim := (s: Svc, t: int) => s.config in all;
    ListedSurvives(all, Wakes(op));
    assert AllHold(claim, m.services, now.steady);
    OpHolds(claim, m, op, env, now, now.steady);
    var r := OpStep(m, op, env, now);
    forall i | 0 <= i < |r.services|
      ensures r.services[i].config in all
    {
      assert claim(r.services[i], now.steady);
    }
  }

  /** Lists that only loosen make a run that only loosens. */
  lemma {:induction false} ListsLoosenRun(m: Mgr, calls: seq<Call>, env: Env, lists: seq<ServiceConfig>, name: string)
    requires WellManaged(m) && RunOk(m, calls, env) && FromLists(m.services, lists) && ListsLoosen(lists, calls, name)
    ensures RunLoosens(m, calls, env, name)
    decreases |calls|
  {
    hide OpStep;
    if calls != [] {
      var op, now := calls[0].op, calls[0].now;
      OpKeepsManaged(m, op, env, now);
      OpFromLists(m, op, env, now, lists);
      ListsLoosenRun(OpStep(m, op, env, now), calls[1..], env, lists + Wakes(op), name);
    }
  }

  lemma NoTimePasses(t: int)
    ensures Forward([], t) && LastTime([], t) == t
  {}

  lemma LoadHasNoPast(configs: seq<ServiceConfig>, name: string)
    ensures PastOf(Load(configs).services, name) == []
  {}

  lemma ManagedIsUnique(m: Mgr)
    requires WellManaged(m)
    ensures UniqueNames(m.services)
  {}

  // ----- the daemon's budget

  const SHUTDOWN_MARGIN: nat := 2000
  const MAX_SHUTDOWN: nat := 600_000

  function StopTimeouts(configs: seq<ServiceConfig>): nat {
    if configs == [] then 0
    else StopTimeouts(configs[..|configs| - 1]) + configs[|configs| - 1].stopTimeout
  }

  /** How long the daemon waits for a shutdown before it kills what is left. */
  function DaemonBudget(configs: seq<ServiceConfig>): nat {
    Least(StopTimeouts(configs) + KILL_GRACE + SHUTDOWN_MARGIN, MAX_SHUTDOWN)
  }

  method ShutdownBudget(configs: seq<ServiceConfig>) returns (total: nat)
    ensures total == DaemonBudget(configs)
  {
    total := 0;
    for i := 0 to |configs|
      invariant total == StopTimeouts(configs[..i])
    {
      assert configs[..i + 1][..i] == configs[..i];
      total := total + configs[i].stopTimeout;
    }
    assert configs[..|configs|] == configs;
    total := total + KILL_GRACE + SHUTDOWN_MARGIN;
    total := if total < MAX_SHUTDOWN then total else MAX_SHUTDOWN;
  }

  // ----- the time stops are given

  /** Neither the timeout nor a stop in progress goes beyond what is allowed for the name. */
  predicate WithinLimit(s: Svc, t: int, limit: string -> nat) {
    && s.config.stopTimeout <= limit(s.config.name)
    && (s.state.Stopping? && !s.killSent ==> s.timers.stopDeadline <= t + limit(s.config.name))
  }

  predicate ListWithin(configs: seq<ServiceConfig>, limit: string -> nat) {
    forall c :: c in configs ==> c.stopTimeout <= limit(c.name)
  }

  ghost predicate RunWithin(calls: seq<Call>, limit: string -> nat) {
    forall k :: 0 <= k < |calls| ==> ListWithin(Wakes(calls[k].op), limit)
  }

  lemma TickWithin(s: Svc, log: Log, ctx: Ctx, t: int, limit: string -> nat)
    requires SvcInv(s) && WithinLimit(s, t, limit) && t <= ctx.now.steady
    ensures WithinLimit(ServiceSpec.Tick(s, log, ctx).svc, ctx.now.steady, limit)
  {
    hide Advance;
    var polled := PollChild(s, log, ctx);
    if s.child.Some? && ctx.env(|log|).exit.Some? {
      ExitNotStopping(s, log + [Exited(s.child.value.id)], ctx.env(|log|).exit.value, ctx);
    }
    AdvanceWithin(polled.svc, polled.log, ctx, limit);
  }

  lemma AdvanceWithin(s: Svc, log: Log, ctx: Ctx, limit: string -> nat)
    requires SvcInv(s) && WithinLimit(s, ctx.now.steady, limit)
    ensures WithinLimit(Advance(s, log, ctx).svc, ctx.now.steady, limit)
  {
    if s.state.Backoff? && ctx.launchAllowed && ctx.now.steady >= s.timers.restartAt {
      assert Advance(s, log, ctx) == Relaunch(CountRestart(s), log, ctx);
    }
  }

  lemma ExitNotStopping(s: Svc, log: Log, status: ExitStatus, ctx: Ctx)
    ensures !HandleExit(s, log, status, ctx).svc.state.Stopping?
  {
    hide ScheduleRestart;
  }

  lemma StartWithin(s: Svc, log: Log, ctx: Ctx, limit: string -> nat)
    requires SvcInv(s) && WithinLimit(s, ctx.now.steady, limit)
    ensures WithinLimit(ServiceSpec.Start(s, log, ctx).svc, ctx.now.steady, limit)
    ensures WithinLimit(ServiceSpec.Restart(s, log, ctx).svc, ctx.now.steady, limit)
  {
    hide ScheduleRestart;
  }

  lemma StopWithin(s: Svc, log: Log, ctx: Ctx, limit: string -> nat)
    requires SvcInv(s) && WithinLimit(s, ctx.now.steady, limit)
    ensures WithinLimit(ServiceSpec.Stop(s, log, ctx).svc, ctx.now.steady, limit)
    ensures WithinLimit(KillNow(s, log, ctx.now).svc, ctx.now.steady, limit)
  {}

  lemma BeatWithin(s: Svc, log: Log, now: Instant, t: int, limit: string -> nat)
    requires SvcInv(s) && WithinLimit(s, t, limit) && t <= now.steady
    ensures WithinLimit(ServiceSpec.Heartbeat(s, log, now).svc, now.steady, limit)
  {}

  lemma StepWithin(s: Svc, log: Log, op: SvcOp, ctx: Ctx, t: int, limit: string -> nat, wake: seq<ServiceConfig>)
    requires SvcInv(s) && WithinLimit(s, t, limit) && t <= ctx.now.steady
    requires Allowed(s, op, wake) && ListWithin(wake, limit)
    ensures WithinLimit(Step(s, log, op, ctx).svc, ctx.now.steady, limit)
  {
    hide ServiceSpec.Tick, ServiceSpec.Start, ServiceSpec.Restart, ServiceSpec.Stop, KillNow, ServiceSpec.Heartbeat;
    match op
    case TickOp => TickWithin(s, log, ctx, t, limit);
    case StartOp => StartWithin(s, log, ctx, limit);
    case RestartOp => StartWithin(s, log, ctx, limit);
    case StopOp => StopWithin(s, log, ctx, limit);
    case RetireOp => StopWithin(s.(removing := true), log, ctx, limit);
    case KillOp => StopWithin(s, log, ctx, limit);
    case HeartbeatOp => BeatWithin(s, log, ctx.now, t, limit);
    case _ => OtherWithin(s, log, op, ctx, t, limit, wake);
  }

  lemma OtherWithin(s: Svc, log: Log, op: SvcOp, ctx: Ctx, t: int, limit: string -> nat, wake: seq<ServiceConfig>)
    requires SvcInv(s) && WithinLimit(s, t, limit) && t <= ctx.now.steady
    requires Allowed(s, op, wake) && ListWithin(wake, limit)
    requires op.AbandonOp? || op.SampleOp? || op.ReplaceOp? || op.ReaddOp?
    ensures WithinLimit(Step(s, log, op, ctx).svc, ctx.now.steady, limit)
  {}

  lemma LimitSurvives(limit: string -> nat, wake: seq<ServiceConfig>)
    requires ListWithin(wake, limit)
    ensures Survives((s: Svc, t: int) => WithinLimit(s, t, limit), wake)
  {
    forall s: Svc, log: Log, op: SvcOp, ctx: Ctx, t: int {:trigger WithinLimit(s, t, limit), Step(s, log, op, ctx)} |
      SvcInv(s) && WithinLimit(s, t, limit) && t <= ctx.now.steady && Allowed(s, op, wake)
      ensures WithinLimit(Step(s, log, op, ctx).svc, ctx.now.steady, limit)
    {
      StepWithin(s, log, op, ctx, t, limit, wake);
    }
  }

  /** The sum over live services, dropped ones included, of what their name allows and two tick gaps. */
  function Limits(ss: seq<Svc>, limit: string -> nat, d: nat): nat {
    if ss == [] then 0
    else
      var last := ss[|ss| - 1];
      Limits(ss[..|ss| - 1], limit, d) + if IsAlive(last.state) then limit(last.config.name) + 2 * d else 0
  }

  lemma {:induction false} TotalWithinLimits(ss: seq<Svc>, t: int, limit: string -> nat, d: nat)
    requires forall i :: 0 <= i < |ss| ==> WithinLimit(ss[i], t, limit)
    ensures Total(ss, t, d) <= Limits(ss, limit, d)
    decreases |ss|
  {
    if ss != [] {
      assert WithinLimit(ss[|ss| - 1], t, limit);
      TotalWithinLimits(ss[..|ss| - 1], t, limit, d);
    }
  }

  /** What a run leaves for the shutdown after it. */
  lemma RunWithinLimits(configs: seq<ServiceConfig>, before: seq<Call>, env: Env, t: int, begin: int,
                        limit: string -> nat)
    requires ValidConfigs(configs) && RunOk(Load(configs), before, env) && Forward(before, t)
    requires ListWithin(configs, limit) && RunWithin(before, limit) && LastTime(before, t) <= begin
    ensures var m := Run(Load(configs), before, env);
            WellManaged(m) && forall i :: 0 <= i < |m.services| ==> WithinLimit(m.services[i], begin, limit)
  {
    hide WellManaged, RunOk, ValidConfigs, Survives;
    var m := Run(Load(configs), before, env);
    var claim := (s: Svc, u: int) => WithinLimit(s, u, limit);
    LoadIsManaged(configs);
    RunKeepsManaged(Load(configs), before, env);
    forall k | 0 <= k < |before|
      ensures Survives(claim, Wakes(before[k].op))
    {
      LimitSurvives(limit, Wakes(before[k].op));
    }
    RunHolds(claim, Load(configs), before, env, t);
    forall i | 0 <= i < |m.services|
      ensures WithinLimit(m.services[i], begin, limit)
    {
      assert claim(m.services[i], LastTime(before, t));
    }
  }

  /** The list the daemon goes by: the one of the last reload. */
  function CurrentList(configs: seq<ServiceConfig>, calls: seq<Call>): seq<ServiceConfig>
    decreases |calls|
  {
    if calls == [] then configs
    else CurrentList(if calls[0].op.ReloadWith? then calls[0].op.configs else configs, calls[1..])
  }

  /**
   After any run from a valid configuration, reloads included, a shutdown whose ticks are at most d
   apart has every service down within the time the daemon grants it, as long as that covers, for
   every live service, dropped ones included, the longest stop timeout listed under its name and
   two tick gaps.
   */
  lemma DaemonDeadlineSuffices(configs: seq<ServiceConfig>, before: seq<Call>, begin: Instant, t: int,
                               after: seq<Call>, env: Env, limit: string -> nat, d: nat)
    requires ValidConfigs(configs) && RunOk(Load(configs), before, env) && Forward(before, t)
    requires ListWithin(configs, limit) && RunWithin(before, limit)
    requires LastTime(before, t) <= begin.steady && d > 0 && Paced(after, begin.steady, d)
    requires var m := Run(Load(configs), before, env);
             && PromptKills(Run(StopAll(m, env, begin), after, env).log, |StopAll(m, env, begin).log|)
             && Limits(m.services, limit, d) <= DaemonBudget(CurrentList(configs, before))
    requires LastTick(after, begin.steady) - begin.steady >= DaemonBudget(CurrentList(configs, before))
    ensures AllStopped(Run(StopAll(Run(Load(configs), before, env), env, begin), after, env))
  {
    hide WellManaged, RunOk, Run, Paced, PromptKills, StopAll, AllStopped, ValidConfigs, Limits, DaemonBudget, Total;
    RunWithinLimits(configs, before, env, t, begin.steady, limit);
    TotalWithinLimits(Run(Load(configs), before, env).services, begin.steady, limit, d);
    ShutdownMeetsDeadline(Run(Load(configs), before, env), begin, after, env, d);
  }

  /** What a name allows, and two tick gaps. */
  function LimitShare(limit: string -> nat, d: nat): Share {
    (s: Svc) => WithGaps(limit(s.config.name), d)
  }

  function WithGaps(time: nat, d: nat): nat {
    time + 2 * d
  }

  lemma LimitsCover(ss: seq<Svc>, t: int, limit: string -> nat, d: nat)
    requires forall i :: 0 <= i < |ss| ==> WithinLimit(ss[i], t, limit)
    ensures Covers(ss, LimitShare(limit, d), t, d)
  {
    forall i | 0 <= i < |ss| && IsAlive(ss[i].state)
      ensures LimitShare(limit, d)(ss[i]) >= Remaining(ss[i], t, d)
    {
      assert WithinLimit(ss[i], t, limit);
    }
  }

  /**
   The sharp form: it is enough that the budget covers those sums along every chain of live services in
   which each needs the one before, since services that do not need each other stop side by side.
   */
  lemma DaemonChainsSuffice(configs: seq<ServiceConfig>, before: seq<Call>, begin: Instant, t: int, after: seq<Call>,
                            env: Env, limit: string -> nat, rank: map<string, nat>, top: nat, d: nat)
    requires ValidConfigs(configs) && RunOk(Load(configs), before, env) && Forward(before, t)
    requires ListWithin(configs, limit) && RunWithin(before, limit)
    requires LastTime(before, t) <= begin.steady && d > 0 && Paced(after, begin.steady, d)
    requires var m := Run(Load(configs), before, env);
             && PromptKills(Run(StopAll(m, env, begin), after, env).log, |StopAll(m, env, begin).log|)
             && RankedBelow(m.services, rank, top)
             && ChainsWithin(m.services, LimitShare(limit, d), rank, top, DaemonBudget(CurrentList(configs, before)))
    requires LastTick(after, begin.steady) - begin.steady >= DaemonBudget(CurrentList(configs, before))
    ensures AllStopped(Run(StopAll(Run(Load(configs), before, env), env, begin), after, env))
  {
    hide WellManaged, RunOk, Run, Paced, PromptKills, StopAll, AllStopped, ValidConfigs, DaemonBudget, RankedBelow;
    hide LongestChain, LimitShare, Covers;
    var m := Run(Load(configs), before, env);
    RunWithinLimits(configs, before, env, t, begin.steady, limit);
    LimitsCover(m.services, begin.steady, limit, d);
    ShutdownTakesLongestChain(m, begin, after, env, LimitShare(limit, d), rank, top, d);
  }

  /**
   A live service whose own stop time is longer than the budget is not down when that is over, when no
   process exits that has not been killed.
   */
  lemma DaemonBudgetIsExceeded(configs: seq<ServiceConfig>, before: seq<Call>, begin: Instant, after: seq<Call>,
                               env: Env, i: nat)
    requires ValidConfigs(configs) && RunOk(Load(configs), before, env)
    requires var m := Run(Load(configs), before, env);
             var over := begin.steady + DaemonBudget(CurrentList(configs, before)) + 1;
             && OnlyKilledExit(Run(StopAll(m, env, begin), after, env).log, |StopAll(m, env, begin).log|)
             && i < |m.services| && LastsUntil(m.services[i], begin.steady, over)
             && Waits(after, begin.steady, over)
    ensures !AllStopped(Run(StopAll(Run(Load(configs), before, env), env, begin), after, env))
  {
    hide Run, RunOk, StopAll, ValidConfigs, WellManaged, OnlyKilledExit, LastsUntil, AllStopped, DaemonBudget;
    LoadIsManaged(configs);
    RunKeepsManaged(Load(configs), before, env);
    var over := begin.steady + DaemonBudget(CurrentList(configs, before)) + 1;
    OwnStopTimeIsNeeded(Run(Load(configs), before, env), begin, after, env, i, over);
  }

  // ----- when that is sure to be so

  /** What stays is listed. */
  predicate ActiveListed(ss: seq<Svc>, configs: seq<ServiceConfig>) {
    forall i :: 0 <= i < |ss| && !ss[i].removing ==> ss[i].config in configs
  }

  lemma OpKeepsListed(m: Mgr, op: Op, env: Env, now: Instant, configs: seq<ServiceConfig>)
    requires WellManaged(m) && OpOk(m, op) && ActiveListed(m.services, configs)
    ensures ActiveListed(OpStep(m, op, env, now).services, if op.ReloadWith? then op.configs else configs)
  {
    hide ActiveClosed, Processes, LaunchesSafe, DroppedQuiet, UniqueNames;
    if op.ReloadWith? {
      ApplyRefines(m, op.configs, env, now);
    } else if op.Clock? {
      BeforeSweepManaged(m, env, now);
      var f := BeforeSweep(m, env, now);
      ListedSame(m.services, f.services, configs);
      forall s | s in Kept(f.services) && !s.removing
        ensures s.config in configs
      {
        assert s in f.services;
      }
    } else {
      ListedSame(m.services, OpStep(m, op, env, now).services, configs);
    }
  }

  lemma ListedSame(ss: seq<Svc>, tt: seq<Svc>, configs: seq<ServiceConfig>)
    requires SameConfigs(ss, tt) && ActiveListed(ss, configs)
    ensures ActiveListed(tt, configs)
  {
    forall i | 0 <= i < |tt| && !tt[i].removing
      ensures tt[i].config in configs
    {
      assert SameSettings(ss[i], tt[i]);
    }
  }

  lemma {:induction false} RunKeepsListed(m: Mgr, calls: seq<Call>, env: Env, configs: seq<ServiceConfig>)
    requires WellManaged(m) && RunOk(m, calls, env) && ActiveListed(m.services, configs)
    ensures ActiveListed(Run(m, calls, env).services, CurrentList(configs, calls))
    decreases |calls|
  {
    hide ActiveListed, OpStep, ActiveClosed, Processes, LaunchesSafe, DroppedQuiet, UniqueNames;
    if calls != [] {
      var op, now := calls[0].op, calls[0].now;
      OpKeepsManaged(m, op, env, now);
      OpKeepsListed(m, op, env, now, configs);
      RunKeepsListed(OpStep(m, op, env, now), calls[1..], env, if op.ReloadWith? then op.configs else configs);
    }
  }

  function Without(configs: seq<ServiceConfig>, k: nat): seq<ServiceConfig>
    requires k < |configs|
  {
    configs[..k] + configs[k + 1..]
  }

  lemma {:induction false} TimeoutsWithout(configs: seq<ServiceConfig>, k: nat)
    requires k < |configs|
    ensures StopTimeouts(configs) == StopTimeouts(Without(configs, k)) + configs[k].stopTimeout
    ensures |Without(configs, k)| + 1 == |configs|
    decreases |configs|
  {
    var n := |configs| - 1;
    if k == n {
      assert Without(configs, k) == configs[..n];
    } else {
      TimeoutsWithout(configs[..n], k);
      assert Without(configs, k)[..n - 1] == Without(configs[..n], k);
    }
  }

  lemma WithoutKeeps(configs: seq<ServiceConfig>, k: nat, c: ServiceConfig)
    requires k < |configs| && c in configs && c != configs[k]
    ensures c in Without(configs, k)
  {
    var j :| 0 <= j < |configs| && configs[j] == c;
    assert Without(configs, k)[if j < k then j else j - 1] == c;
  }

  /** Every live service is listed, and may take what the list says. */
  predicate LiveAreListed(ss: seq<Svc>, configs: seq<ServiceConfig>, limit: string -> nat) {
    forall i :: 0 <= i < |ss| && IsAlive(ss[i].state) ==>
      ss[i].config in configs && limit(ss[i].config.name) == ss[i].config.stopTimeout
  }

  lemma OneListedLess(ss: seq<Svc>, configs: seq<ServiceConfig>, limit: string -> nat, k: nat)
    requires ss != [] && UniqueNames(ss) && LiveAreListed(ss, configs, limit)
    requires k < |configs| && configs[k] == ss[|ss| - 1].config
    ensures LiveAreListed(ss[..|ss| - 1], Without(configs, k), limit)
  {
    hide Without;
    var rest := ss[..|ss| - 1];
    forall i | 0 <= i < |rest| && IsAlive(rest[i].state)
      ensures rest[i].config in Without(configs, k)
    {
      assert rest[i] == ss[i];
      WithoutKeeps(configs, k, rest[i].config);
    }
  }

  lemma {:induction false} LimitsWithinTimeouts(ss: seq<Svc>, configs: seq<ServiceConfig>, limit: string -> nat, d: nat)
    requires UniqueNames(ss) && LiveAreListed(ss, configs, limit)
    ensures Limits(ss, limit, d) <= StopTimeouts(configs) + 2 * d * |configs|
    decreases |ss|
  {
    hide Without, StopTimeouts;
    if ss != [] {
      var rest, last := ss[..|ss| - 1], ss[|ss| - 1];
      assert forall i :: 0 <= i < |rest| ==> rest[i] == ss[i];
      if IsAlive(last.state) {
        var k :| 0 <= k < |configs| && configs[k] == last.config;
        var fewer := Without(configs, k);
        OneListedLess(ss, configs, limit, k);
        LimitsWithinTimeouts(rest, fewer, limit, d);
        TimeoutsWithout(configs, k);
        assert 2 * d * (|fewer| + 1) == 2 * d * |fewer| + 2 * d;
      } else {
        LimitsWithinTimeouts(rest, configs, limit, d);
      }
    }
  }

  /** No service dropped by a reload is still live. */
  predicate DroppedAreDown(ss: seq<Svc>) {
    forall i :: 0 <= i < |ss| && ss[i].removing ==> !IsAlive(ss[i].state)
  }

  /**
   The daemon's budget is enough, reloads or not, when no dropped service is still live, no stop
   timeout has been lowered, two tick gaps for every listed service fit into the grace the daemon
   adds and the cap is not reached.
   */
  lemma SettledDeadlineSuffices(configs: seq<ServiceConfig>, before: seq<Call>, begin: Instant, t: int,
                                after: seq<Call>, env: Env, limit: string -> nat, d: nat)
    requires ValidConfigs(configs) && RunOk(Load(configs), before, env) && Forward(before, t)
    requires ListWithin(configs, limit) && RunWithin(before, limit)
    requires LastTime(before, t) <= begin.steady && d > 0 && Paced(after, begin.steady, d)
    requires var m := Run(Load(configs), before, env);
             && PromptKills(Run(StopAll(m, env, begin), after, env).log, |StopAll(m, env, begin).log|)
             && DroppedAreDown(m.services)
    requires forall c :: c in CurrentList(configs, before) ==> c.stopTimeout == limit(c.name)
    requires 2 * d * |CurrentList(configs, before)| <= KILL_GRACE + SHUTDOWN_MARGIN
    requires StopTimeouts(CurrentList(configs, before)) + KILL_GRACE + SHUTDOWN_MARGIN <= MAX_SHUTDOWN
    requires LastTick(after, begin.steady) - begin.steady >= DaemonBudget(CurrentList(configs, before))
    ensures AllStopped(Run(StopAll(Run(Load(configs), before, env), env, begin), after, env))
  {
    hide WellManaged, RunOk, Run, Paced, PromptKills, StopAll, AllStopped, ValidConfigs, Limits;
    var m, current := Run(Load(configs), before, env), CurrentList(configs, before);
    LoadIsManaged(configs);
    RunKeepsManaged(Load(configs), before, env);
    ManagedIsUnique(m);
    RunKeepsListed(Load(configs), before, env, configs);
    LimitsWithinTimeouts(m.services, current, limit, d);
    DaemonDeadlineSuffices(configs, before, begin, t, after, env, limit, d);
  }
}
