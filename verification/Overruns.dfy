/**
 Which changes of the restart settings keep the restart budget, over whole runs: exactly those that only
 loosen it. Any other leads to more restarts in a window than the new settings allow.
 */
module Overruns {
  import opened ServiceConfigs
  import opened Wrappers
  import opened Launching
  import opened ServiceSpec
  import opened ManagerSpec
  import opened Graphs
  import opened Runs
  import opened Supervision
  import opened RestartBudget
  import opened Timing
  import opened Witnesses

  /** Every launch is refused. */
  function Refusing(n: nat): Answer {
    Answer(None, None)
  }

  /** A service that is restarted whenever possible and at once. */
  function Retrying(maxRestarts: nat, restartWindow: nat): ServiceConfig {
    ServiceConfig("retry", "", "/bin/true", [], "", [], true, Always, 0, 0, maxRestarts, restartWindow, 0, Terminate, 0,
                  0, 0, LeaveAlone, [], Auto, "", 0, 0)
  }

  lemma RetryingValid(c: ServiceConfig)
    requires c.name == "retry" && c.dependsOn == []
    ensures ValidConfigs([c])
  {
    RankedIsAcyclic(GraphOf([c]), map["retry" := 0]);
  }

  /** The manager holds this service alone, whose next launch is due. */
  predicate Trying(m: Mgr, c: ServiceConfig, now: int, recent: seq<int>, all: seq<int>) {
    && |m.services| == 1 && !m.shuttingDown && SvcInv(m.services[0]) && !m.services[0].removing
    && var s := m.services[0];
       s.config == c && s.state.Backoff? && s.timers.restartAt <= now && s.history == History(recent, all)
  }

  /** Nothing has been dropped from the window yet. */
  predicate StillListed(recent: seq<int>, now: int, window: nat) {
    recent == [] || now - recent[0] <= window * 1000
  }

  lemma RefusedFirst(s: Svc, log: Log, ctx: Ctx, most: nat, window: nat)
    requires SvcInv(s) && s.state.Stopped? && s.config == Retrying(most, window)
    requires ctx.env == Refusing && ctx.dependenciesReady
    ensures var r := Start(s, log, ctx).svc; var at := ctx.now.steady;
            r.state.Backoff? && r.timers.restartAt == at && r.history == History([at], [at])
  {}

  lemma RefusedAgain(s: Svc, log: Log, ctx: Ctx, most: nat, window: nat)
    requires SvcInv(s) && s.state.Backoff? && s.config == Retrying(most, window)
    requires ctx.env == Refusing && ctx.dependenciesReady && ctx.launchAllowed && s.timers.restartAt <= ctx.now.steady
    requires var pruned := Prune(s.history.recent, ctx.now.steady, window * 1000);
             most == 0 || |pruned| < most
    ensures var r := ServiceSpec.Tick(s, log, ctx).svc; var at := ctx.now.steady;
            && r.state.Backoff? && r.timers.restartAt == at
            && r.history == History(Prune(s.history.recent, at, window * 1000) + [at], s.history.all + [at])
  {
    hide Prune;
    NoDelay(most, window, |Prune(s.history.recent, ctx.now.steady, window * 1000)|);
  }

  lemma {:induction false} NoDelay(most: nat, window: nat, n: nat)
    ensures BackoffDelay(Retrying(most, window), n) == 0
    decreases n
  {
    if n > 0 {
      NoDelay(most, window, n - 1);
    }
  }

  lemma FirstTry(most: nat, window: nat) returns (m: Mgr)
    ensures m == OpStep(Load([Retrying(most, window)]), Autostart, Refusing, At(0))
    ensures Trying(m, Retrying(most, window), 0, [0], [0])
  {
    var start := Load([Retrying(most, window)]);
    m := AutostartNext(start, 0, Refusing, At(0));
    assert StartAutostart(m, 1, Refusing, At(0)) == m;
    RefusedFirst(start.services[0], [], CtxFor(start, 0, Refusing, At(0)), most, window);
    assert StartDependencies(Traversal(start, ["retry"], [], []), [], Refusing, At(0)).mgr == start;
  }

  lemma NextTry(m: Mgr, most: nat, window: nat, now: int, recent: seq<int>, all: seq<int>) returns (r: Mgr)
    requires Trying(m, Retrying(most, window), now, recent, all)
    requires most == 0 || |Prune(recent, now, window * 1000)| < most
    ensures AllOk(m.services) && r == OpStep(m, Clock, Refusing, At(now))
    ensures Trying(r, Retrying(most, window), now, Prune(recent, now, window * 1000) + [now], all + [now])
  {
    hide ServiceSpec.Tick, Prune, OpStep;
    var s := m.services[0];
    RefusedAgain(s, m.log, CtxFor(m, 0, Refusing, At(now)), most, window);
    OneTicked(m, s, Refusing, At(now));
    r := OpStep(m, Clock, Refusing, At(now));
  }

  function Ticks(n: nat, now: int): seq<Call> {
    seq(n, i => Call(Clock, At(now)))
  }

  function Times(n: nat, now: int): seq<int> {
    seq(n, i => now)
  }

  /** As many restarts at one moment as the window still allows. */
  lemma {:induction false} ManyTries(m: Mgr, most: nat, window: nat, now: int, recent: seq<int>, all: seq<int>, n: nat)
    returns (r: Mgr)
    requires Trying(m, Retrying(most, window), now, recent, all) && StillListed(recent, now, window)
    requires most == 0 || |recent| + n <= most
    ensures AllOk(m.services) && r == Run(m, Ticks(n, now), Refusing) && RunOk(m, Ticks(n, now), Refusing)
    ensures Trying(r, Retrying(most, window), now, recent + Times(n, now), all + Times(n, now))
    decreases n
  {
    hide OpStep;
    if n == 0 {
      r := m;
      assert Ticks(0, now) == [] && all + Times(0, now) == all && recent + Times(0, now) == recent;
    } else {
      var next := NextTry(m, most, window, now, recent, all);
      r := ManyTries(next, most, window, now, recent + [now], all + [now], n - 1);
      assert Ticks(n, now)[1..] == Ticks(n - 1, now) && Ticks(n, now)[0] == Call(Clock, At(now));
      assert recent + Times(n, now) == (recent + [now]) + Times(n - 1, now);
      assert all + Times(n, now) == (all + [now]) + Times(n - 1, now);
    }
  }

  /** A reload leaves the service trying, with its history and new settings. */
  lemma TighterReload(m: Mgr, c: ServiceConfig, d: ServiceConfig, now: int, recent: seq<int>, all: seq<int>)
    returns (r: Mgr)
    requires Trying(m, c, now, recent, all) && c.name == d.name
    ensures AllOk(m.services) && r == OpStep(m, ReloadWith([d]), Refusing, At(now))
    ensures Trying(r, d, now, recent, all)
  {
    hide OpStep;
    OneReplaced(m, m.services[0], d, Refusing, At(now));
    r := OpStep(m, ReloadWith([d]), Refusing, At(now));
  }

  lemma AllWithin(times: seq<int>, lo: int, hi: int)
    requires forall i :: 0 <= i < |times| ==> lo <= times[i] <= hi
    ensures CountWithin(times, lo, hi) == |times|
  {
    CountTail(times, 0, lo, hi);
  }

  /** One restart at the start and as many as the new maximum a moment later, within the new window. */
  lemma OneTooMany(most: nat, now: int, window: nat)
    requires 0 <= now <= window
    ensures CountWithin([0] + Times(most, now), 0, window) == most + 1
  {
    AllWithin([0] + Times(most, now), 0, window);
  }

  /** Every list that a reload brings is this one. */
  predicate OnlyLists(calls: seq<Call>, configs: seq<ServiceConfig>) {
    forall k :: 0 <= k < |calls| && calls[k].op.ReloadWith? ==> calls[k].op.configs == configs
  }

  /**
   A run from the one-service list c, whose only new list is d, that ends with more restarts in a
   closed window than d allows, all of them scheduled since the history was begun.
   */
  ghost predicate Overruns(calls: seq<Call>, env: Env, c: ServiceConfig, d: ServiceConfig) {
    && ValidConfigs([c]) && ValidConfigs([d]) && RunOk(Load([c]), calls, env) && Forward(calls, 0)
    && OnlyLists(calls, [d])
    && exists i, lo :: OverrunAt(Run(Load([c]), calls, env).services, i, lo, d)
  }

  predicate OverrunAt(ss: seq<Svc>, i: nat, lo: int, d: ServiceConfig) {
    i < |ss| && ss[i].config == d && CountWithin(ss[i].history.all, lo, lo + Window(d)) > d.maxRestarts
  }

  /** As many restarts as the new maximum after the first, all at once, and then the new settings. */
  function MaximumRun(d: ServiceConfig): seq<Call> {
    [Call(Autostart, At(0))] + (Ticks(d.maxRestarts, 0) + [Call(ReloadWith([d]), At(0))])
  }

  /** Calls in the order of time, from t on until u, whose only new list is this one. */
  predicate Passes(calls: seq<Call>, t: int, u: int, configs: seq<ServiceConfig>) {
    Forward(calls, t) && LastTime(calls, t) == u && OnlyLists(calls, configs)
  }

  lemma PassOn(a: seq<Call>, b: seq<Call>, t: int, u: int, v: int, configs: seq<ServiceConfig>)
    requires Passes(a, t, u, configs) && Passes(b, u, v, configs)
    ensures Passes(a + b, t, v, configs)
  {
    hide Forward, LastTime;
    ForwardJoins(a, b, t);
  }

  lemma OnePasses(call: Call, t: int, configs: seq<ServiceConfig>)
    requires t <= call.now.steady && (call.op.ReloadWith? ==> call.op.configs == configs)
    ensures Passes([call], t, call.now.steady, configs)
  {
    assert [call][1..] == [];
  }

  lemma {:induction false} TicksPass(n: nat, now: int, t: int, configs: seq<ServiceConfig>)
    requires t <= now
    ensures Passes(Ticks(n, now), t, if n == 0 then t else now, configs)
    decreases n
  {
    if n > 0 {
      assert Ticks(n, now)[0] == Call(Clock, At(now)) && Ticks(n, now)[1..] == Ticks(n - 1, now);
      TicksPass(n - 1, now, now, configs);
    }
  }

  lemma RunOne(m: Mgr, call: Call, env: Env)
    requires AllOk(m.services)
    ensures Run(m, [call], env) == OpStep(m, call.op, env, call.now)
    ensures RunOk(m, [call], env) <==> OpOk(m, call.op)
  {
    hide OpStep, OpOk;
    assert [call][1..] == [];
  }

  lemma MaximumRunPasses(d: ServiceConfig)
    ensures Passes(MaximumRun(d), 0, 0, [d])
  {
    hide Passes, Ticks;
    var n, first, last := d.maxRestarts, Call(Autostart, At(0)), Call(ReloadWith([d]), At(0));
    OnePasses(first, 0, [d]);
    TicksPass(n, 0, 0, [d]);
    OnePasses(last, 0, [d]);
    PassOn(Ticks(n, 0), [last], 0, 0, 0, [d]);
    PassOn([first], Ticks(n, 0) + [last], 0, 0, 0, [d]);
  }

  lemma MaximumOverruns(c: ServiceConfig, d: ServiceConfig)
    requires c == Retrying(c.maxRestarts, c.restartWindow) && d == Retrying(d.maxRestarts, d.restartWindow)
    requires d.maxRestarts > 0 && (c.maxRestarts == 0 || c.maxRestarts > d.maxRestarts)
    ensures Overruns(MaximumRun(d), Refusing, c, d)
  {
    hide OpStep, Trying, ValidConfigs, Run, RunOk, Forward, LastTime, CountWithin, OpOk;
    var start, n := Load([c]), d.maxRestarts;
    var first, last := Call(Autostart, At(0)), Call(ReloadWith([d]), At(0));
    RetryingValid(c);
    RetryingValid(d);
    var m1 := FirstTry(c.maxRestarts, c.restartWindow);
    var m2 := ManyTries(m1, c.maxRestarts, c.restartWindow, 0, [0], [0], n);
    var m3 := TighterReload(m2, c, d, 0, [0] + Times(n, 0), [0] + Times(n, 0));
    RunOne(start, first, Refusing);
    RunOne(m2, last, Refusing);
    RunJoins(m1, Ticks(n, 0), [last], Refusing);
    RunJoins(start, [first], Ticks(n, 0) + [last], Refusing);
    MaximumRunPasses(d);
    OpsAllowed(start, m2, d);
    OneTooMany(n, 0, Window(d));
    TryingIs(m3, d, 0, [0] + Times(n, 0), [0] + Times(n, 0));
    assert OverrunAt(m3.services, 0, 0, d);
  }

  lemma TryingIs(m: Mgr, c: ServiceConfig, now: int, recent: seq<int>, all: seq<int>)
    requires Trying(m, c, now, recent, all)
    ensures AllOk(m.services) && |m.services| == 1 && m.services[0].config == c && m.services[0].history.all == all
  {}

  /** A second restart once the first has left the old window, the new settings, and then as many as they allow. */
  function WindowRun(c: ServiceConfig, d: ServiceConfig): seq<Call>
    requires d.maxRestarts > 0
  {
    var later := Window(c) + 1;
    [Call(Autostart, At(0))] +
      ([Call(Clock, At(later))] + ([Call(ReloadWith([d]), At(later))] + Ticks(d.maxRestarts - 1, later)))
  }

  lemma WindowRunPasses(c: ServiceConfig, d: ServiceConfig)
    requires d.maxRestarts > 0
    ensures Passes(WindowRun(c, d), 0, Window(c) + 1, [d])
  {
    hide Passes, Ticks;
    var later, n := Window(c) + 1, d.maxRestarts - 1;
    var first, tick, reload := Call(Autostart, At(0)), Call(Clock, At(later)), Call(ReloadWith([d]), At(later));
    OnePasses(first, 0, [d]);
    OnePasses(tick, 0, [d]);
    OnePasses(reload, later, [d]);
    TicksPass(n, later, later, [d]);
    PassOn([reload], Ticks(n, later), later, later, later, [d]);
    PassOn([tick], [reload] + Ticks(n, later), 0, later, later, [d]);
    PassOn([first], [tick] + ([reload] + Ticks(n, later)), 0, 0, later, [d]);
  }

  lemma WindowOverruns(c: ServiceConfig, d: ServiceConfig)
    requires c == Retrying(c.maxRestarts, c.restartWindow) && d == Retrying(d.maxRestarts, d.restartWindow)
    requires d.maxRestarts > 0 && c.maxRestarts > 0 && d.restartWindow > c.restartWindow
    ensures Overruns(WindowRun(c, d), Refusing, c, d)
  {
    hide OpStep, Trying, ValidConfigs, Run, RunOk, Forward, LastTime, CountWithin, OpOk;
    var start, later, n := Load([c]), Window(c) + 1, d.maxRestarts - 1;
    var first, tick, reload := Call(Autostart, At(0)), Call(Clock, At(later)), Call(ReloadWith([d]), At(later));
    RetryingValid(c);
    RetryingValid(d);
    var m1 := FirstTry(c.maxRestarts, c.restartWindow);
    TryingLater(m1, c, 0, later, [0], [0]);
    assert [0][1..] == [] && Prune([0], later, Window(c)) == [] && [] + [later] == [later];
    var m2 := NextTry(m1, c.maxRestarts, c.restartWindow, later, [0], [0]);
    var m3 := TighterReload(m2, c, d, later, [later], [0] + [later]);
    var m4 := ManyTries(m3, d.maxRestarts, d.restartWindow, later, [later], [0] + [later], n);
    RunOne(start, first, Refusing);
    RunOne(m1, tick, Refusing);
    RunOne(m2, reload, Refusing);
    RunJoins(m2, [reload], Ticks(n, later), Refusing);
    RunJoins(m1, [tick], [reload] + Ticks(n, later), Refusing);
    RunJoins(start, [first], [tick] + ([reload] + Ticks(n, later)), Refusing);
    WindowRunPasses(c, d);
    OpsAllowed(start, m2, d);
    OpsAllowed(start, m1, d);
    assert [0] + [later] + Times(n, later) == [0] + Times(d.maxRestarts, later);
    OneTooMany(d.maxRestarts, later, Window(d));
    TryingIs(m4, d, later, [later] + Times(n, later), [0] + [later] + Times(n, later));
    assert OverrunAt(m4.services, 0, 0, d);
  }

  lemma TryingLater(m: Mgr, c: ServiceConfig, t: int, now: int, recent: seq<int>, all: seq<int>)
    requires Trying(m, c, t, recent, all) && t <= now
    ensures Trying(m, c, now, recent, all)
  {}

  lemma {:induction false} OnlyThisLoosens(earlier: seq<ServiceConfig>, calls: seq<Call>, c: ServiceConfig,
                                           d: ServiceConfig, name: string)
    requires OnlyLists(calls, [d]) && Loosens(c, d) && d.maxRestarts > 0
    requires forall x :: x in earlier ==> x == c || x == d
    ensures ListsLoosen(earlier, calls, name)
    decreases |calls|
  {
    if calls != [] {
      assert forall k :: 0 <= k < |calls[1..]| ==> calls[1..][k] == calls[k + 1];
      OnlyThisLoosens(earlier + Wakes(calls[0].op), calls[1..], c, d, name);
    }
  }

  /**
   Exactly the changes of maximum and window that never lead to more restarts than the new settings
   allow, whatever runs before and after them.
   */
  lemma OverrunsExactly(c: ServiceConfig, d: ServiceConfig)
    requires c == Retrying(c.maxRestarts, c.restartWindow) && d == Retrying(d.maxRestarts, d.restartWindow)
    requires d.maxRestarts > 0
    ensures Loosens(c, d) <==> forall calls, env :: !Overruns(calls, env, c, d)
  {
    hide Overruns;
    if Loosens(c, d) {
      forall calls, env
        ensures !Overruns(calls, env, c, d)
      {
        LooseNeverOverruns(calls, env, c, d);
      }
    } else if c.maxRestarts == 0 || c.maxRestarts > d.maxRestarts {
      MaximumOverruns(c, d);
    } else {
      WindowOverruns(c, d);
    }
  }

  lemma LooseNeverOverruns(calls: seq<Call>, env: Env, c: ServiceConfig, d: ServiceConfig)
    requires Loosens(c, d) && d.maxRestarts > 0
    ensures !Overruns(calls, env, c, d)
  {
    hide ValidConfigs, Run, RunOk, Forward, CountWithin, ListsLoosen, RunLoosens;
    if Overruns(calls, env, c, d) {
      var ss := Run(Load([c]), calls, env).services;
      var i, lo :| OverrunAt(ss, i, lo, d);
      OnlyThisLoosens([c], calls, c, d, d.name);
      LoadIsManaged([c]);
      ListsLoosenRun(Load([c]), calls, env, [c], d.name);
      EveryRunKeepsBudgets([c], calls, env, 0, d.name, i, lo);
    }
  }
}
