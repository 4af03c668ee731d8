/**
 The restart budget: whatever happens between two clears of the history, no window of time of
 the configured length holds more restarts than allowed, and the delay doubles with every
 restart the window still holds.
 */
module RestartBudget {
  import opened Sequences
  import opened ServiceConfigs
  import opened Launching
  import opened ServiceSpec

  function Window(config: ServiceConfig): nat {
    config.restartWindow * 1000
  }

  /** How many of the times lie in the closed window from lo to hi. */
  function CountWithin(times: seq<int>, lo: int, hi: int): nat {
    if times == [] then 0
    else CountWithin(times[..|times| - 1], lo, hi) + if lo <= times[|times| - 1] <= hi then 1 else 0
  }

  predicate Sorted(times: seq<int>) {
    forall i, j :: 0 <= i < j < |times| ==> times[i] <= times[j]
  }

  /** From index `base` on, any two restarts `most` apart in the list are more than a window apart in time. */
  predicate Spread(all: seq<int>, base: nat, most: nat, window: nat) {
    forall i, j :: base <= i < |all| && base <= j < |all| && j == i + most ==> all[j] - all[i] > window
  }

  /** The list the program keeps is the tail of all restarts since the last clear, in the order of time. */
  predicate Tidy(s: Svc, now: int) {
    var all, recent := s.history.all, s.history.recent;
    && |recent| <= |all| && recent == all[|all| - |recent|..]
    && Sorted(all) && (forall k :: 0 <= k < |all| ==> all[k] <= now)
  }

  /**
   From index `base` on the restarts keep the present maximum and window, and what the program has
   dropped of them is older than that window.
   */
  predicate BudgetFrom(s: Svc, base: nat, now: int) {
    var all := s.history.all;
    && Tidy(s, now) && base <= |all|
    && (forall k :: base <= k < |all| - |s.history.recent| ==> now - all[k] > Window(s.config))
    && (s.config.maxRestarts > 0 ==> Spread(all, base, s.config.maxRestarts, Window(s.config)))
  }

  /** All restarts keep the present maximum and window. */
  predicate BudgetOk(s: Svc, now: int) {
    BudgetFrom(s, 0, now)
  }

  /**
   The restarts scheduled after those of `past` keep the present maximum and window; all of them do
   when the history has been begun anew meanwhile.
   */
  predicate BudgetSince(s: Svc, past: seq<int>, now: int) {
    BudgetFrom(s, 0, now) || (past <= s.history.all && BudgetFrom(s, |past|, now))
  }

  /** What was scheduled after `past`. */
  function Since(all: seq<int>, past: seq<int>): seq<int> {
    if past <= all then all[|past|..] else all
  }

  // ----- what the list says about any window

  lemma {:induction false} CountAtMostLength(times: seq<int>, lo: int, hi: int)
    ensures CountWithin(times, lo, hi) <= |times|
    decreases |times|
  {
    if times != [] {
      CountAtMostLength(times[..|times| - 1], lo, hi);
    }
  }

  lemma {:induction false} CountBefore(times: seq<int>, k: nat, lo: int, hi: int)
    requires k <= |times| && forall i :: 0 <= i < k ==> times[i] < lo
    ensures CountWithin(times, lo, hi) <= |times| - k
    decreases |times|
  {
    if times != [] && k < |times| {
      CountBefore(times[..|times| - 1], k, lo, hi);
    } else if times != [] {
      CountBefore(times[..|times| - 1], |times| - 1, lo, hi);
    }
  }

  lemma {:induction false} SpreadBoundsCount(all: seq<int>, most: nat, window: nat, lo: int)
    requires most > 0 && Sorted(all) && Spread(all, 0, most, window)
    ensures CountWithin(all, lo, lo + window) <= most
    decreases |all|
  {
    if |all| <= most {
      CountAtMostLength(all, lo, lo + window);
    } else {
      var last := |all| - 1;
      if all[last] > lo + window {
        var rest := all[..last];
        SpreadBoundsCount(rest, most, window, lo);
      } else {
        var k := last - most;
        assert all[last] - all[k] > window;
        CountBefore(all, k + 1, lo, lo + window);
      }
    }
  }

  lemma SpreadFrom(all: seq<int>, base: nat, at: nat, most: nat, window: nat)
    requires base <= at <= |all| && Sorted(all) && Spread(all, base, most, window)
    ensures Sorted(all[at..]) && Spread(all[at..], 0, most, window)
  {
    var tail := all[at..];
    forall i, j | 0 <= i < |tail| && 0 <= j < |tail| && j == i + most
      ensures tail[j] - tail[i] > window
    {
      assert all[at + j] - all[at + i] > window;
    }
  }

  /** At most maxRestarts restarts scheduled since `past` in any closed window of the configured length. */
  lemma WindowHoldsFewRestarts(s: Svc, past: seq<int>, now: int, lo: int)
    requires BudgetSince(s, past, now) && s.config.maxRestarts > 0
    ensures CountWithin(Since(s.history.all, past), lo, lo + Window(s.config)) <= s.config.maxRestarts
  {
    var all := s.history.all;
    var base := if BudgetFrom(s, 0, now) then 0 else |past|;
    var at := if past <= all then |past| else 0;
    SpreadFrom(all, base, at, s.config.maxRestarts, Window(s.config));
    assert Since(all, past) == all[at..];
    SpreadBoundsCount(all[at..], s.config.maxRestarts, Window(s.config), lo);
  }

  // ----- dropping what is older than the window

  lemma {:induction false} PruneDrops(recent: seq<int>, now: int, window: nat) returns (k: nat)
    ensures k <= |recent| && Prune(recent, now, window) == recent[k..]
    ensures forall i :: 0 <= i < k ==> now - recent[i] > window
    ensures k < |recent| ==> now - recent[k] <= window
    decreases |recent|
  {
    if recent != [] && now - recent[0] > window {
      var j := PruneDrops(recent[1..], now, window);
      k := j + 1;
      assert recent[1..][j..] == recent[k..];
      assert forall i :: 1 <= i < k ==> recent[i] == recent[1..][i - 1];
    } else {
      k := 0;
    }
  }

  lemma {:induction false} CountTail(all: seq<int>, k: nat, lo: int, hi: int)
    requires k <= |all|
    requires forall i :: 0 <= i < k ==> all[i] < lo
    requires forall i :: k <= i < |all| ==> lo <= all[i] <= hi
    ensures CountWithin(all, lo, hi) == |all| - k
    decreases |all|
  {
    if all != [] {
      var rest := all[..|all| - 1];
      CountTail(rest, if k < |all| then k else |all| - 1, lo, hi);
    }
  }

  /** The list after pruning is a tail, and exactly what was listed of the window that ends now. */
  lemma PrunedIsWindow(s: Svc, now: int)
    requires Tidy(s, now)
    ensures var pruned, recent := Prune(s.history.recent, now, Window(s.config)), s.history.recent;
            && |pruned| <= |recent| && pruned == s.history.all[|s.history.all| - |pruned|..]
            && |pruned| == CountWithin(recent, now - Window(s.config), now)
            && forall i :: 0 <= i < |recent| - |pruned| ==> now - recent[i] > Window(s.config)
  {
    hide Prune, CountWithin;
    var recent, window := s.history.recent, Window(s.config);
    var all := s.history.all;
    var k := PruneDrops(recent, now, window);
    var dropped := |all| - |recent|;
    assert forall i :: 0 <= i < |recent| ==> recent[i] == all[dropped + i];
    assert recent[k..] == all[dropped + k..];
    CountTail(recent, k, now - window, now);
  }

  /** With a budget kept from the beginning, the window holds nothing that was dropped. */
  lemma WindowIsListed(s: Svc, now: int)
    requires BudgetOk(s, now)
    ensures CountWithin(s.history.all, now - Window(s.config), now) ==
            CountWithin(s.history.recent, now - Window(s.config), now)
  {
    hide Prune, CountWithin;
    var all, recent, window := s.history.all, s.history.recent, Window(s.config);
    var dropped := |all| - |recent|;
    var k := PruneDrops(recent, now, window);
    assert forall i :: 0 <= i < |recent| ==> recent[i] == all[dropped + i];
    CountTail(recent, k, now - window, now);
    forall i | 0 <= i < dropped + k
      ensures all[i] < now - window
    {
      if i >= dropped {
        assert all[i] == recent[i - dropped];
      }
    }
    CountTail(all, dropped + k, now - window, now);
  }

  /**
   Exactly when a restart is refused, and when the next attempt is due: the delay doubles for
   each listed restart of the window that ends now, up to the maximum. When the history has been
   kept under these settings from the beginning, those are all restarts of the window.
   */
  lemma RestartOutcome(s: Svc, now: Instant)
    requires Tidy(s, now.steady)
    ensures var n := CountWithin(s.history.recent, now.steady - Window(s.config), now.steady);
            var r := ScheduleRestart(s, now);
            && (BudgetOk(s, now.steady) ==>
                  n == CountWithin(s.history.all, now.steady - Window(s.config), now.steady))
            && if s.config.maxRestarts > 0 && n >= s.config.maxRestarts then
                 r.state.Failed? && r.history.all == s.history.all
               else
                 && r.state.Backoff? && r.history.all == s.history.all + [now.steady]
                 && r.timers.restartAt ==
                    now.steady + Least(s.config.restartDelay * Pow2(n), s.config.restartDelayMax)
  {
    hide CountWithin, BudgetOk, Prune, BackoffDelay, Pow2;
    PrunedIsWindow(s, now.steady);
    if BudgetOk(s, now.steady) {
      WindowIsListed(s, now.steady);
    }
    DelayIsPow(s.config, CountWithin(s.history.recent, now.steady - Window(s.config), now.steady));
  }

  function Pow2(n: nat): nat {
    if n == 0 then 1 else 2 * Pow2(n - 1)
  }

  lemma {:induction false} DoubledIsPow(delay: nat, n: nat)
    ensures Doubled(delay, n) == delay * Pow2(n)
  {
    if n > 0 {
      var p := Pow2(n - 1);
      DoubledIsPow(delay, n - 1);
      assert delay * (2 * p) == 2 * (delay * p);
    }
  }

  lemma DelayIsPow(config: ServiceConfig, n: nat)
    ensures BackoffDelay(config, n) == Least(config.restartDelay * Pow2(n), config.restartDelayMax)
  {
    DoubledIsPow(config.restartDelay, n);
  }

  // ----- every call keeps the budget

  lemma BudgetLater(s: Svc, past: seq<int>, t: int, now: int)
    requires BudgetSince(s, past, t) && t <= now
    ensures BudgetSince(s, past, now)
  {}

  lemma BudgetCleared(s: Svc, past: seq<int>, now: int)
    requires s.history == NO_HISTORY
    ensures BudgetSince(s, past, now)
  {}

  /** What the budget depends on. */
  predicate SameBudget(s: Svc, r: Svc) {
    && r.history == s.history
    && r.config.maxRestarts == s.config.maxRestarts && r.config.restartWindow == s.config.restartWindow
  }

  lemma BudgetSame(s: Svc, r: Svc, past: seq<int>, now: int)
    requires BudgetSince(s, past, now) && SameBudget(s, r)
    ensures BudgetSince(r, past, now)
  {}

  lemma FromSame(s: Svc, r: Svc, base: nat, now: int)
    requires BudgetFrom(s, base, now) && SameBudget(s, r)
    ensures BudgetFrom(r, base, now)
  {}

  lemma PushKeeps(s: Svc, base: nat, r: Svc, now: int)
    requires BudgetFrom(s, base, now) && (s.config.maxRestarts > 0 ==> |s.history.recent| < s.config.maxRestarts)
    requires r.history == History(s.history.recent + [now], s.history.all + [now]) && r.config == s.config
    ensures BudgetFrom(r, base, now)
  {
    var all, recent, most, window := s.history.all, s.history.recent, s.config.maxRestarts, Window(s.config);
    var longer := all + [now];
    assert recent + [now] == longer[|all| - |recent|..];
    if most > 0 {
      forall i, j | base <= i < |longer| && base <= j < |longer| && j == i + most
        ensures longer[j] - longer[i] > window
      {
        if j < |all| {
          assert all[j] - all[i] > window;
        } else {
          assert now - all[i] > window;
        }
      }
    }
  }

  lemma PruneKeeps(s: Svc, base: nat, now: int)
    requires BudgetFrom(s, base, now)
    ensures BudgetFrom(s.(history := s.history.(recent := Prune(s.history.recent, now, Window(s.config)))), base, now)
  {
    hide Prune, CountWithin;
    PrunedIsWindow(s, now);
    var all, recent, window := s.history.all, s.history.recent, Window(s.config);
    var pruned := Prune(recent, now, window);
    forall k | base <= k < |all| - |pruned|
      ensures now - all[k] > window
    {
      var dropped := |all| - |recent|;
      if k >= dropped {
        assert all[k] == recent[k - dropped];
      }
    }
  }

  lemma ScheduleKeepsFrom(s: Svc, base: nat, now: Instant)
    requires BudgetFrom(s, base, now.steady)
    ensures BudgetFrom(ScheduleRestart(s, now), base, now.steady)
  {
    hide Prune, BudgetFrom, BackoffDelay;
    PruneKeeps(s, base, now.steady);
    var pruned := Prune(s.history.recent, now.steady, Window(s.config));
    var shorter := s.(history := s.history.(recent := pruned));
    if s.config.maxRestarts == 0 || |pruned| < s.config.maxRestarts {
      PushKeeps(shorter, base, ScheduleRestart(s, now), now.steady);
    } else {
      FromSame(shorter, ScheduleRestart(s, now), base, now.steady);
    }
  }

  lemma ScheduleKeepsBudget(s: Svc, past: seq<int>, now: Instant)
    requires BudgetSince(s, past, now.steady)
    ensures BudgetSince(ScheduleRestart(s, now), past, now.steady)
  {
    hide BudgetFrom;
    if BudgetFrom(s, 0, now.steady) {
      ScheduleKeepsFrom(s, 0, now);
    } else {
      ScheduleKeepsFrom(s, |past|, now);
    }
  }

  lemma PolicyKeepsBudget(s: Svc, past: seq<int>, now: Instant, clean: bool)
    requires BudgetSince(s, past, now.steady)
    ensures BudgetSince(ApplyRestartPolicy(s, now, clean), past, now.steady)
  {
    hide BudgetSince, ScheduleRestart;
    ScheduleKeepsBudget(s, past, now);
    BudgetSame(s, s.(state := if clean then Stopped else Failed), past, now.steady);
  }

  lemma RelaunchKeepsBudget(s: Svc, past: seq<int>, log: Log, ctx: Ctx)
    requires BudgetSince(s, past, ctx.now.steady)
    ensures BudgetSince(Relaunch(s, log, ctx).svc, past, ctx.now.steady)
  {
    hide BudgetSince, ScheduleRestart;
    if ctx.dependenciesReady && ctx.env(|log|).pid.None? {
      var refused := s.(report := s.report.(lastExitCode := 127, lastExitTime := ctx.now.wallNs));
      BudgetSame(s, refused, past, ctx.now.steady);
      PolicyKeepsBudget(refused, past, ctx.now, false);
    } else {
      BudgetSame(s, Relaunch(s, log, ctx).svc, past, ctx.now.steady);
    }
  }

  lemma StartKeepsBudget(s: Svc, past: seq<int>, log: Log, ctx: Ctx)
    requires BudgetSince(s, past, ctx.now.steady)
    ensures BudgetSince(Start(s, log, ctx).svc, past, ctx.now.steady)
  {
    hide BudgetSince, Relaunch;
    if IsAlive(s.state) {
      BudgetSame(s, Start(s, log, ctx).svc, past, ctx.now.steady);
    } else if s.state.Waiting? {
      RelaunchKeepsBudget(s, past, log, ctx);
    } else {
      var cleared := s.(history := NO_HISTORY);
      BudgetCleared(cleared, past, ctx.now.steady);
      RelaunchKeepsBudget(cleared, past, log, ctx);
    }
  }

  lemma ExitKeepsBudget(s: Svc, past: seq<int>, log: Log, status: ExitStatus, ctx: Ctx)
    requires BudgetSince(s, past, ctx.now.steady)
    ensures BudgetSince(HandleExit(s, log, status, ctx).svc, past, ctx.now.steady)
  {
    hide BudgetSince, Relaunch, ScheduleRestart, ApplyRestartPolicy;
    var gone := WithoutProcess(s, status, ctx.now);
    BudgetSame(s, gone, past, ctx.now.steady);
    if s.state.Stopping? {
      var stopped := AtRest(gone);
      BudgetSame(s, stopped, past, ctx.now.steady);
      BudgetSame(s, CountRestart(stopped), past, ctx.now.steady);
      ScheduleKeepsBudget(stopped, past, ctx.now);
      RelaunchKeepsBudget(if s.pendingStartIsRestart then CountRestart(stopped) else stopped, past, log, ctx);
    } else {
      PolicyKeepsBudget(gone, past, ctx.now, ExitedCleanly(status));
    }
  }

  lemma AdvanceKeepsBudget(s: Svc, past: seq<int>, log: Log, ctx: Ctx)
    requires SvcInv(s) && BudgetSince(s, past, ctx.now.steady)
    ensures BudgetSince(Advance(s, log, ctx).svc, past, ctx.now.steady)
  {
    hide BudgetSince, Relaunch;
    if s.state.Backoff? {
      BudgetSame(s, CountRestart(s), past, ctx.now.steady);
      RelaunchKeepsBudget(CountRestart(s), past, log, ctx);
    } else {
      BudgetSame(s, Advance(s, log, ctx).svc, past, ctx.now.steady);
    }
  }

  lemma TickKeepsBudget(s: Svc, past: seq<int>, log: Log, ctx: Ctx)
    requires SvcInv(s) && BudgetSince(s, past, ctx.now.steady)
    ensures BudgetSince(Tick(s, log, ctx).svc, past, ctx.now.steady)
  {
    hide BudgetSince, Advance, HandleExit;
    var polled := PollChild(s, log, ctx);
    if s.child.Some? && ctx.env(|log|).exit.Some? {
      ExitKeepsBudget(s, past, log + [Exited(s.child.value.id)], ctx.env(|log|).exit.value, ctx);
    }
    AdvanceKeepsBudget(polled.svc, past, polled.log, ctx);
  }

  lemma RestartKeepsBudget(s: Svc, past: seq<int>, log: Log, ctx: Ctx)
    requires SvcInv(s) && BudgetSince(s, past, ctx.now.steady)
    ensures BudgetSince(Restart(s, log, ctx).svc, past, ctx.now.steady)
  {
    hide BudgetSince, Start;
    StartKeepsBudget(s, past, log, ctx);
    if IsAlive(s.state) {
      BudgetSame(s, Restart(s, log, ctx).svc, past, ctx.now.steady);
    }
  }

  /** Settings that allow at least as many restarts, in a window that is not longer. */
  predicate Loosens(c: ServiceConfig, d: ServiceConfig) {
    && (d.maxRestarts == 0 || 0 < c.maxRestarts <= d.maxRestarts)
    && d.restartWindow <= c.restartWindow
  }

  lemma SpreadLoosened(all: seq<int>, base: nat, most: nat, window: nat, more: nat, shorter: nat)
    requires 0 < most <= more && shorter <= window && Sorted(all) && Spread(all, base, most, window)
    ensures Spread(all, base, more, shorter)
  {
    forall i, j | base <= i < |all| && base <= j < |all| && j == i + more
      ensures all[j] - all[i] > shorter
    {
      assert all[i + most] - all[i] > window;
    }
  }

  lemma FromLoosened(s: Svc, base: nat, config: ServiceConfig, now: int)
    requires BudgetFrom(s, base, now) && Loosens(s.config, config)
    ensures BudgetFrom(s.(config := config), base, now)
  {
    if config.maxRestarts > 0 {
      SpreadLoosened(s.history.all, base, s.config.maxRestarts, Window(s.config), config.maxRestarts, Window(config));
    }
  }

  lemma BudgetLoosened(s: Svc, past: seq<int>, config: ServiceConfig, now: int)
    requires BudgetSince(s, past, now) && Loosens(s.config, config)
    ensures BudgetSince(s.(config := config), past, now)
  {
    hide BudgetFrom;
    FromLoosened(s, if BudgetFrom(s, 0, now) then 0 else |past|, config, now);
  }

  /** With a smaller maximum: one restart more than it allows, all at once. */
  lemma SmallerMaximumFails(c: ServiceConfig, d: ServiceConfig) returns (s: Svc)
    requires d.maxRestarts > 0 && (c.maxRestarts == 0 || c.maxRestarts > d.maxRestarts)
    ensures s.config == c && BudgetOk(s, 0) && !BudgetOk(s.(config := d), 0)
  {
    var times := seq(d.maxRestarts + 1, i => 0);
    s := NewService(c).(history := History(times, times));
    assert times[d.maxRestarts] - times[0] == 0;
  }

  /** With a longer window: a restart that has been dropped and lies inside it. */
  lemma LongerWindowFails(c: ServiceConfig, d: ServiceConfig) returns (s: Svc, now: int)
    requires d.restartWindow > c.restartWindow
    ensures s.config == c && BudgetOk(s, now) && !BudgetOk(s.(config := d), now)
  {
    s, now := NewService(c).(history := History([], [0])), Window(c) + 1;
    assert now - s.history.all[0] <= Window(d);
  }

  /** Exactly the changes of settings that every service in its budget survives. */
  lemma LoosensExactly(c: ServiceConfig, d: ServiceConfig)
    ensures Loosens(c, d) <==>
            forall s: Svc, now: int :: s.config == c && BudgetOk(s, now) ==> BudgetOk(s.(config := d), now)
  {
    if Loosens(c, d) {
      forall s: Svc, now: int | s.config == c && BudgetOk(s, now)
        ensures BudgetOk(s.(config := d), now)
      {
        FromLoosened(s, 0, d, now);
      }
    } else if d.restartWindow > c.restartWindow {
      var s, now := LongerWindowFails(c, d);
    } else {
      var s := SmallerMaximumFails(c, d);
    }
  }

  lemma StepIs(s: Svc, log: Log, op: SvcOp, ctx: Ctx)
    requires SvcInv(s)
    ensures op.TickOp? ==> Step(s, log, op, ctx) == Tick(s, log, ctx)
    ensures op.StartOp? ==> Step(s, log, op, ctx) == Start(s, log, ctx)
    ensures op.RestartOp? ==> Step(s, log, op, ctx) == Restart(s, log, ctx)
    ensures op.ReplaceOp? ==> Step(s, log, op, ctx).svc == s.(config := op.config)
  {
    hide Tick, Start, Restart, Stop, KillNow, Heartbeat;
  }

  /**
   With a clock that does not run backwards every call keeps the budget, a change of settings
   included that only loosens the maximum and the window.
   */
  lemma StepKeepsBudget(s: Svc, past: seq<int>, log: Log, op: SvcOp, ctx: Ctx, t: int)
    requires SvcInv(s) && BudgetSince(s, past, t) && t <= ctx.now.steady
    requires op.ReplaceOp? ==> Loosens(s.config, op.config)
    ensures BudgetSince(Step(s, log, op, ctx).svc, past, ctx.now.steady)
  {
    BudgetLater(s, past, t, ctx.now.steady);
    hide BudgetSince, Step;
    StepIs(s, log, op, ctx);
    match op
    case TickOp => TickKeepsBudget(s, past, log, ctx);
    case StartOp => StartKeepsBudget(s, past, log, ctx);
    case RestartOp => RestartKeepsBudget(s, past, log, ctx);
    case ReplaceOp(config) => BudgetLoosened(s, past, config, ctx.now.steady);
    case _ =>
      OthersAddNothing(s, log, op, ctx);
      BudgetSame(s, Step(s, log, op, ctx).svc, past, ctx.now.steady);
  }

  /** Other values for the maximum and the window leave the history; from here on it keeps the new ones. */
  lemma ChangeBeginsBudget(s: Svc, config: ServiceConfig, now: int)
    requires Tidy(s, now)
    ensures BudgetSince(s.(config := config), s.history.all, now)
  {}

  /** Whatever the settings become, every call keeps the history a tidy list. */
  lemma StepKeepsTidy(s: Svc, log: Log, op: SvcOp, ctx: Ctx, t: int)
    requires SvcInv(s) && Tidy(s, t) && t <= ctx.now.steady
    ensures Tidy(Step(s, log, op, ctx).svc, ctx.now.steady)
  {
    ChangeBeginsBudget(s, s.config, t);
    hide BudgetSince, Step;
    if !op.ReplaceOp? {
      StepKeepsBudget(s, s.history.all, log, op, ctx, t);
      TidyFromBudget(Step(s, log, op, ctx).svc, s.history.all, ctx.now.steady);
    } else {
      ReplaceKeepsHistory(s, log, op, ctx);
    }
  }

  lemma ReplaceKeepsHistory(s: Svc, log: Log, op: SvcOp, ctx: Ctx)
    requires SvcInv(s) && op.ReplaceOp?
    ensures Step(s, log, op, ctx).svc == s.(config := op.config)
  {}

  lemma TidyFromBudget(s: Svc, past: seq<int>, now: int)
    requires BudgetSince(s, past, now)
    ensures Tidy(s, now)
  {}

  // ----- exits, and what clears the history

  /** Whether the policy asks for a restart after an exit that nobody ordered. */
  predicate WantsRestart(mode: RestartMode, clean: bool) {
    mode.Always? || (mode.OnFailure? && !clean)
  }

  /**
   What becomes of a service whose process exits unasked: it rests, stopped or failed as the exit
   was clean, with code 0 and no signal, or not, unless its policy wants a restart; then it fails exactly
   when the window that ends now is full, and otherwise comes back after the doubled delay.
   */
  lemma ExitOutcome(s: Svc, log: Log, ctx: Ctx)
    requires SvcInv(s) && s.child.Some? && !s.state.Stopping? && Tidy(s, ctx.now.steady)
    requires ctx.env(|log|).exit.Some?
    ensures var r := PollChild(s, log, ctx).svc;
            var status := ctx.env(|log|).exit.value;
            var clean := status.code == 0 && status.signal == 0;
            var n := CountWithin(s.history.recent, ctx.now.steady - Window(s.config), ctx.now.steady);
            && r.child.None? && r.report.lastExitCode == WireExitCode(status) && !r.report.usageValid
            && if !WantsRestart(s.config.restart, clean) then
                 r.history == s.history && if clean then r.state.Stopped? else r.state.Failed?
               else if s.config.maxRestarts > 0 && n >= s.config.maxRestarts then
                 r.state.Failed? && r.history.all == s.history.all
               else
                 && r.state.Backoff? && r.history.all == s.history.all + [ctx.now.steady]
                 && r.timers.restartAt ==
                    ctx.now.steady + Least(s.config.restartDelay * Pow2(n), s.config.restartDelayMax)
  {
    hide ScheduleRestart, CountWithin, BudgetOk, Pow2;
    var status := ctx.env(|log|).exit.value;
    var gone := WithoutProcess(s, status, ctx.now);
    RestartOutcome(gone, ctx.now);
    KeepsReport(gone, ctx.now);
    assert PollChild(s, log, ctx).svc == ApplyRestartPolicy(gone, ctx.now, ExitedCleanly(status));
  }

  /** A restart that is scheduled, or not, changes nothing else that is reported. */
  lemma KeepsReport(s: Svc, now: Instant)
    ensures var p, q := s.report, ScheduleRestart(s, now).report;
            && q.lastExitCode == p.lastExitCode && q.lastExitTime == p.lastExitTime
            && q.usage == p.usage && q.usageValid == p.usageValid && q.restartCount == p.restartCount
  {}

  /** A start from stopped, failed or backoff; from any other state it keeps the history. */
  predicate ClearsHistory(s: Svc, op: SvcOp) {
    (op.StartOp? || op.RestartOp?) && (s.state.Stopped? || s.state.Failed? || s.state.Backoff?)
  }

  predicate AddsAtMost(all: seq<int>, more: seq<int>, now: int) {
    all <= more && forall k :: |all| <= k < |more| ==> more[k] == now
  }

  lemma ScheduleAdds(s: Svc, now: Instant)
    ensures AddsAtMost(s.history.all, ScheduleRestart(s, now).history.all, now.steady)
  {}

  lemma RelaunchAdds(s: Svc, log: Log, ctx: Ctx)
    ensures AddsAtMost(s.history.all, Relaunch(s, log, ctx).svc.history.all, ctx.now.steady)
  {
    hide ScheduleRestart;
    var refused := s.(report := s.report.(lastExitCode := 127, lastExitTime := ctx.now.wallNs));
    ScheduleAdds(refused, ctx.now);
  }

  lemma AdvanceAdds(s: Svc, log: Log, ctx: Ctx)
    requires SvcInv(s)
    ensures AddsAtMost(s.history.all, Advance(s, log, ctx).svc.history.all, ctx.now.steady)
  {
    hide Relaunch;
    RelaunchAdds(CountRestart(s), log, ctx);
  }

  lemma PollAdds(s: Svc, log: Log, ctx: Ctx)
    ensures AddsAtMost(s.history.all, PollChild(s, log, ctx).svc.history.all, ctx.now.steady)
  {
    hide Relaunch, ScheduleRestart;
    if s.child.Some? && ctx.env(|log|).exit.Some? {
      var status := ctx.env(|log|).exit.value;
      var gone := WithoutProcess(s, status, ctx.now);
      var stopped := AtRest(gone);
      ScheduleAdds(gone, ctx.now);
      ScheduleAdds(stopped, ctx.now);
      RelaunchAdds(stopped, log + [Exited(s.child.value.id)], ctx);
      RelaunchAdds(CountRestart(stopped), log + [Exited(s.child.value.id)], ctx);
    }
  }

  lemma TickAdds(s: Svc, log: Log, ctx: Ctx)
    requires SvcInv(s)
    ensures AddsAtMost(s.history.all, Step(s, log, TickOp, ctx).svc.history.all, ctx.now.steady)
  {
    hide Advance, PollChild;
    var polled := PollChild(s, log, ctx);
    PollAdds(s, log, ctx);
    AdvanceAdds(polled.svc, polled.log, ctx);
  }

  lemma StartAdds(s: Svc, log: Log, ctx: Ctx)
    requires SvcInv(s)
    ensures var before := if ClearsHistory(s, StartOp) then [] else s.history.all;
            && AddsAtMost(before, Step(s, log, StartOp, ctx).svc.history.all, ctx.now.steady)
            && AddsAtMost(before, Step(s, log, RestartOp, ctx).svc.history.all, ctx.now.steady)
  {
    hide Relaunch;
    RelaunchAdds(s, log, ctx);
    RelaunchAdds(s.(history := NO_HISTORY), log, ctx);
  }

  /**
   The history grows by the restarts scheduled now and is never cut, except that a start from
   stopped, failed or backoff begins a new one; a start from waiting or stopping does not.
   */
  lemma HistoryOnlyGrows(s: Svc, log: Log, op: SvcOp, ctx: Ctx)
    requires SvcInv(s)
    ensures AddsAtMost(if ClearsHistory(s, op) then [] else s.history.all, Step(s, log, op, ctx).svc.history.all,
                       ctx.now.steady)
  {
    hide Step;
    if op.TickOp? {
      TickAdds(s, log, ctx);
    } else if op.StartOp? || op.RestartOp? {
      StartAdds(s, log, ctx);
    } else {
      OthersAddNothing(s, log, op, ctx);
    }
  }

  lemma OthersAddNothing(s: Svc, log: Log, op: SvcOp, ctx: Ctx)
    requires SvcInv(s) && !op.TickOp? && !op.StartOp? && !op.RestartOp?
    ensures Step(s, log, op, ctx).svc.history == s.history
  {
    hide Tick, Start, Restart;
  }
}
