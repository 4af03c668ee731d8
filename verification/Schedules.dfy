/**
 A shutdown stops services that do not depend on each other side by side, so each is down by its own
 time: what its stop may take, after the last of the live services that depend on it.
 */
module Schedules {
  import opened Sequences
  import opened Launching
  import opened ServiceSpec
  import opened ManagerSpec
  import opened MicroSteps
  import opened Graphs
  import opened Runs
  import opened Reload
  import opened Supervision
  import opened ShutdownOrder
  import opened Deadline

  /** When each service, by its name, is to be down. */
  type Schedule = string -> int

  predicate NeededBy(ss: seq<Svc>, i: nat, k: nat)
    requires i < |ss| && k < |ss|
  {
    IsAlive(ss[k].state) && ss[i].config.name in ss[k].config.dependsOn
  }

  /** A service that has not been asked to stop yet is due its stop timeout after whatever live service needs it. */
  predicate AfterDependents(ss: seq<Svc>, i: nat, d: nat, due: Schedule)
    requires i < |ss|
  {
    forall k :: 0 <= k < |ss| && NeededBy(ss, i, k) ==>
      due(ss[i].config.name) >= due(ss[k].config.name) + ss[i].config.stopTimeout + 2 * d
  }

  /** The schedule leaves every live service the time it may take from t on. */
  predicate Fits(ss: seq<Svc>, t: int, d: nat, due: Schedule) {
    forall i :: 0 <= i < |ss| && IsAlive(ss[i].state) ==>
      && due(ss[i].config.name) >= t + Remaining(ss[i], t, d)
      && (!ss[i].state.Stopping? ==> AfterDependents(ss, i, d, due))
  }

  predicate IsNeeded(ss: seq<Svc>, i: nat)
    requires i < |ss|
  {
    exists k :: 0 <= k < |ss| && NeededBy(ss, i, k)
  }

  /** During the shutdown: what is stopping will be down in time, and everything else live is still needed. */
  predicate OnTime(ss: seq<Svc>, t: int, d: nat, due: Schedule) {
    forall i :: 0 <= i < |ss| && IsAlive(ss[i].state) ==>
      if ss[i].state.Stopping? then due(ss[i].config.name) >= t + Remaining(ss[i], t, d)
      else IsNeeded(ss, i) && AfterDependents(ss, i, d, due)
  }

  // ----- nothing live is due before the next tick

  /** The live service that is due first. */
  lemma {:induction false} FirstDue(ss: seq<Svc>, due: Schedule, n: nat) returns (j: nat)
    requires n <= |ss| && exists i :: 0 <= i < n && IsAlive(ss[i].state)
    ensures j < n && IsAlive(ss[j].state)
    ensures forall i :: 0 <= i < n && IsAlive(ss[i].state) ==> due(ss[j].config.name) <= due(ss[i].config.name)
    decreases n
  {
    if exists i :: 0 <= i < n - 1 && IsAlive(ss[i].state) {
      j := FirstDue(ss, due, n - 1);
      if IsAlive(ss[n - 1].state) && due(ss[n - 1].config.name) < due(ss[j].config.name) {
        j := n - 1;
      }
    } else {
      j := n - 1;
    }
  }

  /** The first that is due is stopping, and a live service may take until the next tick at least. */
  lemma NoneDueYet(ss: seq<Svc>, t: int, d: nat, due: Schedule, i: nat)
    requires OnTime(ss, t, d, due) && d > 0 && i < |ss| && IsAlive(ss[i].state)
    ensures due(ss[i].config.name) >= t + d
  {
    var j := FirstDue(ss, due, |ss|);
    assert ss[j].state.Stopping?;
  }

  // ----- what keeps the schedule

  lemma StoppingTicks(s: Svc, log: Log, ctx: Ctx)
    requires SvcInv(s) && s.state.Stopping? && !ctx.launchAllowed
    ensures var r := ServiceSpec.Tick(s, log, ctx).svc; IsAlive(r.state) ==> r.state.Stopping?
  {
    hide ScheduleRestart;
  }

  /** What the first loop of a tick does to every service, as far as the schedule goes. */
  ghost predicate FirstLoop(ss: seq<Svc>, t: int, tt: seq<Svc>, u: int, d: nat) {
    SameConfigs(ss, tt) && forall i :: 0 <= i < |ss| ==>
      Spends(ss[i], t, tt[i], u, d) && (ss[i].state.Stopping? && IsAlive(tt[i].state) ==> tt[i].state.Stopping?)
  }

  /** What the second loop does, which is also that of StopAll: what nothing live needs is stopping now. */
  ghost predicate StopLoop(tt: seq<Svc>, ff: seq<Svc>, u: int, d: nat) {
    SameLife(tt, ff) && forall i :: 0 <= i < |tt| ==>
      && Remaining(ff[i], u, d) <= Remaining(tt[i], u, d)
      && (tt[i].state.Stopping? ==> ff[i].state.Stopping?)
      && (IsAlive(ff[i].state) && !ff[i].state.Stopping? ==> IsNeeded(ff, i))
  }

  lemma SameNeeds(ss: seq<Svc>, tt: seq<Svc>, i: nat, k: nat)
    requires SameConfigs(ss, tt) && i < |ss| && k < |ss| && (IsAlive(tt[k].state) ==> IsAlive(ss[k].state))
    ensures NeededBy(tt, i, k) ==> NeededBy(ss, i, k)
    ensures ss[i].config == tt[i].config && ss[k].config == tt[k].config
  {
    assert SameSettings(ss[i], tt[i]) && SameSettings(ss[k], tt[k]);
  }

  lemma StillAfter(ss: seq<Svc>, tt: seq<Svc>, i: nat, d: nat, due: Schedule)
    requires SameConfigs(ss, tt) && i < |ss| && AfterDependents(ss, i, d, due)
    requires forall k :: 0 <= k < |ss| && IsAlive(tt[k].state) ==> IsAlive(ss[k].state)
    ensures AfterDependents(tt, i, d, due)
  {
    forall k | 0 <= k < |tt| && NeededBy(tt, i, k)
      ensures due(tt[i].config.name) >= due(tt[k].config.name) + tt[i].config.stopTimeout + 2 * d
    {
      SameNeeds(ss, tt, i, k);
      assert NeededBy(ss, i, k);
    }
  }

  /** A service that is live and not stopping is due a stop timeout and two gaps after the next tick at the earliest. */
  lemma TimeToStop(ss: seq<Svc>, t: int, d: nat, due: Schedule, i: nat)
    requires OnTime(ss, t, d, due) && d > 0 && i < |ss| && IsAlive(ss[i].state) && !ss[i].state.Stopping?
    ensures due(ss[i].config.name) >= t + d + Remaining(ss[i], t, d)
  {
    var k :| 0 <= k < |ss| && NeededBy(ss, i, k);
    NoneDueYet(ss, t, d, due, k);
  }

  lemma LoopsOnTime(ss: seq<Svc>, t: int, tt: seq<Svc>, ff: seq<Svc>, u: int, d: nat, due: Schedule)
    requires OnTime(ss, t, d, due) && d > 0 && t <= u <= t + d
    requires FirstLoop(ss, t, tt, u, d) && StopLoop(tt, ff, u, d)
    ensures OnTime(ff, u, d, due)
  {
    hide Remaining, IsNeeded, AfterDependents;
    SameConfigsTrans(ss, tt, ff);
    forall i | 0 <= i < |ff| && IsAlive(ff[i].state)
      ensures if ff[i].state.Stopping? then due(ff[i].config.name) >= u + Remaining(ff[i], u, d)
              else IsNeeded(ff, i) && AfterDependents(ff, i, d, due)
    {
      assert Spends(ss[i], t, tt[i], u, d) && IsAlive(ss[i].state) && SameSettings(ss[i], ff[i]);
      if !ss[i].state.Stopping? {
        TimeToStop(ss, t, d, due, i);
        forall k | 0 <= k < |ss| && IsAlive(ff[k].state)
          ensures IsAlive(ss[k].state)
        {
          assert Spends(ss[k], t, tt[k], u, d);
        }
        StillAfter(ss, ff, i, d, due);
      }
    }
  }

  lemma SweptOnTime(ss: seq<Svc>, t: int, d: nat, due: Schedule)
    requires OnTime(ss, t, d, due)
    ensures OnTime(Kept(ss), t, d, due)
  {
    hide Remaining;
    var kept := Kept(ss);
    var at := KeptFrom(ss);
    forall a | 0 <= a < |kept| && IsAlive(kept[a].state)
      ensures if kept[a].state.Stopping? then due(kept[a].config.name) >= t + Remaining(kept[a], t, d)
              else IsNeeded(kept, a) && AfterDependents(kept, a, d, due)
    {
      var i := at[a];
      assert kept[a] == ss[i];
      if !ss[i].state.Stopping? {
        var k :| 0 <= k < |ss| && NeededBy(ss, i, k);
        assert ss[k] in kept;
        var b :| 0 <= b < |kept| && kept[b] == ss[k];
        assert NeededBy(kept, a, b);
        forall c | 0 <= c < |kept| && NeededBy(kept, a, c)
          ensures due(kept[a].config.name) >= due(kept[c].config.name) + kept[a].config.stopTimeout + 2 * d
        {
          assert NeededBy(ss, i, at[c]);
        }
      }
    }
  }

  // ----- the loops of the manager

  lemma StopFromLoop(m: Mgr, env: Env, now: Instant, d: nat)
    requires AllOk(m.services)
    ensures StopLoop(m.services, StopFrom(m, 0, env, now).services, now.steady, d)
  {
    hide Remaining, ServiceSpec.Stop;
    var r := StopFrom(m, 0, env, now).services;
    StopFromLife(m, env, now);
    forall i | 0 <= i < |m.services|
      ensures Remaining(r[i], now.steady, d) <= Remaining(m.services[i], now.steady, d)
      ensures m.services[i].state.Stopping? ==> r[i].state.Stopping?
      ensures IsAlive(r[i].state) && !r[i].state.Stopping? ==> IsNeeded(r, i)
    {
      StopFromAt(m, 0, env, now, i);
      StopSpends(m.services[i], m.log, CtxFor(m, i, env, now), d);
      if IsAlive(m.services[i].state) && !m.services[i].state.Stopping? {
        StopsExactlyTheFree(m, env, now, i);
        if !r[i].state.Stopping? {
          var k :| 0 <= k < |r| && m.services[i].config.name in r[k].config.dependsOn && IsAlive(r[k].state);
          assert SameSettings(m.services[i], r[i]);
          assert NeededBy(r, i, k);
        }
      }
    }
  }

  lemma ActStops(m: Mgr, i: nat, env: Env, now: Instant)
    requires AllOk(m.services) && m.shuttingDown && i < |m.services| && m.services[i].state.Stopping?
    ensures var r := Act(m, i, TickOp, env, now).mgr.services[i]; IsAlive(r.state) ==> r.state.Stopping?
  {
    hide ServiceSpec.Tick;
    StoppingTicks(m.services[i], m.log, CtxFor(m, i, env, now));
  }

  lemma {:induction false} TickServicesStop(m: Mgr, i: nat, env: Env, now: Instant, j: nat)
    requires AllOk(m.services) && m.shuttingDown && i <= j < |m.services| && m.services[j].state.Stopping?
    ensures var r := TickServices(m, i, env, now).services[j]; IsAlive(r.state) ==> r.state.Stopping?
    decreases |m.services| - i
  {
    hide Act;
    var next := Act(m, i, TickOp, env, now).mgr;
    if j == i {
      ActStops(m, i, env, now);
      TickServicesLeaves(next, i + 1, env, now, i);
    } else {
      TickServicesStop(next, i + 1, env, now, j);
    }
  }

  lemma FirstLoopTicks(m: Mgr, env: Env, now: Instant, t: int, d: nat, final: Log, from: nat)
    requires Inv(m) && m.shuttingDown && t <= now.steady <= t + d
    requires from <= |m.log| && PromptKills(final, from) && TickServices(m, 0, env, now).log <= final
    ensures FirstLoop(m.services, t, TickServices(m, 0, env, now).services, now.steady, d)
  {
    hide Spends, TickServices, PromptKills, Processes, LaunchesSafe, DroppedQuiet, UniqueNames;
    var ticked := TickServices(m, 0, env, now);
    forall j | 0 <= j < |m.services|
      ensures Spends(m.services[j], t, ticked.services[j], now.steady, d)
      ensures m.services[j].state.Stopping? && IsAlive(ticked.services[j].state) ==> ticked.services[j].state.Stopping?
    {
      TickServicesSpends(m, 0, env, now, t, d, final, from, j);
      if m.services[j].state.Stopping? {
        TickServicesStop(m, 0, env, now, j);
      }
    }
  }

  /** Every tick of a shutdown keeps the schedule. */
  lemma TickOnTime(m: Mgr, env: Env, now: Instant, t: int, d: nat, from: nat, due: Schedule)
    requires WellManaged(m) && m.shuttingDown && OnTime(m.services, t, d, due) && d > 0
    requires t <= now.steady <= t + d
    requires from <= |m.log| && PromptKills(ManagerSpec.Tick(m, env, now).log, from)
    ensures OnTime(ManagerSpec.Tick(m, env, now).services, now.steady, d, due)
  {
    hide OnTime, FirstLoop, StopLoop, TickServices, FollowUps, PromptKills;
    hide ActiveClosed, Processes, LaunchesSafe, DroppedQuiet, UniqueNames;
    var ticked := TickServices(m, 0, env, now);
    TickServicesLog(m, 0, env, now);
    var f := FollowUps(ticked, 0, env, now);
    FollowUpsReaches(ticked, 0, [], env, now);
    ReachesLaunchesNothing(ticked, f, [], env, now);
    FirstLoopTicks(m, env, now, t, d, f.log, from);
    FollowUpsStop(ticked, 0, env, now);
    StopFromLoop(ticked, env, now, d);
    LoopsOnTime(m.services, t, ticked.services, f.services, now.steady, d, due);
    SweptOnTime(f.services, now.steady, d, due);
  }

  /** So does every other call of a shutdown. */
  lemma NotWorseOnTime(ss: seq<Svc>, tt: seq<Svc>, t: int, d: nat, due: Schedule)
    requires OnTime(ss, t, d, due) && NotWorse(ss, tt, t, d) && SameConfigs(ss, tt) && d > 0
    ensures OnTime(tt, t, d, due)
  {
    hide Remaining;
    forall i | 0 <= i < |tt| && IsAlive(tt[i].state)
      ensures if tt[i].state.Stopping? then due(tt[i].config.name) >= t + Remaining(tt[i], t, d)
              else IsNeeded(tt, i) && AfterDependents(tt, i, d, due)
    {
      assert SameSettings(ss[i], tt[i]);
      if !ss[i].state.Stopping? {
        TimeToStop(ss, t, d, due, i);
        StillAfter(ss, tt, i, d, due);
        var k :| 0 <= k < |ss| && NeededBy(ss, i, k);
        SameNeeds(tt, ss, i, k);
      }
    }
  }

  lemma {:induction false} RunOnTime(m: Mgr, calls: seq<Call>, env: Env, last: int, d: nat, from: nat, due: Schedule)
    requires WellManaged(m) && m.shuttingDown && OnTime(m.services, last, d, due) && Paced(calls, last, d) && d > 0
    requires from <= |m.log| && PromptKills(Run(m, calls, env).log, from)
    ensures OnTime(Run(m, calls, env).services, LastTick(calls, last), d, due)
    decreases |calls|
  {
    hide ManagerSpec.Tick, OnTime, Execute, SampleFrom, KillAll, ActiveClosed, Processes, LaunchesSafe, DroppedQuiet;
    hide UniqueNames, NotWorse;
    if calls != [] {
      var op, now := calls[0].op, calls[0].now;
      var next := OpStep(m, op, env, now);
      OpKeepsManaged(m, op, env, now);
      OpReaches(m, op, env, now);
      ReachesLaunchesNothing(m, next, Wakes(op), env, now);
      var later := if op.Clock? then now.steady else last;
      PacedRunOk(next, calls[1..], env, later, d);
      ShutdownLaunchesNothing(next, calls[1..], env);
      if op.Clock? {
        PromptSoFar(next.log, Run(m, calls, env).log, from);
        TickOnTime(m, env, now, last, d, from, due);
      } else {
        OtherNotWorse(m, op, env, now, last, d);
        NotWorseOnTime(m.services, next.services, last, d, due);
      }
      RunOnTime(next, calls[1..], env, later, d, from, due);
    }
  }

  lemma BeginsOnTime(ss: seq<Svc>, tt: seq<Svc>, t: int, d: nat, due: Schedule)
    requires Fits(ss, t, d, due) && StopLoop(ss, tt, t, d)
    ensures OnTime(tt, t, d, due)
  {
    hide Remaining, IsNeeded;
    forall i | 0 <= i < |tt| && IsAlive(tt[i].state)
      ensures if tt[i].state.Stopping? then due(tt[i].config.name) >= t + Remaining(tt[i], t, d)
              else IsNeeded(tt, i) && AfterDependents(tt, i, d, due)
    {
      assert SameSettings(ss[i], tt[i]);
      if !tt[i].state.Stopping? {
        StillAfter(ss, tt, i, d, due);
      }
    }
  }

  /**
   With ticks at most d apart and killed processes found gone by the next poll, every service is down
   by the time it is due in any schedule that leaves each live service its own stop timeout, and twice
   d, after those that need it.
   */
  lemma EveryStopIsOnTime(m: Mgr, begin: Instant, calls: seq<Call>, env: Env, d: nat, due: Schedule, i: nat)
    requires WellManaged(m) && d > 0 && Paced(calls, begin.steady, d) && Fits(m.services, begin.steady, d, due)
    requires PromptKills(Run(StopAll(m, env, begin), calls, env).log, |StopAll(m, env, begin).log|)
    requires i < |Run(StopAll(m, env, begin), calls, env).services|
    requires var s := Run(StopAll(m, env, begin), calls, env).services[i];
             LastTick(calls, begin.steady) >= due(s.config.name)
    ensures !IsAlive(Run(StopAll(m, env, begin), calls, env).services[i].state)
  {
    hide Run, Fits, OnTime, StopLoop, PromptKills, Paced, Processes, LaunchesSafe, DroppedQuiet, UniqueNames;
    var stopped := StopAll(m, env, begin);
    OpKeepsManaged(m, Shutdown, env, begin);
    StopFromLoop(m.(shuttingDown := true), env, begin, d);
    BeginsOnTime(m.services, stopped.services, begin.steady, d, due);
    RunOnTime(stopped, calls, env, begin.steady, d, |stopped.log|, due);
    var r := Run(stopped, calls, env);
    if IsAlive(r.services[i].state) {
      NoneDueYet(r.services, LastTick(calls, begin.steady), d, due, i);
    }
  }

  // ----- the earliest schedule

  /** What a live service may take from now on. */
  type Share = Svc -> nat

  /** Dependencies have smaller ranks than what depends on them, all below `top`. */
  predicate RankedBelow(ss: seq<Svc>, rank: map<string, nat>, top: nat) {
    && (forall i :: 0 <= i < |ss| ==> ss[i].config.name in rank && rank[ss[i].config.name] < top)
    && (forall i, k :: 0 <= i < |ss| && 0 <= k < |ss| && ss[i].config.name in ss[k].config.dependsOn ==>
          rank[ss[i].config.name] < rank[ss[k].config.name])
  }

  /** The greatest sum of shares along a chain: service i, a live one that needs it, one that needs that, and so on. */
  function LongestChain(ss: seq<Svc>, share: Share, rank: map<string, nat>, top: nat, i: nat): nat
    requires RankedBelow(ss, rank, top) && i < |ss|
    decreases top - rank[ss[i].config.name], |ss| + 1
  {
    share(ss[i]) + if ss[i].state.Stopping? then 0 else LongestBefore(ss, share, rank, top, i, |ss|)
  }

  /** The longest chain that begins with one of the first n services and a live one that needs service i. */
  function LongestBefore(ss: seq<Svc>, share: Share, rank: map<string, nat>, top: nat, i: nat, n: nat): nat
    requires RankedBelow(ss, rank, top) && i < |ss| && n <= |ss|
    decreases top - rank[ss[i].config.name], n
  {
    if n == 0 then 0
    else
      var before := LongestBefore(ss, share, rank, top, i, n - 1);
      if NeededBy(ss, i, n - 1) then Greatest(before, LongestChain(ss, share, rank, top, n - 1)) else before
  }

  lemma {:induction false} LongestCovers(ss: seq<Svc>, share: Share, rank: map<string, nat>, top: nat, i: nat, n: nat,
                                         k: nat)
    requires RankedBelow(ss, rank, top) && i < |ss| && k < n <= |ss| && NeededBy(ss, i, k)
    ensures LongestChain(ss, share, rank, top, k) <= LongestBefore(ss, share, rank, top, i, n)
    decreases n
  {
    hide LongestChain;
    if k < n - 1 {
      LongestCovers(ss, share, rank, top, i, n - 1, k);
    }
  }

  /** The schedule by the longest chains, from t on. */
  function ByChains(ss: seq<Svc>, share: Share, rank: map<string, nat>, top: nat, t: int): Schedule
    requires RankedBelow(ss, rank, top)
  {
    name =>
      var i := FindIndex(ss, name);
      if i < |ss| && IsAlive(ss[i].state) then t + LongestChain(ss, share, rank, top, i) else t
  }

  /** Every live service's share is at least what it may take, counted from t. */
  predicate Covers(ss: seq<Svc>, share: Share, t: int, d: nat) {
    forall i :: 0 <= i < |ss| && IsAlive(ss[i].state) ==> share(ss[i]) >= Remaining(ss[i], t, d)
  }

  lemma FoundAt(ss: seq<Svc>, i: nat)
    requires UniqueNames(ss) && i < |ss|
    ensures FindIndex(ss, ss[i].config.name) == i
  {}

  lemma ChainsFit(ss: seq<Svc>, share: Share, rank: map<string, nat>, top: nat, t: int, d: nat)
    requires RankedBelow(ss, rank, top) && UniqueNames(ss) && Covers(ss, share, t, d)
    ensures Fits(ss, t, d, ByChains(ss, share, rank, top, t))
  {
    hide LongestBefore;
    var due := ByChains(ss, share, rank, top, t);
    forall i | 0 <= i < |ss| && IsAlive(ss[i].state)
      ensures due(ss[i].config.name) >= t + Remaining(ss[i], t, d)
      ensures !ss[i].state.Stopping? ==> AfterDependents(ss, i, d, due)
    {
      FoundAt(ss, i);
      forall k | 0 <= k < |ss| && NeededBy(ss, i, k) && !ss[i].state.Stopping?
        ensures due(ss[i].config.name) >= due(ss[k].config.name) + ss[i].config.stopTimeout + 2 * d
      {
        FoundAt(ss, k);
        LongestCovers(ss, share, rank, top, i, |ss|, k);
      }
    }
  }

  /** Every live service begins a chain of at most this length. */
  predicate ChainsWithin(ss: seq<Svc>, share: Share, rank: map<string, nat>, top: nat, length: int)
    requires RankedBelow(ss, rank, top)
  {
    forall i :: 0 <= i < |ss| && IsAlive(ss[i].state) ==> LongestChain(ss, share, rank, top, i) <= length
  }

  /**
   The sharp form of the deadline: services that do not need each other stop side by side, so the ticks
   need to cover only the greatest sum of remaining times along a chain of live services in which each
   needs the one before.
   */
  lemma ShutdownTakesLongestChain(m: Mgr, begin: Instant, calls: seq<Call>, env: Env, share: Share,
                                  rank: map<string, nat>, top: nat, d: nat)
    requires WellManaged(m) && d > 0 && Paced(calls, begin.steady, d)
    requires PromptKills(Run(StopAll(m, env, begin), calls, env).log, |StopAll(m, env, begin).log|)
    requires RankedBelow(m.services, rank, top) && Covers(m.services, share, begin.steady, d)
    requires ChainsWithin(m.services, share, rank, top, LastTick(calls, begin.steady) - begin.steady)
    ensures AllStopped(Run(StopAll(m, env, begin), calls, env))
  {
    hide Run, StopAll, Paced, LastTick, PromptKills, Covers, RankedBelow, LongestChain, Processes, LaunchesSafe;
    hide DroppedQuiet, UniqueNames, ActiveClosed, ByChains, ChainsWithin, Fits;
    var due := ByChains(m.services, share, rank, top, begin.steady);
    ChainsFit(m.services, share, rank, top, begin.steady, d);
    TicksGoOn(calls, begin.steady, d);
    var r := Run(StopAll(m, env, begin), calls, env);
    forall i | 0 <= i < |r.services|
      ensures !IsAlive(r.services[i].state)
    {
      DueWithin(m.services, share, rank, top, begin.steady, LastTick(calls, begin.steady), r.services[i].config.name);
      EveryStopIsOnTime(m, begin, calls, env, d, due, i);
    }
  }

  lemma DueWithin(ss: seq<Svc>, share: Share, rank: map<string, nat>, top: nat, t: int, end: int, name: string)
    requires RankedBelow(ss, rank, top) && ChainsWithin(ss, share, rank, top, end - t) && t <= end
    ensures ByChains(ss, share, rank, top, t)(name) <= end
  {
    hide LongestChain;
  }

  lemma {:induction false} TicksGoOn(calls: seq<Call>, last: int, d: nat)
    requires Paced(calls, last, d)
    ensures LastTick(calls, last) >= last
    decreases |calls|
  {
    if calls != [] {
      TicksGoOn(calls[1..], if calls[0].op.Clock? then calls[0].now.steady else last, d);
    }
  }

  // ----- it is never worse than the sum over all

  /** The shares of the live services whose rank is at least `low`. */
  function SharesFrom(ss: seq<Svc>, share: Share, rank: map<string, nat>, low: nat): nat
    requires forall i :: 0 <= i < |ss| ==> ss[i].config.name in rank
  {
    if ss == [] then 0
    else
      var last := ss[|ss| - 1];
      SharesFrom(ss[..|ss| - 1], share, rank, low)
        + if IsAlive(last.state) && rank[last.config.name] >= low then share(last) else 0
  }

  lemma {:induction false} SharesAbove(ss: seq<Svc>, share: Share, rank: map<string, nat>, i: nat, low: nat)
    requires forall j :: 0 <= j < |ss| ==> ss[j].config.name in rank
    requires i < |ss| && IsAlive(ss[i].state) && low > rank[ss[i].config.name]
    ensures share(ss[i]) + SharesFrom(ss, share, rank, low) <= SharesFrom(ss, share, rank, rank[ss[i].config.name])
    decreases |ss|
  {
    var rest := ss[..|ss| - 1];
    if i < |rest| {
      SharesAbove(rest, share, rank, i, low);
    } else {
      SharesFall(rest, share, rank, rank[ss[i].config.name], low);
    }
  }

  lemma {:induction false} SharesFall(ss: seq<Svc>, share: Share, rank: map<string, nat>, low: nat, higher: nat)
    requires low <= higher && forall j :: 0 <= j < |ss| ==> ss[j].config.name in rank
    ensures SharesFrom(ss, share, rank, higher) <= SharesFrom(ss, share, rank, low)
    decreases |ss|
  {
    if ss != [] {
      SharesFall(ss[..|ss| - 1], share, rank, low, higher);
    }
  }

  /** The members of a chain have different ranks, so its sum is part of the whole. */
  lemma {:induction false} ChainWithinShares(ss: seq<Svc>, share: Share, rank: map<string, nat>, top: nat, i: nat)
    requires RankedBelow(ss, rank, top) && i < |ss| && IsAlive(ss[i].state)
    ensures LongestChain(ss, share, rank, top, i) <= SharesFrom(ss, share, rank, rank[ss[i].config.name])
    decreases top - rank[ss[i].config.name], |ss| + 1
  {
    hide SharesFrom, LongestBefore;
    var low := rank[ss[i].config.name];
    BeforeWithinShares(ss, share, rank, top, i, |ss|);
    SharesAbove(ss, share, rank, i, low + 1);
  }

  lemma {:induction false} BeforeWithinShares(ss: seq<Svc>, share: Share, rank: map<string, nat>, top: nat, i: nat,
                                              n: nat)
    requires RankedBelow(ss, rank, top) && i < |ss| && n <= |ss|
    ensures LongestBefore(ss, share, rank, top, i, n) <= SharesFrom(ss, share, rank, rank[ss[i].config.name] + 1)
    decreases top - rank[ss[i].config.name], n
  {
    hide SharesFrom, LongestChain;
    if n > 0 {
      BeforeWithinShares(ss, share, rank, top, i, n - 1);
      if NeededBy(ss, i, n - 1) {
        ChainWithinShares(ss, share, rank, top, n - 1);
        SharesFall(ss, share, rank, rank[ss[i].config.name] + 1, rank[ss[n - 1].config.name]);
      }
    }
  }

  lemma {:induction false} SharesAreTotal(ss: seq<Svc>, t: int, d: nat, rank: map<string, nat>)
    requires forall i :: 0 <= i < |ss| ==> ss[i].config.name in rank
    ensures SharesFrom(ss, s => Remaining(s, t, d), rank, 0) == Total(ss, t, d)
    decreases |ss|
  {
    hide Remaining;
    if ss != [] {
      SharesAreTotal(ss[..|ss| - 1], t, d, rank);
      NothingLeft(ss[|ss| - 1], t, d);
    }
  }

  lemma NothingLeft(s: Svc, t: int, d: nat)
    ensures !IsAlive(s.state) ==> Remaining(s, t, d) == 0
  {}

  /** Every chain is within the time left to all services together. */
  lemma ChainWithinTotal(ss: seq<Svc>, t: int, d: nat, rank: map<string, nat>, top: nat, i: nat)
    requires RankedBelow(ss, rank, top) && i < |ss| && IsAlive(ss[i].state)
    ensures LongestChain(ss, s => Remaining(s, t, d), rank, top, i) <= Total(ss, t, d)
  {
    hide LongestChain, SharesFrom;
    ChainWithinShares(ss, s => Remaining(s, t, d), rank, top, i);
    SharesFall(ss, s => Remaining(s, t, d), rank, 0, rank[ss[i].config.name]);
    SharesAreTotal(ss, t, d, rank);
  }

  /** A manager's services can always be ranked. */
  lemma CanBeRanked(m: Mgr) returns (rank: map<string, nat>, top: nat)
    requires WellManaged(m)
    ensures RankedBelow(m.services, rank, top)
  {
    hide Processes, LaunchesSafe, DroppedQuiet, ActiveClosed;
    var g := HeldGraph(m.services);
    rank := AcyclicHasRank(g);
    top := |NodeNames(g)|;
    forall i | 0 <= i < |m.services|
      ensures m.services[i].config.name in rank && rank[m.services[i].config.name] < top
    {
      assert g[i].name == m.services[i].config.name;
      assert m.services[i].config.name in NodeNames(g);
    }
    forall i, k | 0 <= i < |m.services| && 0 <= k < |m.services| &&
      m.services[i].config.name in m.services[k].config.dependsOn
      ensures rank[m.services[i].config.name] < rank[m.services[k].config.name]
    {
      HeldEdgeIs(m.services, k, i);
    }
  }
}
