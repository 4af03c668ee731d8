/** What the calls that go over all services do to each of them. */
module EveryService {
  import opened Launching
  import opened ServiceSpec
  import opened ManagerSpec
  import opened MicroSteps
  import opened ShutdownOrder
  import opened Supervision
  import opened Execution

  // ----- stopping everything

  predicate IsNeededLive(ss: seq<Svc>, name: string) {
    exists i :: 0 <= i < |ss| && IsAlive(ss[i].state) && name in ss[i].config.dependsOn
  }

  /**
   Service s as a shutdown leaves it among these: when a live one needs it, it is left alone, as it is when it
   is stopping or stopped; otherwise it is stopped, which for one without a process means that it neither
   waits nor is retried any more.
   */
  predicate WasSettled(ss: seq<Svc>, s: Svc, x: Svc) {
    if s.state.Stopping? || s.state.Stopped? || IsNeededLive(ss, s.config.name) then x == s else WasStopped(s, x)
  }

  lemma StopFromSettles(m: Mgr, env: Env, now: Instant, j: nat)
    requires AllOk(m.services) && j < |m.services|
    ensures WasSettled(m.services, m.services[j], StopFrom(m, 0, env, now).services[j])
  {
    hide ServiceSpec.Stop;
    StopFromAt(m, 0, env, now, j);
    StopGoes(m.services[j], m.log, CtxFor(m, j, env, now));
    NeededIsNotFree(m.services, m.services[j].config.name);
  }

  /** What a shutdown makes of every service when it begins. */
  lemma ShutdownSettles(m: Mgr, env: Env, now: Instant, j: nat)
    requires AllOk(m.services) && j < |m.services|
    ensures var r := StopAll(m, env, now);
            r.shuttingDown && WasSettled(m.services, m.services[j], r.services[j])
  {
    hide WasSettled, StopFrom;
    StopFromSettles(m.(shuttingDown := true), env, now, j);
  }

  /** What each of its ticks makes of every service, once all of them have been ticked on their own. */
  lemma ShutdownTickSettles(m: Mgr, env: Env, now: Instant, j: nat)
    requires AllOk(m.services) && m.shuttingDown && j < |m.services|
    ensures var ticked, after := TickServices(m, 0, env, now), BeforeSweep(m, env, now).services;
            && WasSettled(ticked.services, ticked.services[j], after[j])
            && ManagerSpec.Tick(m, env, now).services == Kept(after)
  {
    hide WasSettled, StopFrom, TickServices;
    var ticked := TickServices(m, 0, env, now);
    FollowUpsStop(ticked, 0, env, now);
    StopFromSettles(ticked, env, now, j);
  }

  lemma NeededIsNotFree(ss: seq<Svc>, name: string)
    ensures DependentsStopped(ss, name) <==> !IsNeededLive(ss, name)
  {}

  // ----- killing everything

  predicate KilledSince(log: Log, newLog: Log, id: nat) {
    exists k :: |log| <= k < |newLog| && newLog[k] == Killed(id)
  }

  /**
   A process that was live has been sent a kill and is stopping; without one the service is stopped.
   Nothing stays queued.
   */
  predicate WasKilled(s: Svc, x: Svc, log: Log, newLog: Log) {
    && x.config == s.config && x.child == s.child && Quiet(x)
    && (x.state.Stopping? <==> s.child.Some?)
    && (s.child.Some? ==> x.killSent && KilledSince(log, newLog, s.child.value.id))
  }

  lemma KillGoes(s: Svc, log: Log, now: Instant)
    ensures var r := KillNow(s, log, now);
            log <= r.log && WasKilled(s, r.svc, log, r.log)
  {
    var r := KillNow(s, log, now);
    if s.child.Some? {
      assert r.log[|log|] == Killed(s.child.value.id);
    }
  }

  lemma KillOneKills(m: Mgr, i: nat, env: Env, now: Instant)
    requires AllOk(m.services) && i < |m.services|
    ensures var r := Act(m, i, KillOp, env, now).mgr;
            m.log <= r.log && WasKilled(m.services[i], r.services[i], m.log, r.log)
  {
    hide KillNow, WasKilled;
    KillGoes(m.services[i], m.log, now);
  }

  lemma {:induction false} KillFromKills(m: Mgr, i: nat, env: Env, now: Instant, j: nat)
    requires AllOk(m.services) && i <= |m.services| && j < |m.services|
    ensures var r := KillFrom(m, i, env, now);
            && m.log <= r.log
            && if j < i then r.services[j] == m.services[j]
               else WasKilled(m.services[j], r.services[j], m.log, r.log)
    decreases |m.services| - i
  {
    hide Act, WasKilled;
    if i < |m.services| {
      var next := Act(m, i, KillOp, env, now).mgr;
      KillOneKills(m, i, env, now);
      KillFromKills(next, i + 1, env, now, j);
      KilledLonger(m.services[j], KillFrom(next, i + 1, env, now).services[j], m.log, next.log,
                   KillFrom(next, i + 1, env, now).log);
    }
  }

  lemma KilledLonger(s: Svc, x: Svc, a: Log, b: Log, c: Log)
    requires a <= b && b <= c
    ensures WasKilled(s, x, a, b) || WasKilled(s, x, b, c) ==> WasKilled(s, x, a, c)
  {
    if s.child.Some? {
      var id := s.child.value.id;
      if KilledSince(a, b, id) {
        var k :| |a| <= k < |b| && b[k] == Killed(id);
        assert c[k] == Killed(id);
      }
    }
  }

  /** Killing everything sends a kill to every live process, and nothing starts again. */
  lemma KillAllKillsEach(m: Mgr, env: Env, now: Instant, j: nat)
    requires AllOk(m.services) && j < |m.services|
    ensures var r := KillAll(m, env, now);
            r.shuttingDown && WasKilled(m.services[j], r.services[j], m.log, r.log)
  {
    hide WasKilled, KillFrom;
    KillFromKills(m.(shuttingDown := true), 0, env, now, j);
  }

  // ----- measuring everything

  /** The service shows this reading exactly if it has a process; nothing else about it changed. */
  predicate WasMeasured(s: Svc, x: Svc, readings: nat -> UsageSample) {
    x == s.(report := s.report.(usageValid := s.child.Some?,
                                usage := if s.child.Some? then readings(s.child.value.id) else NO_USAGE))
  }

  lemma SampleOneMeasures(m: Mgr, i: nat, readings: nat -> UsageSample, env: Env, now: Instant)
    requires AllOk(m.services) && i < |m.services|
    ensures var r := SampleNext(m, i, readings, env, now);
            && r.log == m.log && WasMeasured(m.services[i], r.services[i], readings)
            && forall j :: 0 <= j < |m.services| && j != i ==> r.services[j] == m.services[j]
  {}

  lemma {:induction false} SampleReachesEach(m: Mgr, i: nat, readings: nat -> UsageSample, env: Env, now: Instant,
                                             j: nat)
    requires AllOk(m.services) && i <= |m.services| && j < |m.services|
    ensures var r := SampleFrom(m, i, readings, env, now);
            && r.log == m.log
            && if j < i then r.services[j] == m.services[j] else WasMeasured(m.services[j], r.services[j], readings)
    decreases |m.services| - i
  {
    hide SampleNext, WasMeasured;
    if i < |m.services| {
      SampleOneMeasures(m, i, readings, env, now);
      SampleReachesEach(SampleNext(m, i, readings, env, now), i + 1, readings, env, now, j);
    }
  }
}
