/** When lost heartbeats make a service unhealthy, and what a tick does about it. */
module Heartbeats {
  import opened ServiceConfigs
  import opened Launching
  import opened ServiceSpec

  predicate IsUp(s: Svc) {
    s.state.Starting? || s.state.Running? || s.state.Unhealthy?
  }

  /** The number of whole intervals without a beat, as a 32-bit int holds it, reaches what may be missed. */
  predicate Overdue(config: ServiceConfig, silent: int)
    requires HeartbeatEnabled(config)
  {
    ToInt32(Quotient(silent, config.heartbeatInterval)) >= config.heartbeatTolerance
  }

  /** The count wraps: exactly these silences are noticed. */
  lemma OverdueExactly(config: ServiceConfig, silent: int)
    requires HeartbeatEnabled(config)
    ensures Overdue(config, silent) <==>
            config.heartbeatTolerance <= Quotient(silent, config.heartbeatInterval) % 0x1_0000_0000 < 0x8000_0000
  {
    var q := Quotient(silent, config.heartbeatInterval);
    var low := q % 0x1_0000_0000;
    assert ToInt32(q) == if low < 0x8000_0000 then low else low - 0x1_0000_0000;
  }

  lemma WholeIntervals(silent: nat, interval: nat, most: nat)
    requires interval > 0
    ensures silent / interval < most <==> silent < most * interval
  {
    var q, rest := silent / interval, silent % interval;
    assert silent == q * interval + rest;
    if q < most {
      assert (q + 1) * interval <= most * interval;
      assert (q + 1) * interval == q * interval + interval;
    } else {
      assert most * interval <= q * interval;
    }
  }

  /** Up to 2^31 intervals that means: as many whole intervals have passed as may be missed. */
  lemma OverdueInRange(config: ServiceConfig, silent: nat)
    requires HeartbeatEnabled(config) && silent < 0x8000_0000 * config.heartbeatInterval
    ensures Overdue(config, silent) <==> silent >= config.heartbeatTolerance * config.heartbeatInterval
  {
    OverdueExactly(config, silent);
    WholeIntervals(silent, config.heartbeatInterval, 0x8000_0000);
    WholeIntervals(silent, config.heartbeatInterval, config.heartbeatTolerance);
  }

  /** Beyond that an endless silence can go unnoticed for as long again. */
  lemma LongSilenceIsMissed(config: ServiceConfig)
    requires HeartbeatEnabled(config) && config.heartbeatTolerance > 0
    ensures !Overdue(config, 0x8000_0000 * config.heartbeatInterval)
  {
    var interval := config.heartbeatInterval;
    WholeIntervals(0x8000_0000 * interval, interval, 0x8000_0000);
    WholeIntervals(0x8000_0000 * interval, interval, 0x8000_0001);
    assert 0x8000_0001 * interval == 0x8000_0000 * interval + interval;
    OverdueExactly(config, 0x8000_0000 * interval);
  }

  /**
   The verdict of a tick on a service that sends heartbeats and whose process is there: one that
   is up and not yet unhealthy becomes unhealthy exactly when it is overdue, and is then stopped
   for a restart if it is set up so.
   */
  lemma HeartbeatVerdict(s: Svc, log: Log, ctx: Ctx)
    requires SvcInv(s) && IsUp(s) && !s.state.Unhealthy? && HeartbeatEnabled(s.config)
    requires ctx.env(|log|).exit.None?
    ensures var r := Tick(s, log, ctx);
            var polled := log + [Polled(s.child.value.id)];
            && r.svc.child == s.child && r.svc.config == s.config
            && if !Overdue(s.config, ctx.now.steady - s.timers.lastBeat) then
                 r.svc.state == s.state && r.log == polled && r.svc.timers == s.timers
               else if s.config.unhealthyAction.LeaveAlone? then
                 r.svc.state.Unhealthy? && r.log == polled && r.svc.timers == s.timers
               else
                 var deadline, kill := ctx.now.steady + s.config.stopTimeout, s.config.stopSignal.Kill?;
                 && r.svc.state.Stopping? && r.svc.restartAfterStop && !r.svc.pendingStart
                 && r.log == polled + [StopRequested(s.child.value.id, deadline, kill, ctx.dependents, true)]
  {
    hide ToInt32, Quotient;
  }

  lemma CountInRange(silent: nat, interval: nat)
    requires interval > 0 && silent < 0x8000_0000 * interval
    ensures var n := ToInt32(Quotient(silent, interval)); n * interval <= silent < n * interval + interval
  {
    WholeIntervals(silent, interval, 0x8000_0000);
    assert silent == (silent / interval) * interval + silent % interval;
  }

  /**
   What a tick shows of a service that sends heartbeats, is up and whose process is there: how many whole
   intervals have passed since the last beat. One that is unhealthy already is not asked to stop any
   more, nor is it any better for the tick.
   */
  lemma TickCountsBeats(s: Svc, log: Log, ctx: Ctx)
    requires SvcInv(s) && IsUp(s) && HeartbeatEnabled(s.config) && ctx.env(|log|).exit.None?
    ensures var r := Tick(s, log, ctx);
            var n, interval := r.svc.report.missedBeats, s.config.heartbeatInterval;
            var silent := ctx.now.steady - s.timers.lastBeat;
            && r.svc.history == s.history && r.svc.report == s.report.(missedBeats := n)
            && (0 <= silent < 0x8000_0000 * interval ==> n * interval <= silent < n * interval + interval)
            && (s.state.Unhealthy? ==> r == Outcome(s.(report := r.svc.report), log + [Polled(s.child.value.id)], Ok))
  {
    hide ToInt32, Quotient;
    var silent := ctx.now.steady - s.timers.lastBeat;
    if 0 <= silent < 0x8000_0000 * s.config.heartbeatInterval {
      CountInRange(silent, s.config.heartbeatInterval);
    }
  }

  /**
   What it shows of one that sends none: the process has been seen now, and the service runs, with nothing
   missed any more, unless it is still within its grace time.
   */
  lemma TickSeesProcess(s: Svc, log: Log, ctx: Ctx)
    requires SvcInv(s) && IsUp(s) && !HeartbeatEnabled(s.config) && ctx.env(|log|).exit.None?
    ensures var r := Tick(s, log, ctx);
            && r.log == log + [Polled(s.child.value.id)] && r.svc.report.lastSeen == ctx.now.wallNs
            && r.svc == s.(state := r.svc.state, report := r.svc.report)
            && r.svc.report == s.report.(lastSeen := ctx.now.wallNs, missedBeats := r.svc.report.missedBeats)
            && r.svc.report.missedBeats == (if s.state.Starting? then s.report.missedBeats else 0)
            && r.svc.state == if s.state.Starting? && ctx.now.steady < s.timers.launchedAt + s.config.startGrace
                              then Starting else Running
  {}

  // ----- stops that only silence explains

  /** The process is there, the service is up, and it is to be restarted because its heartbeats are lost. */
  predicate LostToSilence(s: Svc, log: Log, ctx: Ctx) {
    && IsUp(s) && !s.state.Unhealthy? && ctx.env(|log|).exit.None?
    && HeartbeatEnabled(s.config) && Overdue(s.config, ctx.now.steady - s.timers.lastBeat)
    && s.config.unhealthyAction.RestartIt?
  }

  /** During a shutdown a tick makes a service stopping exactly when its heartbeats are lost. */
  lemma TickStopsExactlyTheSilent(s: Svc, log: Log, ctx: Ctx)
    requires SvcInv(s) && !s.state.Stopping? && !ctx.launchAllowed
    ensures Tick(s, log, ctx).svc.state.Stopping? <==> LostToSilence(s, log, ctx)
  {
    hide ScheduleRestart, ToInt32, Quotient;
    if s.child.Some? && ctx.env(|log|).exit.Some? {
      assert !PollChild(s, log, ctx).svc.child.Some?;
    }
  }

  predicate RestartsOnSilence(config: ServiceConfig) {
    HeartbeatEnabled(config) && config.unhealthyAction.RestartIt?
  }

  /** Stops are asked for only because heartbeats are lost, and not at all unless that `may` happen. */
  predicate SilentStopsOnly(log: Log, newLog: Log, may: bool) {
    log <= newLog && forall k :: |log| <= k < |newLog| && newLog[k].StopRequested? ==> newLog[k].silence && may
  }

  lemma RelaunchAsksNothing(s: Svc, log: Log, ctx: Ctx)
    ensures SilentStopsOnly(log, Relaunch(s, log, ctx).log, false)
  {}

  lemma PollAsksNothing(s: Svc, log: Log, ctx: Ctx, may: bool)
    ensures SilentStopsOnly(log, PollChild(s, log, ctx).log, may)
  {
    hide Relaunch, ScheduleRestart;
    if s.child.Some? && ctx.env(|log|).exit.Some? {
      var gone := AtRest(WithoutProcess(s, ctx.env(|log|).exit.value, ctx.now));
      var exited := log + [Exited(s.child.value.id)];
      RelaunchAsksNothing(gone, exited, ctx);
      RelaunchAsksNothing(CountRestart(gone), exited, ctx);
    }
  }

  lemma AdvanceAsksForSilence(s: Svc, log: Log, ctx: Ctx)
    requires SvcInv(s)
    ensures SilentStopsOnly(log, Advance(s, log, ctx).log, RestartsOnSilence(s.config))
  {
    hide Relaunch, ToInt32, Quotient;
    RelaunchAsksNothing(CountRestart(s), log, ctx);
  }

  lemma TickAsksForSilence(s: Svc, log: Log, ctx: Ctx)
    requires SvcInv(s)
    ensures SilentStopsOnly(log, Tick(s, log, ctx).log, RestartsOnSilence(s.config))
  {
    hide PollChild, Advance, RestartsOnSilence;
    var polled := PollChild(s, log, ctx);
    PollAsksNothing(s, log, ctx, RestartsOnSilence(s.config));
    AdvanceAsksForSilence(polled.svc, polled.log, ctx);
    var r := Tick(s, log, ctx);
    forall k | |log| <= k < |r.log| && r.log[k].StopRequested?
      ensures r.log[k].silence && RestartsOnSilence(s.config)
    {
      if k < |polled.log| {
        assert r.log[k] == polled.log[k];
      }
    }
  }
}
