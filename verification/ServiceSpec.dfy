/**
 What one call on a service does, as a function: it takes the service's fields and the
 launcher's log and gives both back. The class in Service.dfy assigns fields the way the
 program does and is proved equal to these functions; the run properties are proved here.
 */
module ServiceSpec {
  import opened Wrappers
  import opened ServiceConfigs
  import opened Launching

  datatype ServiceState = Stopped | Waiting | Starting | Running | Unhealthy | Stopping | Backoff | Failed

  datatype CommandResult =
    | Ok
    | UnknownService
    | UnknownCommand
    | Malformed
    | AlreadyInState
    | InvalidState
    | LaunchFailed
    | ShuttingDown
    | ReloadFailed

  datatype UsageSample = UsageSample(
    cpuTimeUsec: nat, memoryBytes: nat, memoryPeakBytes: nat, ioReadBytes: nat, ioWriteBytes: nat,
    oomKills: nat, processCount: int, threadCount: int, openFiles: int, cgroup: bool)

  const NO_USAGE := UsageSample(0, 0, 0, 0, 0, 0, 0, 0, -1, false)

  // Milliseconds a killed process may take to disappear before it is reported as stuck.
  const KILL_GRACE: nat := 5000

  /** The states in which a process is held. */
  predicate IsAlive(state: ServiceState) {
    state.Starting? || state.Running? || state.Unhealthy? || state.Stopping?
  }

  /** The moments a service compares the steady clock with. */
  datatype Timers = Timers(launchedAt: int, lastBeat: int, stopDeadline: int, killDeadline: int, restartAt: int)

  /**
   When restarts were scheduled: `recent` is the program's own list, from which entries older
   than the window are dropped; `all` keeps every entry since the list was last cleared.
   */
  datatype History = History(recent: seq<int>, all: seq<int>)

  const NO_HISTORY := History([], [])

  /** The fields that only feed the reports. */
  datatype Report = Report(
    restartCount: nat, missedBeats: int, startTime: int, lastSeen: int, lastExitTime: int,
    nextRestartTime: int, lastExitCode: int, usageValid: bool, usage: UsageSample)

  /** The fields of a service. */
  datatype Svc = Svc(
    config: ServiceConfig,
    child: Option<Child>,
    state: ServiceState,
    pendingStart: bool,
    pendingStartIsRestart: bool,
    restartAfterStop: bool,
    killSent: bool,
    stuckReported: bool,
    removing: bool,
    timers: Timers,
    history: History,
    report: Report)

  function NewService(config: ServiceConfig): Svc {
    Svc(config, None, Stopped, false, false, false, false, false, false,
        Timers(0, 0, 0, 0, 0), NO_HISTORY, Report(0, 0, 0, 0, 0, 0, 0, false, NO_USAGE))
  }

  /** What a call gets from its caller: the time, what the manager allows, and the launcher's answers. */
  datatype Ctx = Ctx(
    env: Env, now: Instant, launchAllowed: bool, dependenciesReady: bool, running: set<string>, dependents: set<string>)

  datatype Outcome = Outcome(svc: Svc, log: Log, result: CommandResult)

  /**
   The service invariant: a process is held exactly in the live states; a queued start and a
   restart after the stop exist only while stopping, and never together; usage figures exist
   only for a process.
   */
  predicate SvcInv(s: Svc) {
    && (IsAlive(s.state) <==> s.child.Some?)
    && (s.pendingStart || s.restartAfterStop ==> s.state.Stopping?)
    && !(s.pendingStart && s.restartAfterStop)
    && (s.report.usageValid ==> s.child.Some?)
  }

  /** No process, nothing queued, no figures: what a launch starts from. */
  predicate Idle(s: Svc) {
    s.child.None? && !s.pendingStart && !s.restartAfterStop && !s.report.usageValid
  }

  predicate SameSettings(s: Svc, t: Svc) {
    t.config == s.config && t.removing == s.removing
  }

  predicate HeartbeatEnabled(config: ServiceConfig) {
    config.heartbeatInterval > 0
  }

  /** A delay doubled n times. */
  function Doubled(delay: nat, n: nat): nat {
    if n == 0 then delay else 2 * Doubled(delay, n - 1)
  }

  lemma DoubledGrows(delay: nat, m: nat, n: nat)
    requires m <= n
    ensures Doubled(delay, m) <= Doubled(delay, n)
  {}

  /** The delay after n restarts within the window: doubled n times, up to the maximum. */
  function BackoffDelay(config: ServiceConfig, n: nat): nat {
    var doubled := Doubled(config.restartDelay, n);
    if doubled < config.restartDelayMax then doubled else config.restartDelayMax
  }

  /** The restarts that are still inside the window. */
  function Prune(history: seq<int>, now: int, window: int): seq<int> {
    if history != [] && now - history[0] > window then Prune(history[1..], now, window) else history
  }

  /** t is s put to rest: not alive, and nothing else about its process or its queue changed. */
  predicate Rested(s: Svc, t: Svc) {
    && (t.state.Stopped? || t.state.Backoff? || t.state.Failed?)
    && t.config == s.config && t.child == s.child && t.removing == s.removing
    && t.pendingStart == s.pendingStart && t.restartAfterStop == s.restartAfterStop
    && t.report.usageValid == s.report.usageValid
  }

  function ScheduleRestart(s: Svc, now: Instant): (t: Svc)
    ensures Rested(s, t)
  {
    var recent := Prune(s.history.recent, now.steady, s.config.restartWindow * 1000);
    if s.config.maxRestarts > 0 && |recent| >= s.config.maxRestarts then
      s.(history := s.history.(recent := recent), state := Failed)
    else
      var delay := BackoffDelay(s.config, |recent|);
      s.(history := History(recent + [now.steady], s.history.all + [now.steady]),
         timers := s.timers.(restartAt := now.steady + delay),
         report := s.report.(nextRestartTime := now.wallNs + delay * 1_000_000),
         state := Backoff)
  }

  function ApplyRestartPolicy(s: Svc, now: Instant, cleanExit: bool): (t: Svc)
    ensures Rested(s, t)
  {
    if s.config.restart.Always? || (s.config.restart.OnFailure? && !cleanExit) then
      ScheduleRestart(s, now)
    else
      s.(state := if cleanExit then Stopped else Failed)
  }

  function Launch(s: Svc, log: Log, ctx: Ctx): (r: Outcome)
    ensures SameSettings(s, r.svc)
    ensures Idle(s) ==> SvcInv(r.svc)
  {
    match ctx.env(|log|).pid
    case None =>
      var refused := s.(report := s.report.(lastExitCode := 127, lastExitTime := ctx.now.wallNs));
      Outcome(ApplyRestartPolicy(refused, ctx.now, false), log + [LaunchRefused(s.config.name)], LaunchFailed)
    case Some(pid) =>
      Outcome(
        s.(child := Some(Child(|log|, pid)), state := Starting, killSent := false, stuckReported := false,
           timers := s.timers.(launchedAt := ctx.now.steady, lastBeat := ctx.now.steady),
           report := s.report.(startTime := ctx.now.wallNs, lastSeen := ctx.now.wallNs, missedBeats := 0,
                               nextRestartTime := 0, usageValid := false)),
        log + [Launched(|log|, s.config.name, s.config.dependsOn, ctx.running)], Ok)
  }

  /** Launch, or wait while the dependencies are not up. */
  function Relaunch(s: Svc, log: Log, ctx: Ctx): (r: Outcome)
    ensures SameSettings(s, r.svc)
    ensures Idle(s) ==> SvcInv(r.svc)
  {
    if ctx.dependenciesReady then Launch(s, log, ctx) else Outcome(s.(state := Waiting), log, Ok)
  }

  function Start(s: Svc, log: Log, ctx: Ctx): (r: Outcome)
    ensures SameSettings(s, r.svc)
    ensures SvcInv(s) ==> SvcInv(r.svc)
  {
    match s.state
    case Starting => Outcome(s, log, AlreadyInState)
    case Running => Outcome(s, log, AlreadyInState)
    case Unhealthy => Outcome(s, log, AlreadyInState)
    case Stopping =>
      Outcome(s.(pendingStart := true, pendingStartIsRestart := false, restartAfterStop := false), log, Ok)
    case Waiting => Relaunch(s, log, ctx)
    case Stopped => Relaunch(s.(history := NO_HISTORY), log, ctx)
    case Failed => Relaunch(s.(history := NO_HISTORY), log, ctx)
    case Backoff => Relaunch(s.(history := NO_HISTORY), log, ctx)
  }

  function BeginStop(s: Svc, log: Log, ctx: Ctx, silence: bool): (r: Outcome)
    requires s.child.Some?
    ensures SameSettings(s, r.svc)
    ensures SvcInv(s) ==> SvcInv(r.svc)
  {
    var deadline := ctx.now.steady + s.config.stopTimeout;
    var kill := s.config.stopSignal.Kill?;
    Outcome(
      s.(state := Stopping, pendingStart := false, restartAfterStop := false, killSent := kill,
         stuckReported := false,
         timers := s.timers.(stopDeadline := deadline, killDeadline := ctx.now.steady + KILL_GRACE)),
      log + [StopRequested(s.child.value.id, deadline, kill, ctx.dependents, silence)], Ok)
  }

  function Stop(s: Svc, log: Log, ctx: Ctx): (r: Outcome)
    requires IsAlive(s.state) ==> s.child.Some?
    ensures SameSettings(s, r.svc)
    ensures SvcInv(s) ==> SvcInv(r.svc)
  {
    match s.state
    case Starting => BeginStop(s, log, ctx, false)
    case Running => BeginStop(s, log, ctx, false)
    case Unhealthy => BeginStop(s, log, ctx, false)
    case Stopping => Outcome(s.(pendingStart := false, restartAfterStop := false), log, AlreadyInState)
    case Waiting => Outcome(s.(state := Stopped), log, Ok)
    case Backoff => Outcome(s.(state := Stopped), log, Ok)
    case Failed => Outcome(s.(state := Stopped), log, Ok)
    case Stopped => Outcome(s, log, AlreadyInState)
  }

  function Restart(s: Svc, log: Log, ctx: Ctx): (r: Outcome)
    requires IsAlive(s.state) ==> s.child.Some?
    ensures SameSettings(s, r.svc)
    ensures SvcInv(s) ==> SvcInv(r.svc)
  {
    match s.state
    case Stopping =>
      Outcome(s.(pendingStart := true, pendingStartIsRestart := true, restartAfterStop := false), log, Ok)
    case Stopped => Start(s, log, ctx)
    case Waiting => Start(s, log, ctx)
    case Backoff => Start(s, log, ctx)
    case Failed => Start(s, log, ctx)
    case _ =>
      var stopped := BeginStop(s, log, ctx, false);
      stopped.(svc := stopped.svc.(pendingStart := true, pendingStartIsRestart := true))
  }

  function KillNow(s: Svc, log: Log, now: Instant): (r: Outcome)
    ensures SameSettings(s, r.svc)
    ensures SvcInv(s) ==> SvcInv(r.svc)
  {
    var quiet := s.(pendingStart := false, restartAfterStop := false);
    match s.child
    case None => Outcome(quiet.(state := Stopped), log, Ok)
    case Some(child) =>
      Outcome(
        quiet.(state := Stopping, killSent := true,
               timers := s.timers.(stopDeadline := now.steady, killDeadline := now.steady + KILL_GRACE)),
        log + [Killed(child.id)], Ok)
  }

  function Heartbeat(s: Svc, log: Log, now: Instant): (r: Outcome)
    ensures SameSettings(s, r.svc)
    ensures SvcInv(s) ==> SvcInv(r.svc)
  {
    if !s.state.Starting? && !s.state.Running? && !s.state.Unhealthy? then
      Outcome(s, log, InvalidState)
    else
      Outcome(
        s.(state := Running, timers := s.timers.(lastBeat := now.steady),
           report := s.report.(lastSeen := now.wallNs, missedBeats := 0)),
        log, Ok)
  }

  /** The value a 64-bit count has after a cast to a 32-bit int. */
  function ToInt32(x: int): int {
    (x + 0x8000_0000) % 0x1_0000_0000 - 0x8000_0000
  }

  /** Integer division that truncates toward zero. */
  function Quotient(a: int, b: int): int
    requires b > 0
  {
    if a >= 0 then a / b else -((-a) / b)
  }

  function CheckHeartbeat(s: Svc, log: Log, ctx: Ctx): (r: Outcome)
    requires s.child.Some? && HeartbeatEnabled(s.config)
    ensures SameSettings(s, r.svc)
    ensures SvcInv(s) && !s.state.Stopping? ==> SvcInv(r.svc)
  {
    var missed := ToInt32(Quotient(ctx.now.steady - s.timers.lastBeat, s.config.heartbeatInterval));
    var counted := s.(report := s.report.(missedBeats := missed));
    if missed < s.config.heartbeatTolerance || s.state.Unhealthy? then
      Outcome(counted, log, Ok)
    else if s.config.unhealthyAction.RestartIt? then
      var stopped := BeginStop(counted.(state := Unhealthy), log, ctx, true);
      stopped.(svc := stopped.svc.(restartAfterStop := true))
    else
      Outcome(counted.(state := Unhealthy), log, Ok)
  }

  function CountRestart(s: Svc): (t: Svc)
    ensures SameSettings(s, t)
    ensures Idle(s) ==> Idle(t)
  {
    s.(report := s.report.(restartCount := s.report.restartCount + 1))
  }

  /** Stopped, with nothing queued. */
  function AtRest(s: Svc): Svc {
    s.(state := Stopped, pendingStart := false, restartAfterStop := false)
  }

  /** A stopping service whose process is gone: what was queued, if the manager still allows it. */
  function FinishStop(s: Svc, log: Log, ctx: Ctx): (r: Outcome)
    ensures SameSettings(s, r.svc)
    ensures s.child.None? && !s.report.usageValid ==> SvcInv(r.svc)
  {
    var stopped := AtRest(s);
    if !ctx.launchAllowed then
      Outcome(stopped, log, Ok)
    else if s.restartAfterStop then
      Outcome(ScheduleRestart(stopped, ctx.now), log, Ok)
    else if s.pendingStart then
      Relaunch(if s.pendingStartIsRestart then CountRestart(stopped) else stopped, log, ctx)
    else
      Outcome(stopped, log, Ok)
  }

  /** The service once its process is gone. */
  function WithoutProcess(s: Svc, status: ExitStatus, now: Instant): Svc {
    s.(child := None,
       report := s.report.(lastExitCode := WireExitCode(status), lastExitTime := now.wallNs,
                           usage := NO_USAGE, usageValid := false))
  }

  function HandleExit(s: Svc, log: Log, status: ExitStatus, ctx: Ctx): (r: Outcome)
    ensures SameSettings(s, r.svc)
    ensures SvcInv(s) && s.child.Some? ==> SvcInv(r.svc)
  {
    var gone := WithoutProcess(s, status, ctx.now);
    if s.state.Stopping? then
      FinishStop(gone, log, ctx)
    else
      Outcome(ApplyRestartPolicy(gone, ctx.now, ExitedCleanly(status)), log, Ok)
  }

  /** Ask the launcher about the process, and deal with its exit. */
  function PollChild(s: Svc, log: Log, ctx: Ctx): (r: Outcome)
    ensures SameSettings(s, r.svc)
    ensures SvcInv(s) ==> SvcInv(r.svc)
  {
    match s.child
    case None => Outcome(s, log, Ok)
    case Some(child) =>
      match ctx.env(|log|).exit
      case None => Outcome(s, log + [Polled(child.id)], Ok)
      case Some(status) => HandleExit(s, log + [Exited(child.id)], status, ctx)
  }

  function Supervise(s: Svc, log: Log, ctx: Ctx): (r: Outcome)
    requires s.child.Some?
    ensures SameSettings(s, r.svc)
    ensures SvcInv(s) && !s.state.Stopping? ==> SvcInv(r.svc)
  {
    if HeartbeatEnabled(s.config) then
      CheckHeartbeat(s, log, ctx)
    else
      Outcome(
        s.(state := Running, report := s.report.(missedBeats := 0, lastSeen := ctx.now.wallNs)), log, Ok)
  }

  /** Without heartbeats a service counts as running once it has stayed up for the grace time. */
  function CheckGrace(s: Svc, log: Log, now: Instant): (r: Outcome)
    requires s.child.Some? && s.state.Starting?
    ensures SameSettings(s, r.svc)
    ensures SvcInv(s) ==> SvcInv(r.svc)
  {
    var seen := s.(report := s.report.(lastSeen := now.wallNs));
    if now.steady - s.timers.launchedAt >= s.config.startGrace then
      Outcome(seen.(state := Running), log, Ok)
    else
      Outcome(seen, log, Ok)
  }

  /** A stop that takes too long is killed; a kill that takes too long is reported once. */
  function CheckStop(s: Svc, log: Log, now: Instant): (r: Outcome)
    requires s.child.Some?
    ensures SameSettings(s, r.svc)
    ensures SvcInv(s) ==> SvcInv(r.svc)
  {
    if !s.killSent && now.steady >= s.timers.stopDeadline then
      Outcome(s.(killSent := true, timers := s.timers.(killDeadline := now.steady + KILL_GRACE)),
              log + [Escalated(s.child.value.id, now.steady)], Ok)
    else if s.killSent && !s.stuckReported && now.steady >= s.timers.killDeadline then
      Outcome(s.(stuckReported := true), log, Ok)
    else
      Outcome(s, log, Ok)
  }

  /** What the passing of time does in each state. */
  function Advance(s: Svc, log: Log, ctx: Ctx): (r: Outcome)
    requires IsAlive(s.state) ==> s.child.Some?
    ensures SameSettings(s, r.svc)
    ensures SvcInv(s) ==> SvcInv(r.svc)
  {
    match s.state
    case Starting =>
      if HeartbeatEnabled(s.config) then CheckHeartbeat(s, log, ctx) else CheckGrace(s, log, ctx.now)
    case Running => Supervise(s, log, ctx)
    case Unhealthy => Supervise(s, log, ctx)
    case Stopping => CheckStop(s, log, ctx.now)
    case Backoff =>
      if ctx.launchAllowed && ctx.now.steady >= s.timers.restartAt then
        Relaunch(CountRestart(s), log, ctx)
      else
        Outcome(s, log, Ok)
    case _ => Outcome(s, log, Ok)
  }

  function Tick(s: Svc, log: Log, ctx: Ctx): (r: Outcome)
    requires SvcInv(s)
    ensures SameSettings(s, r.svc)
    ensures SvcInv(r.svc)
  {
    var polled := PollChild(s, log, ctx);
    Advance(polled.svc, polled.log, ctx)
  }

  function Abandon(s: Svc): (t: Svc)
    ensures SameSettings(s, t)
    ensures SvcInv(s) ==> SvcInv(t)
  {
    if !s.state.Waiting? then s else s.(state := Failed)
  }

  function Sample(s: Svc, reading: UsageSample): (t: Svc)
    ensures SameSettings(s, t)
    ensures SvcInv(s) ==> SvcInv(t)
  {
    if s.child.None? then
      s.(report := s.report.(usage := NO_USAGE, usageValid := false))
    else
      s.(report := s.report.(usage := reading, usageValid := true))
  }

  /** The calls a manager makes on a service. */
  datatype SvcOp =
    | TickOp
    | StartOp
    | RestartOp
    | StopOp
    | KillOp
    | HeartbeatOp
    | AbandonOp
    | SampleOp(reading: UsageSample)
    | ReplaceOp(config: ServiceConfig)
    | ReaddOp
    | RetireOp  // mark for removal and stop

  function Step(s: Svc, log: Log, op: SvcOp, ctx: Ctx): (r: Outcome)
    requires SvcInv(s)
    ensures SvcInv(r.svc)
    ensures !op.ReplaceOp? ==> r.svc.config == s.config
    ensures !op.ReaddOp? && !op.RetireOp? ==> r.svc.removing == s.removing
  {
    match op
    case TickOp => Tick(s, log, ctx)
    case StartOp => Start(s, log, ctx)
    case RestartOp => Restart(s, log, ctx)
    case StopOp => Stop(s, log, ctx)
    case KillOp => KillNow(s, log, ctx.now)
    case HeartbeatOp => Heartbeat(s, log, ctx.now)
    case AbandonOp => Outcome(Abandon(s), log, Ok)
    case SampleOp(reading) => Outcome(Sample(s, reading), log, Ok)
    case ReplaceOp(config) => Outcome(s.(config := config), log, Ok)
    case ReaddOp => Outcome(s.(removing := false), log, Ok)
    case RetireOp => Stop(s.(removing := true), log, ctx)
  }
}
