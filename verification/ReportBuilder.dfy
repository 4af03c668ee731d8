/** The two reports about the services: the short health records and the detailed ones. */
module ReportBuilder {
  import opened Wrappers
  import opened ServiceConfigs
  import opened Launching
  import opened ServiceSpec
  import opened ManagerSpec
  import opened Runs
  import opened Supervision
  import opened Utf8
  import opened Wire
  import HealthRecords
  import Reports

  /** How the program's own strings are stored: as UTF-8 bytes. */
  type Encoding = string -> Bytes

  /** What is measured outside the service: processor share and GPU figures. */
  datatype Measures = Measures(cpuPercent: U64, gpu: Option<GpuFigures>)

  datatype GpuFigures = GpuFigures(percent: U64, memoryBytes: U64)

  /** What a service tells about itself. */
  datatype Status = Status(
    name: Bytes, description: Bytes, binary: Bytes, restartMode: RestartMode, autostart: bool, heartbeat: bool,
    removing: bool, memoryLimitBytes: U64, cpuLimitPercent: U32, state: ServiceState, pid: I32, startTime: I64,
    lastSeen: I64, lastExitTime: I64, nextRestartTime: I64, lastExitCode: I32, restartCount: I32, missedBeats: I32,
    usageValid: bool, usage: UsageSample, measures: Measures)

  // -1.0 as a double.
  const NO_PERCENT: U64 := 0xBFF0_0000_0000_0000

  function ToWord(x: int): U64 {
    x % 0x1_0000_0000_0000_0000
  }

  function ToInt64(x: int): I64 {
    (x + 0x8000_0000_0000_0000) % 0x1_0000_0000_0000_0000 - 0x8000_0000_0000_0000
  }

  function StatusOf(s: Svc, m: Measures, text: Encoding): Status {
    Status(
      text(s.config.name), text(s.config.description), text(s.config.binary), s.config.restart, s.config.autostart,
      HeartbeatEnabled(s.config), s.removing, ToWord(s.config.memoryMax), s.config.cpuMaxPercent % 0x1_0000_0000,
      s.state, if s.child.Some? then ToInt32(s.child.value.pid) else 0, ToInt64(s.report.startTime),
      ToInt64(s.report.lastSeen), ToInt64(s.report.lastExitTime),
      if s.state.Backoff? then ToInt64(s.report.nextRestartTime) else 0, ToInt32(s.report.lastExitCode),
      ToInt32(s.report.restartCount), ToInt32(s.report.missedBeats), s.report.usageValid, s.report.usage, m)
  }

  function ToRuntimeState(state: ServiceState): HealthRecords.RuntimeState {
    match state
    case Stopped => HealthRecords.Stopped
    case Stopping => HealthRecords.Stopped
    case Waiting => HealthRecords.Starting
    case Starting => HealthRecords.Starting
    case Backoff => HealthRecords.Starting
    case Running => HealthRecords.Running
    case Unhealthy => HealthRecords.Unhealthy
    case Failed => HealthRecords.Unhealthy
  }

  function ToHealth(s: Status, snapshotTime: I64): HealthRecords.HealthRecord {
    var alive := IsAlive(s.state);
    HealthRecords.HealthRecord(
      s.name, if alive then s.pid else 0, if s.usageValid then ToWord(s.usage.memoryBytes) else 0,
      if s.usageValid then ToWord(s.usage.cpuTimeUsec) else 0, ToRuntimeState(s.state),
      if alive then s.startTime else 0, s.lastSeen, s.missedBeats, s.restartCount, snapshotTime)
  }

  const AUTOSTART := 0x01
  const HEARTBEAT := 0x02
  const CGROUP := 0x04
  const USAGE := 0x08
  const GPU := 0x10
  const REMOVING := 0x20

  function Bit(on: bool, bit: nat): nat {
    if on then bit else 0
  }

  function ServiceFlags(s: Status): Byte {
    Bit(s.autostart, AUTOSTART) + Bit(s.heartbeat, HEARTBEAT) + Bit(s.usageValid && s.usage.cgroup, CGROUP)
    + Bit(s.usageValid, USAGE) + Bit(s.measures.gpu.Some?, GPU) + Bit(s.removing, REMOVING)
  }

  predicate HasFlag(flags: Byte, bit: nat)
    requires bit > 0
  {
    flags / bit % 2 == 1
  }

  function ToServiceRecord(s: Status): Reports.ServiceRecord {
    var u := if s.usageValid then s.usage else NO_USAGE;
    var gpu := if s.measures.gpu.Some? then s.measures.gpu.value else GpuFigures(NO_PERCENT, 0);
    Reports.ServiceRecord(
      s.name, s.binary, s.description, s.pid, s.state, s.restartMode, ServiceFlags(s), s.restartCount, s.missedBeats,
      s.lastExitCode, ToInt32(u.processCount), ToInt32(u.threadCount), ToInt32(u.openFiles), s.startTime, s.lastSeen,
      s.lastExitTime, s.nextRestartTime, ToWord(u.cpuTimeUsec), s.measures.cpuPercent, ToWord(u.memoryBytes),
      ToWord(u.memoryPeakBytes), s.memoryLimitBytes, ToWord(u.ioReadBytes), ToWord(u.ioWriteBytes), gpu.percent,
      gpu.memoryBytes, u.oomKills % 0x1_0000_0000, s.cpuLimitPercent)
  }

  method BuildHealth(statuses: seq<Status>, snapshotTime: I64) returns (records: seq<HealthRecords.HealthRecord>)
    ensures |records| == |statuses|
    ensures forall i :: 0 <= i < |records| ==> records[i] == ToHealth(statuses[i], snapshotTime)
  {
    records := [];
    for i := 0 to |statuses|
      invariant |records| == i
      invariant forall k :: 0 <= k < i ==> records[k] == ToHealth(statuses[k], snapshotTime)
    {
      records := records + [ToHealth(statuses[i], snapshotTime)];
    }
  }

  method BuildServices(statuses: seq<Status>) returns (records: seq<Reports.ServiceRecord>)
    ensures |records| == |statuses|
    ensures forall i :: 0 <= i < |records| ==> records[i] == ToServiceRecord(statuses[i])
  {
    records := [];
    for i := 0 to |statuses|
      invariant |records| == i
      invariant forall k :: 0 <= k < i ==> records[k] == ToServiceRecord(statuses[k])
    {
      records := records + [ToServiceRecord(statuses[i])];
    }
  }

  // ----- what the two reports have in common

  /** Both name the same process, and neither shows a process or its usage when there is none. */
  predicate ReportsAgree(s: Svc, h: HealthRecords.HealthRecord, r: Reports.ServiceRecord) {
    && h.pid == r.pid && h.processName == r.name
    && h.restartCount == r.restartCount && h.missedBeats == r.missedBeats
    && h.memoryUsageInBytes == r.memoryBytes && h.cpuUsageInUsec == r.cpuTimeUsec
    && (HasFlag(r.flags, USAGE) <==> s.report.usageValid)
    && (HasFlag(r.flags, REMOVING) <==> s.removing)
    && (s.child.Some? ==> h.pid == ToInt32(s.child.value.pid) && h.startTime == r.startTime)
    && (s.child.None? ==>
          && h.pid == 0 && h.startTime == 0 && h.memoryUsageInBytes == 0 && h.cpuUsageInUsec == 0
          && !HasFlag(r.flags, USAGE) && !HasFlag(r.flags, CGROUP)
          && r.processCount == 0 && r.threadCount == 0 && r.openFiles == -1
          && r.memoryPeakBytes == 0 && r.ioReadBytes == 0 && r.ioWriteBytes == 0 && r.oomKills == 0)
  }

  lemma InvMakesReportsAgree(s: Svc, m: Measures, text: Encoding, snapshotTime: I64)
    requires SvcInv(s)
    ensures var status := StatusOf(s, m, text);
            ReportsAgree(s, ToHealth(status, snapshotTime), ToServiceRecord(status))
  {
    hide HasFlag, ServiceFlags, ToWord, ToInt32, ToInt64, HeartbeatEnabled;
    SmallCasts();
    FlagsAreBits(StatusOf(s, m, text));
  }

  lemma SmallCasts()
    ensures ToInt32(0) == 0 && ToInt32(-1) == -1 && ToWord(0) == 0
  {}

  lemma FlagsAreBits(s: Status)
    ensures HasFlag(ServiceFlags(s), USAGE) <==> s.usageValid
    ensures HasFlag(ServiceFlags(s), CGROUP) <==> s.usageValid && s.usage.cgroup
    ensures HasFlag(ServiceFlags(s), REMOVING) <==> s.removing
  {}

  // ----- what each report shows

  /** The eight states of a service as the five of the health report. */
  predicate FoldsTo(state: ServiceState, shown: HealthRecords.RuntimeState) {
    && (shown.Stopped? <==> state.Stopped? || state.Stopping?)
    && (shown.Starting? <==> state.Waiting? || state.Starting? || state.Backoff?)
    && (shown.Running? <==> state.Running?)
    && (shown.Unhealthy? <==> state.Unhealthy? || state.Failed?)
  }

  /** The numbers of the flag bits are those of the published table. */
  predicate ShowsFlags(s: Svc, m: Measures, flags: Byte) {
    && (HasFlag(flags, 1) <==> s.config.autostart) && (HasFlag(flags, 2) <==> s.config.heartbeatInterval > 0)
    && (HasFlag(flags, 4) <==> s.report.usageValid && s.report.usage.cgroup)
    && (HasFlag(flags, 8) <==> s.report.usageValid) && (HasFlag(flags, 16) <==> m.gpu.Some?)
    && (HasFlag(flags, 32) <==> s.removing)
  }

  /** What a service is and when things happened to it. */
  predicate ShowsService(s: Svc, m: Measures, text: Encoding, r: Reports.ServiceRecord) {
    && r.name == text(s.config.name) && r.binary == text(s.config.binary)
    && r.description == text(s.config.description) && r.state == s.state && r.restartMode == s.config.restart
    && r.restartCount == ToInt32(s.report.restartCount) && r.missedBeats == ToInt32(s.report.missedBeats)
    && r.lastExitCode == ToInt32(s.report.lastExitCode) && r.startTime == ToInt64(s.report.startTime)
    && r.lastSeen == ToInt64(s.report.lastSeen) && r.lastExitTime == ToInt64(s.report.lastExitTime)
    && r.nextRestartTime == (if s.state.Backoff? then ToInt64(s.report.nextRestartTime) else 0)
    && r.memoryLimitBytes == ToWord(s.config.memoryMax) && r.cpuPercent == m.cpuPercent
    && r.cpuLimitPercent == s.config.cpuMaxPercent % 0x1_0000_0000
    && (m.gpu.Some? ==> r.gpuPercent == m.gpu.value.percent && r.gpuMemoryBytes == m.gpu.value.memoryBytes)
    && (m.gpu.None? ==> r.gpuPercent == NO_PERCENT && r.gpuMemoryBytes == 0)
  }

  /** The figures of the last measurement. */
  predicate ShowsUsage(u: UsageSample, r: Reports.ServiceRecord) {
    && r.processCount == ToInt32(u.processCount) && r.threadCount == ToInt32(u.threadCount)
    && r.openFiles == ToInt32(u.openFiles) && r.cpuTimeUsec == ToWord(u.cpuTimeUsec)
    && r.memoryBytes == ToWord(u.memoryBytes) && r.memoryPeakBytes == ToWord(u.memoryPeakBytes)
    && r.ioReadBytes == ToWord(u.ioReadBytes) && r.ioWriteBytes == ToWord(u.ioWriteBytes)
    && r.oomKills == u.oomKills % 0x1_0000_0000
  }

  /**
   Both reports show the service as it is: its state, folded in the short one, its times and counts, the
   bits of the published table, and the figures of the last measurement when there is one.
   */
  lemma ReportsShow(s: Svc, m: Measures, text: Encoding, snapshotTime: I64)
    ensures var status := StatusOf(s, m, text);
            var h, r := ToHealth(status, snapshotTime), ToServiceRecord(status);
            && FoldsTo(s.state, h.state) && h.lastSeen == ToInt64(s.report.lastSeen)
            && h.snapshotTime == snapshotTime && h.processName == text(s.config.name)
            && ShowsFlags(s, m, r.flags) && ShowsService(s, m, text, r)
            && (s.report.usageValid ==> ShowsUsage(s.report.usage, r))
  {
    hide ToWord, ToInt32, ToInt64, HasFlag, ServiceFlags;
    FlagsAreTheBits(StatusOf(s, m, text));
  }

  lemma FlagsAreTheBits(s: Status)
    ensures var f := ServiceFlags(s);
            && (HasFlag(f, 1) <==> s.autostart) && (HasFlag(f, 2) <==> s.heartbeat)
            && (HasFlag(f, 4) <==> s.usageValid && s.usage.cgroup) && (HasFlag(f, 8) <==> s.usageValid)
            && (HasFlag(f, 16) <==> s.measures.gpu.Some?) && (HasFlag(f, 32) <==> s.removing)
  {}

  /** In every run from a valid configuration both reports agree about every service. */
  lemma EveryRunReportsAgree(configs: seq<ServiceConfig>, calls: seq<Call>, env: Env, i: nat, m: Measures,
                             text: Encoding, snapshotTime: I64)
    requires ValidConfigs(configs) && RunOk(Load(configs), calls, env)
    requires i < |Run(Load(configs), calls, env).services|
    ensures var s := Run(Load(configs), calls, env).services[i];
            var status := StatusOf(s, m, text);
            ReportsAgree(s, ToHealth(status, snapshotTime), ToServiceRecord(status))
  {
    hide RunOk, ValidConfigs, ReportsAgree, StatusOf, ToHealth, ToServiceRecord;
    var s := Run(Load(configs), calls, env).services[i];
    EveryRunIsSafe(configs, calls, env);
    assert s in Run(Load(configs), calls, env).services;
    InvMakesReportsAgree(s, m, text, snapshotTime);
  }
}
