/**
 The messages against the tables of the published protocol: which value stands at which offset, as a
 reader finds it that knows nothing but the tables, and what the codes mean.
 */
module Protocol {
  import opened Sequences
  import opened ServiceConfigs
  import opened ServiceSpec
  import opened Utf8
  import opened Wire
  import HealthRecords
  import Reports
  import Commands

  /** The value of the bytes from an offset on, the lowest first. */
  function ValueAt(b: Bytes, offset: nat, size: nat): nat
    requires offset + size <= |b|
    decreases size
  {
    if size == 0 then 0 else b[offset] + 256 * ValueAt(b, offset + 1, size - 1)
  }

  /** A number, negative ones as their two's complement. */
  predicate Holds(b: Bytes, offset: nat, size: nat, value: int) {
    offset + size <= |b| && ValueAt(b, offset, size) == if value < 0 then value + Power(size) else value
  }

  /** A text, cut to leave a zero at the end of the field, and zeros behind it. */
  predicate HoldsText(b: Bytes, offset: nat, size: nat, text: Bytes) {
    && size > 0 && offset + size <= |b|
    && var fitted := Fit(text, size - 1);
       && b[offset..offset + |fitted|] == fitted
       && forall k :: offset + |fitted| <= k < offset + size ==> b[k] == 0
  }

  // ----- what the writer puts down, found that way

  lemma {:induction false} ValueIs(b: Bytes, offset: nat, size: nat)
    requires offset + size <= |b|
    ensures ValueAt(b, offset, size) == FromBytes(b[offset..offset + size])
    decreases size
  {
    if size > 0 {
      ValueIs(b, offset + 1, size - 1);
      assert b[offset..offset + size][1..] == b[offset + 1..offset + size];
    }
  }

  lemma NumberLies(b: Bytes, i: nat, value: nat, n: nat)
    requires value < Power(n) && At(b, i, ToBytes(value, n))
    ensures Holds(b, i, n, value)
  {
    ValueIs(b, i, n);
    BytesComeBack(value, n);
  }

  lemma SignedLies(b: Bytes, i: nat, value: int, n: nat)
    requires 0 <= Unsigned(value, n) < Power(n) && At(b, i, ToBytes(Unsigned(value, n), n))
    ensures Holds(b, i, n, value)
  {
    NumberLies(b, i, Unsigned(value, n), n);
  }

  lemma TextLies(b: Bytes, i: nat, text: Bytes, n: nat)
    requires n > 0 && At(b, i, TextField(text, n))
    ensures HoldsText(b, i, n, text)
  {
    hide Fit;
    var field, fitted := TextField(text, n), Fit(text, n - 1);
    AtParts(b, i, fitted, Zeros(n - |fitted|));
    forall k | i + |fitted| <= k < i + n
      ensures b[k] == 0
    {
      AtPoint(b, i, field, k - i);
    }
  }

  /** All of that at once. */
  lemma FieldsLie(b: Bytes)
    ensures forall i: nat, v: Byte {:trigger At(b, i, ToBytes(v, 1))} :: At(b, i, ToBytes(v, 1)) ==> Holds(b, i, 1, v)
    ensures forall i: nat, v: U16 {:trigger At(b, i, ToBytes(v, 2))} :: At(b, i, ToBytes(v, 2)) ==> Holds(b, i, 2, v)
    ensures forall i: nat, v: U32 {:trigger At(b, i, ToBytes(v, 4))} :: At(b, i, ToBytes(v, 4)) ==> Holds(b, i, 4, v)
    ensures forall i: nat, v: U64 {:trigger At(b, i, ToBytes(v, 8))} :: At(b, i, ToBytes(v, 8)) ==> Holds(b, i, 8, v)
    ensures forall i: nat, v: I32 {:trigger At(b, i, Int32Bytes(v))} :: At(b, i, Int32Bytes(v)) ==> Holds(b, i, 4, v)
    ensures forall i: nat, v: I64 {:trigger At(b, i, Int64Bytes(v))} :: At(b, i, Int64Bytes(v)) ==> Holds(b, i, 8, v)
    ensures forall i: nat, t, n: nat {:trigger At(b, i, TextField(t, n))} ::
              n > 0 && At(b, i, TextField(t, n)) ==> HoldsText(b, i, n, t)
  {
    hide ToBytes, Holds, HoldsText, TextField, At;
    Powers();
    forall i: nat, v: Byte | At(b, i, ToBytes(v, 1))
      ensures Holds(b, i, 1, v)
    {
      NumberLies(b, i, v, 1);
    }
    forall i: nat, v: U16 | At(b, i, ToBytes(v, 2))
      ensures Holds(b, i, 2, v)
    {
      NumberLies(b, i, v, 2);
    }
    forall i: nat, v: U32 | At(b, i, ToBytes(v, 4))
      ensures Holds(b, i, 4, v)
    {
      NumberLies(b, i, v, 4);
    }
    forall i: nat, v: U64 | At(b, i, ToBytes(v, 8))
      ensures Holds(b, i, 8, v)
    {
      NumberLies(b, i, v, 8);
    }
    forall i: nat, v: I32 | At(b, i, Int32Bytes(v))
      ensures Holds(b, i, 4, v)
    {
      SignedLies(b, i, v, 4);
    }
    forall i: nat, v: I64 | At(b, i, Int64Bytes(v))
      ensures Holds(b, i, 8, v)
    {
      SignedLies(b, i, v, 8);
    }
    forall i: nat, t, n: nat | n > 0 && At(b, i, TextField(t, n))
      ensures HoldsText(b, i, n, t)
    {
      TextLies(b, i, t, n);
    }
  }

  // ----- the health message

  /** The numbers of a health record of the table, from `base` on. */
  predicate HealthNumbers(b: Bytes, base: nat, r: HealthRecords.HealthRecord) {
    && Holds(b, base + 64, 4, r.pid) && Holds(b, base + 72, 8, r.memoryUsageInBytes)
    && Holds(b, base + 80, 8, r.cpuUsageInUsec) && Holds(b, base + 96, 8, r.startTime)
    && Holds(b, base + 104, 8, r.lastSeen) && Holds(b, base + 112, 4, r.missedBeats)
    && Holds(b, base + 116, 4, r.restartCount) && Holds(b, base + 120, 8, r.snapshotTime)
  }

  predicate HealthTable(b: Bytes, base: nat, r: HealthRecords.HealthRecord) {
    && HoldsText(b, base + 0, 64, r.processName) && Holds(b, base + 88, 1, HealthCode(r.state))
    && HealthNumbers(b, base, r)
  }

  function HealthCode(state: HealthRecords.RuntimeState): Byte {
    if state.Unknown? then 0 else if state.Starting? then 1 else if state.Running? then 2
    else if state.Stopped? then 3 else 4
  }

  lemma HealthRecordLies(b: Bytes, before: Bytes, r: HealthRecords.HealthRecord)
    requires HealthRecords.Append(before, r) <= b
    ensures HealthTable(b, |before|, r) && before <= b
  {
    hide TextField, Int32Bytes, Int64Bytes, ToBytes, At, Zeros, Holds, HoldsText;
    StartsAt(b, HealthRecords.Append(before, r));
    PartsLie(b);
    FieldsLie(b);
    AtStart(b, before);
  }

  /** Every record of a health message stands where the table says, 128 bytes after the one before. */
  lemma {:induction false} HealthMessageLies(b: Bytes, records: seq<HealthRecords.HealthRecord>, k: nat)
    requires HealthRecords.AppendAll([], records) <= b && k < |records|
    ensures HealthTable(b, 128 * k, records[k])
    decreases |records|
  {
    hide HealthTable;
    var n := |records| - 1;
    var before := HealthRecords.AppendAll([], records[..n]);
    HealthRecordLies(b, before, records[n]);
    if k < n {
      HealthMessageLies(b, records[..n], k);
    }
  }

  // ----- the detailed report

  function StateCode(state: ServiceState): Byte {
    if state.Stopped? then 0 else if state.Waiting? then 1 else if state.Starting? then 2
    else if state.Running? then 3 else if state.Unhealthy? then 4 else if state.Stopping? then 5
    else if state.Backoff? then 6 else 7
  }

  function ModeCode(mode: RestartMode): Byte {
    if mode.Never? then 0 else if mode.OnFailure? then 1 else 2
  }

  /** The numbers that say what a service is, of the table, from `base` on. */
  predicate IdentityNumbers(b: Bytes, base: nat, r: Reports.ServiceRecord) {
    && Holds(b, base + 224, 4, r.pid) && Holds(b, base + 230, 1, r.flags)
    && Holds(b, base + 232, 4, r.restartCount) && Holds(b, base + 236, 4, r.missedBeats)
    && Holds(b, base + 240, 4, r.lastExitCode) && Holds(b, base + 244, 4, r.processCount)
    && Holds(b, base + 248, 4, r.threadCount) && Holds(b, base + 252, 4, r.openFiles)
  }

  predicate IdentityTable(b: Bytes, base: nat, r: Reports.ServiceRecord) {
    && HoldsText(b, base + 0, 32, r.name) && HoldsText(b, base + 32, 128, r.binary)
    && HoldsText(b, base + 160, 64, r.description)
    && Holds(b, base + 228, 1, StateCode(r.state)) && Holds(b, base + 229, 1, ModeCode(r.restartMode))
    && IdentityNumbers(b, base, r)
  }

  /** Its times and figures, of the same table. */
  predicate FiguresTable(b: Bytes, base: nat, r: Reports.ServiceRecord) {
    && Holds(b, base + 256, 8, r.startTime) && Holds(b, base + 264, 8, r.lastSeen)
    && Holds(b, base + 272, 8, r.lastExitTime) && Holds(b, base + 280, 8, r.nextRestartTime)
    && Holds(b, base + 288, 8, r.cpuTimeUsec) && Holds(b, base + 296, 8, r.cpuPercent)
    && Holds(b, base + 304, 8, r.memoryBytes) && Holds(b, base + 312, 8, r.memoryPeakBytes)
    && Holds(b, base + 320, 8, r.memoryLimitBytes) && Holds(b, base + 328, 8, r.ioReadBytes)
    && Holds(b, base + 336, 8, r.ioWriteBytes) && Holds(b, base + 344, 8, r.gpuPercent)
    && Holds(b, base + 352, 8, r.gpuMemoryBytes) && Holds(b, base + 360, 4, r.oomKills)
    && Holds(b, base + 364, 4, r.cpuLimitPercent)
  }

  predicate GpuNumbers(b: Bytes, base: nat, r: Reports.GpuRecord) {
    && Holds(b, base + 112, 4, r.index) && Holds(b, base + 116, 4, r.temperatureC)
    && Holds(b, base + 120, 8, r.utilizationPercent) && Holds(b, base + 128, 8, r.memoryUtilizationPercent)
    && Holds(b, base + 136, 8, r.memoryTotalBytes) && Holds(b, base + 144, 8, r.memoryUsedBytes)
    && Holds(b, base + 152, 4, r.powerMilliwatts)
  }

  predicate GpuTable(b: Bytes, base: nat, r: Reports.GpuRecord) {
    HoldsText(b, base + 0, 64, r.name) && HoldsText(b, base + 64, 48, r.uuid) && GpuNumbers(b, base, r)
  }

  /** The numbers of the header of the table that are about the manager and its host. */
  predicate HeaderNumbers(b: Bytes, r: Reports.DetailedReport) {
    && Holds(b, 20, 4, r.managerPid) && Holds(b, 24, 8, r.snapshotTime) && Holds(b, 32, 8, r.managerStartTime)
    && Holds(b, 40, 4, r.publishIntervalMs) && Holds(b, 44, 4, r.flags)
    && Holds(b, 48, 8, r.system.cpuPercent) && Holds(b, 56, 8, r.system.memoryTotalBytes)
    && Holds(b, 64, 8, r.system.memoryAvailableBytes) && Holds(b, 72, 8, r.system.loadAverage1)
    && Holds(b, 80, 8, r.system.loadAverage5) && Holds(b, 88, 8, r.system.loadAverage15)
    && Holds(b, 96, 8, r.system.uptimeSeconds) && Holds(b, 104, 4, r.system.cpuCount)
  }

  predicate HeaderTable(b: Bytes, r: Reports.DetailedReport, services: nat, gpus: nat) {
    && Holds(b, 0, 4, 0x524D_5042) && Holds(b, 4, 2, 1) && Holds(b, 6, 2, 192) && Holds(b, 8, 2, 368)
    && Holds(b, 10, 2, 160) && Holds(b, 12, 4, services) && Holds(b, 16, 4, gpus) && HeaderNumbers(b, r)
    && HoldsText(b, 112, 64, r.hostName) && HoldsText(b, 176, 16, r.managerVersion)
  }

  lemma IdentityLies(b: Bytes, before: Bytes, r: Reports.ServiceRecord)
    requires Reports.AppendIdentity(before, r) <= b
    ensures IdentityTable(b, |before|, r) && before <= b
  {
    hide TextField, Int32Bytes, Int64Bytes, ToBytes, At, Zeros, Holds, HoldsText;
    StartsAt(b, Reports.AppendIdentity(before, r));
    PartsLie(b);
    FieldsLie(b);
    AtStart(b, before);
  }

  lemma FiguresLie(b: Bytes, before: Bytes, r: Reports.ServiceRecord, base: nat)
    requires Reports.AppendFigures(before, r) <= b && |before| == base + 256
    ensures FiguresTable(b, base, r) && before <= b
  {
    hide TextField, Int32Bytes, Int64Bytes, ToBytes, At, Zeros, Holds, HoldsText;
    StartsAt(b, Reports.AppendFigures(before, r));
    PartsLie(b);
    FieldsLie(b);
    AtStart(b, before);
  }

  lemma ServiceLies(b: Bytes, before: Bytes, r: Reports.ServiceRecord)
    requires Reports.AppendService(before, r) <= b
    ensures IdentityTable(b, |before|, r) && FiguresTable(b, |before|, r) && before <= b
  {
    hide Reports.AppendIdentity, Reports.AppendFigures, IdentityTable, FiguresTable;
    FiguresLie(b, Reports.AppendIdentity(before, r), r, |before|);
    IdentityLies(b, before, r);
  }

  lemma GpuLies(b: Bytes, before: Bytes, r: Reports.GpuRecord)
    requires Reports.AppendGpu(before, r) <= b
    ensures GpuTable(b, |before|, r) && before <= b
  {
    hide TextField, Int32Bytes, Int64Bytes, ToBytes, At, Zeros, Holds, HoldsText;
    StartsAt(b, Reports.AppendGpu(before, r));
    PartsLie(b);
    FieldsLie(b);
    AtStart(b, before);
  }

  lemma HeaderLies(b: Bytes, r: Reports.DetailedReport, services: U32, gpus: U32)
    requires Reports.Header(r, Reports.OWN_SIZES, services, gpus) <= b
    ensures HeaderTable(b, r, services, gpus)
  {
    hide TextField, Int32Bytes, Int64Bytes, ToBytes, At, Zeros, Holds, HoldsText;
    StartsAt(b, Reports.Header(r, Reports.OWN_SIZES, services, gpus));
    PartsLie(b);
    FieldsLie(b);
  }

  /** Service records lie one after the other. */
  lemma {:induction false} ServicesLie(b: Bytes, before: Bytes, records: seq<Reports.ServiceRecord>,
                                       extras: seq<Bytes>, k: nat)
    requires |extras| == |records| && Reports.AllOfSize(extras, 0) && k < |records|
    requires Reports.AppendServices(before, records, extras) <= b
    ensures IdentityTable(b, |before| + 368 * k, records[k]) && FiguresTable(b, |before| + 368 * k, records[k])
    decreases |records|
  {
    hide IdentityTable, FiguresTable, Reports.AppendService;
    var n := |records| - 1;
    var front := Reports.AppendServices(before, records[..n], extras[..n]);
    assert Reports.AppendService(front, records[n]) <= b;
    ServicesLength(before, records[..n], extras[..n]);
    ServiceLies(b, front, records[n]);
    if k < n {
      ServicesLie(b, before, records[..n], extras[..n], k);
    }
  }

  lemma {:induction false} ServicesLength(before: Bytes, records: seq<Reports.ServiceRecord>, extras: seq<Bytes>)
    requires |extras| == |records| && Reports.AllOfSize(extras, 0)
    ensures |Reports.AppendServices(before, records, extras)| == |before| + 368 * |records|
    ensures before <= Reports.AppendServices(before, records, extras)
    decreases |records|
  {
    hide Reports.AppendService, IdentityTable, FiguresTable;
    if records != [] {
      var n := |records| - 1;
      var front := Reports.AppendServices(before, records[..n], extras[..n]);
      ServicesLength(before, records[..n], extras[..n]);
      ServiceLies(Reports.AppendService(front, records[n]), front, records[n]);
    }
  }

  lemma {:induction false} GpusLie(b: Bytes, before: Bytes, records: seq<Reports.GpuRecord>, extras: seq<Bytes>, k: nat)
    requires |extras| == |records| && Reports.AllOfSize(extras, 0) && k < |records|
    requires Reports.AppendGpus(before, records, extras) <= b
    ensures GpuTable(b, |before| + 160 * k, records[k])
    decreases |records|
  {
    hide GpuTable, Reports.AppendGpu;
    var n := |records| - 1;
    var front := Reports.AppendGpus(before, records[..n], extras[..n]);
    assert Reports.AppendGpu(front, records[n]) <= b;
    GpusLength(before, records[..n], extras[..n]);
    GpuLies(b, front, records[n]);
    if k < n {
      GpusLie(b, before, records[..n], extras[..n], k);
    }
  }

  lemma {:induction false} GpusLength(before: Bytes, records: seq<Reports.GpuRecord>, extras: seq<Bytes>)
    requires |extras| == |records| && Reports.AllOfSize(extras, 0)
    ensures |Reports.AppendGpus(before, records, extras)| == |before| + 160 * |records|
    ensures before <= Reports.AppendGpus(before, records, extras)
    decreases |records|
  {
    hide Reports.AppendGpu, GpuTable;
    if records != [] {
      var n := |records| - 1;
      var front := Reports.AppendGpus(before, records[..n], extras[..n]);
      GpusLength(before, records[..n], extras[..n]);
      GpuLies(Reports.AppendGpu(front, records[n]), front, records[n]);
    }
  }

  /** What a message of this version is made of. */
  lemma OwnParts(r: Reports.DetailedReport) returns (header: Bytes, services: Bytes)
    requires |r.services| < 0x1_0000_0000 && |r.gpus| < 0x1_0000_0000
    ensures |header| == 192 && header == Reports.Header(r, Reports.OWN_SIZES, |r.services|, |r.gpus|)
    ensures services == Reports.AppendServices(header, r.services, Reports.NoExtras(|r.services|))
    ensures Reports.OwnMessage(r) == Reports.AppendGpus(services, r.gpus, Reports.NoExtras(|r.gpus|))
    ensures |services| == 192 + 368 * |r.services| && |Reports.OwnMessage(r)| == |services| + 160 * |r.gpus|
    ensures header <= services && services <= Reports.OwnMessage(r)
  {
    hide Reports.Header, Reports.AppendServices, Reports.AppendGpus;
    header := Reports.Header(r, Reports.OWN_SIZES, |r.services|, |r.gpus|);
    assert header + [] == header;
    services := Reports.AppendServices(header, r.services, Reports.NoExtras(|r.services|));
    ServicesLength(header, r.services, Reports.NoExtras(|r.services|));
    GpusLength(services, r.gpus, Reports.NoExtras(|r.gpus|));
  }

  /**
   A detailed report is the header of the table, the service records behind its 192 bytes and the GPU
   records behind those, each as its table says.
   */
  lemma ReportLies(r: Reports.DetailedReport)
    requires |r.services| < 0x1_0000_0000 && |r.gpus| < 0x1_0000_0000
    ensures var b := Reports.OwnMessage(r);
            var gpus := 192 + 368 * |r.services|;
            && |b| == gpus + 160 * |r.gpus| && HeaderTable(b, r, |r.services|, |r.gpus|)
            && (forall k {:trigger r.services[k]} :: 0 <= k < |r.services| ==>
                  IdentityTable(b, 192 + 368 * k, r.services[k]) && FiguresTable(b, 192 + 368 * k, r.services[k]))
            && forall k {:trigger r.gpus[k]} :: 0 <= k < |r.gpus| ==> GpuTable(b, gpus + 160 * k, r.gpus[k])
  {
    hide IdentityTable, FiguresTable, GpuTable, HeaderTable, Reports.Header, Reports.OwnMessage;
    hide Reports.AppendServices, Reports.AppendGpus;
    var b := Reports.OwnMessage(r);
    var header, services := OwnParts(r);
    HeaderLies(b, r, |r.services|, |r.gpus|);
    forall k {:trigger r.services[k]} | 0 <= k < |r.services|
      ensures IdentityTable(b, 192 + 368 * k, r.services[k]) && FiguresTable(b, 192 + 368 * k, r.services[k])
    {
      ServicesLie(b, header, r.services, Reports.NoExtras(|r.services|), k);
    }
    forall k {:trigger r.gpus[k]} | 0 <= k < |r.gpus|
      ensures GpuTable(b, 192 + 368 * |r.services| + 160 * k, r.gpus[k])
    {
      GpusLie(b, services, r.gpus, Reports.NoExtras(|r.gpus|), k);
    }
  }

  // ----- commands and replies

  function ResultCode(result: CommandResult): Byte {
    if result.Ok? then 0 else if result.UnknownService? then 1 else if result.UnknownCommand? then 2
    else if result.Malformed? then 3 else if result.AlreadyInState? then 4 else if result.InvalidState? then 5
    else if result.LaunchFailed? then 6 else if result.ShuttingDown? then 7 else 8
  }

  /** A command and a reply stand as their tables say. */
  lemma CommandLies(m: Commands.CommandMessage)
    ensures var b := Commands.CommandBytes(m);
            && |b| == 65 && Holds(b, 0, 1, m.command)
            && HoldsText(b, 1, 32, m.serviceName) && HoldsText(b, 33, 32, m.args)
  {
    hide TextField, ToBytes, At, Holds, HoldsText;
    var b := Commands.CommandBytes(m);
    StartsAt(b, b);
    PartsLie(b);
    FieldsLie(b);
  }

  lemma ReplyLies(r: Commands.CommandReply)
    ensures var b := Commands.ReplyBytes(r);
            && |b| == 128 && Holds(b, 0, 1, r.command) && Holds(b, 1, 1, ResultCode(r.result))
            && HoldsText(b, 2, 32, r.serviceName) && HoldsText(b, 34, 94, r.message)
  {
    hide TextField, ToBytes, At, Holds, HoldsText;
    var b := Commands.ReplyBytes(r);
    StartsAt(b, b);
    PartsLie(b);
    FieldsLie(b);
  }
}
