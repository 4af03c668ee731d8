/**
 The detailed report as bytes. Readers go by the sizes a header declares for itself and for each kind
 of record, and the round trip is proved for any that are not smaller than this version's.
 */
module Reports {
  import opened Sequences
  import opened Utf8
  import opened Wire
  import opened ServiceConfigs
  import opened ServiceSpec

  const MAGIC := 0x524D_5042
  const VERSION := 1
  const HEADER_SIZE := 192
  const SERVICE_SIZE := 368
  const GPU_SIZE := 160
  const MAX_RECORDS := 100_000

  const NAME_SIZE := 32
  const BINARY_SIZE := 128
  const DESCRIPTION_SIZE := 64
  const HOST_SIZE := 64
  const MANAGER_VERSION_SIZE := 16
  const GPU_NAME_SIZE := 64
  const GPU_UUID_SIZE := 48

  // Measured doubles are the 64-bit patterns that travel.
  datatype SystemRecord = SystemRecord(
    cpuPercent: U64, cpuCount: U32, memoryTotalBytes: U64, memoryAvailableBytes: U64, loadAverage1: U64,
    loadAverage5: U64, loadAverage15: U64, uptimeSeconds: U64)

  datatype ServiceRecord = ServiceRecord(
    name: Bytes, binary: Bytes, description: Bytes, pid: I32, state: ServiceState, restartMode: RestartMode,
    flags: Byte, restartCount: I32, missedBeats: I32, lastExitCode: I32, processCount: I32, threadCount: I32,
    openFiles: I32, startTime: I64, lastSeen: I64, lastExitTime: I64, nextRestartTime: I64, cpuTimeUsec: U64,
    cpuPercent: U64, memoryBytes: U64, memoryPeakBytes: U64, memoryLimitBytes: U64, ioReadBytes: U64,
    ioWriteBytes: U64, gpuPercent: U64, gpuMemoryBytes: U64, oomKills: U32, cpuLimitPercent: U32)

  datatype GpuRecord = GpuRecord(
    name: Bytes, uuid: Bytes, index: U32, temperatureC: U32, utilizationPercent: U64,
    memoryUtilizationPercent: U64, memoryTotalBytes: U64, memoryUsedBytes: U64, powerMilliwatts: U32)

  datatype DetailedReport = DetailedReport(
    managerPid: I32, snapshotTime: I64, managerStartTime: I64, publishIntervalMs: U32, flags: U32,
    system: SystemRecord, hostName: Bytes, managerVersion: Bytes, services: seq<ServiceRecord>, gpus: seq<GpuRecord>)

  function StateByte(state: ServiceState): Byte {
    match state
    case Stopped => 0
    case Waiting => 1
    case Starting => 2
    case Running => 3
    case Unhealthy => 4
    case Stopping => 5
    case Backoff => 6
    case Failed => 7
  }

  function StateFromByte(value: Byte): ServiceState {
    if value == 1 then Waiting
    else if value == 2 then Starting
    else if value == 3 then Running
    else if value == 4 then Unhealthy
    else if value == 5 then Stopping
    else if value == 6 then Backoff
    else if value == 7 then Failed
    else Stopped
  }

  function ModeByte(mode: RestartMode): Byte {
    match mode
    case Never => 0
    case OnFailure => 1
    case Always => 2
  }

  function ModeFromByte(value: Byte): RestartMode {
    if value == 1 then OnFailure else if value == 2 then Always else Never
  }

  // ----- the layout

  /** The sizes a header declares; a later version may make them larger. */
  datatype Sizes = Sizes(header: U16, service: U16, gpu: U16)

  const OWN_SIZES := Sizes(HEADER_SIZE, SERVICE_SIZE, GPU_SIZE)

  function HeaderStart(r: DetailedReport, sizes: Sizes, services: U32, gpus: U32): (a: Bytes)
    ensures |a| == 48
  {
    ToBytes(MAGIC, 4) + ToBytes(VERSION, 2) + ToBytes(sizes.header, 2) + ToBytes(sizes.service, 2)
      + ToBytes(sizes.gpu, 2) + ToBytes(services, 4) + ToBytes(gpus, 4) + Int32Bytes(r.managerPid)
      + Int64Bytes(r.snapshotTime) + Int64Bytes(r.managerStartTime) + ToBytes(r.publishIntervalMs, 4)
      + ToBytes(r.flags, 4)
  }

  function AppendSystem(b: Bytes, s: SystemRecord): (a: Bytes)
    ensures |a| == |b| + 64
  {
    b + ToBytes(s.cpuPercent, 8) + ToBytes(s.memoryTotalBytes, 8) + ToBytes(s.memoryAvailableBytes, 8)
      + ToBytes(s.loadAverage1, 8) + ToBytes(s.loadAverage5, 8) + ToBytes(s.loadAverage15, 8)
      + ToBytes(s.uptimeSeconds, 8) + ToBytes(s.cpuCount, 4) + Zeros(4)
  }

  function Header(r: DetailedReport, sizes: Sizes, services: U32, gpus: U32): (a: Bytes)
    ensures |a| == HEADER_SIZE
  {
    AppendSystem(HeaderStart(r, sizes, services, gpus), r.system) + TextField(r.hostName, HOST_SIZE)
      + TextField(r.managerVersion, MANAGER_VERSION_SIZE)
  }

  function AppendIdentity(b: Bytes, r: ServiceRecord): (a: Bytes)
    ensures |a| == |b| + 256
  {
    b + TextField(r.name, NAME_SIZE) + TextField(r.binary, BINARY_SIZE)
      + TextField(r.description, DESCRIPTION_SIZE) + Int32Bytes(r.pid) + ToBytes(StateByte(r.state), 1)
      + ToBytes(ModeByte(r.restartMode), 1) + ToBytes(r.flags, 1) + Zeros(1) + Int32Bytes(r.restartCount)
      + Int32Bytes(r.missedBeats) + Int32Bytes(r.lastExitCode) + Int32Bytes(r.processCount)
      + Int32Bytes(r.threadCount) + Int32Bytes(r.openFiles)
  }

  function AppendFigures(b: Bytes, r: ServiceRecord): (a: Bytes)
    ensures |a| == |b| + 112
  {
    b + Int64Bytes(r.startTime) + Int64Bytes(r.lastSeen) + Int64Bytes(r.lastExitTime)
      + Int64Bytes(r.nextRestartTime) + ToBytes(r.cpuTimeUsec, 8) + ToBytes(r.cpuPercent, 8)
      + ToBytes(r.memoryBytes, 8) + ToBytes(r.memoryPeakBytes, 8) + ToBytes(r.memoryLimitBytes, 8)
      + ToBytes(r.ioReadBytes, 8) + ToBytes(r.ioWriteBytes, 8) + ToBytes(r.gpuPercent, 8)
      + ToBytes(r.gpuMemoryBytes, 8) + ToBytes(r.oomKills, 4) + ToBytes(r.cpuLimitPercent, 4)
  }

  /** The bytes so far, and the service record after them. */
  function AppendService(b: Bytes, r: ServiceRecord): (a: Bytes)
    ensures |a| == |b| + SERVICE_SIZE
  {
    AppendFigures(AppendIdentity(b, r), r)
  }

  function AppendGpu(b: Bytes, r: GpuRecord): (a: Bytes)
    ensures |a| == |b| + GPU_SIZE
  {
    b + TextField(r.name, GPU_NAME_SIZE) + TextField(r.uuid, GPU_UUID_SIZE) + ToBytes(r.index, 4)
      + ToBytes(r.temperatureC, 4) + ToBytes(r.utilizationPercent, 8) + ToBytes(r.memoryUtilizationPercent, 8)
      + ToBytes(r.memoryTotalBytes, 8) + ToBytes(r.memoryUsedBytes, 8) + ToBytes(r.powerMilliwatts, 4) + Zeros(4)
  }

  /** Every extra has the same size. */
  predicate AllOfSize(extras: seq<Bytes>, size: nat) {
    forall i :: 0 <= i < |extras| ==> |extras[i]| == size
  }

  /** Service records, each followed by its extra bytes. */
  function AppendServices(b: Bytes, records: seq<ServiceRecord>, extras: seq<Bytes>): Bytes
    requires |extras| == |records|
  {
    if records == [] then b
    else
      var n := |records| - 1;
      AppendService(AppendServices(b, records[..n], extras[..n]), records[n]) + extras[n]
  }

  function AppendGpus(b: Bytes, records: seq<GpuRecord>, extras: seq<Bytes>): Bytes
    requires |extras| == |records|
  {
    if records == [] then b
    else
      var n := |records| - 1;
      AppendGpu(AppendGpus(b, records[..n], extras[..n]), records[n]) + extras[n]
  }

  /** Bytes that a later version adds after the header and after each record. */
  datatype Extras = Extras(header: Bytes, services: seq<Bytes>, gpus: seq<Bytes>)

  /** A report as a writer of these sizes sends it. */
  predicate FitsExtras(r: DetailedReport, sizes: Sizes, x: Extras) {
    && |x.services| == |r.services| && |x.gpus| == |r.gpus|
    && sizes.header == HEADER_SIZE + |x.header|
    && sizes.service >= SERVICE_SIZE && AllOfSize(x.services, sizes.service - SERVICE_SIZE)
    && sizes.gpu >= GPU_SIZE && AllOfSize(x.gpus, sizes.gpu - GPU_SIZE)
  }

  /** A count as the header holds it. */
  function Count(n: nat): U32 {
    n % 0x1_0000_0000
  }

  predicate WithinLimit(r: DetailedReport) {
    |r.services| <= MAX_RECORDS && |r.gpus| <= MAX_RECORDS
  }

  function Message(r: DetailedReport, sizes: Sizes, x: Extras): Bytes
    requires FitsExtras(r, sizes, x)
  {
    var header := Header(r, sizes, Count(|r.services|), Count(|r.gpus|));
    AppendGpus(AppendServices(header + x.header, r.services, x.services), r.gpus, x.gpus)
  }

  function NoExtras(n: nat): (x: seq<Bytes>)
    ensures |x| == n && AllOfSize(x, 0)
  {
    seq(n, i => [])
  }

  /** The message of this version. */
  function OwnMessage(r: DetailedReport): Bytes {
    Message(r, OWN_SIZES, Extras([], NoExtras(|r.services|), NoExtras(|r.gpus|)))
  }

  // ----- reading

  function DecodeService(reader: WireReader): ServiceRecord {
    ServiceRecord(
      reader.Text(0, NAME_SIZE), reader.Text(32, BINARY_SIZE), reader.Text(160, DESCRIPTION_SIZE), reader.I32(224),
      StateFromByte(reader.U8(228)), ModeFromByte(reader.U8(229)), reader.U8(230), reader.I32(232), reader.I32(236),
      reader.I32(240), reader.I32(244), reader.I32(248), reader.I32(252), reader.I64(256), reader.I64(264),
      reader.I64(272), reader.I64(280), reader.U64(288), reader.U64(296), reader.U64(304), reader.U64(312),
      reader.U64(320), reader.U64(328), reader.U64(336), reader.U64(344), reader.U64(352), reader.U32(360),
      reader.U32(364))
  }

  function DecodeGpu(reader: WireReader): GpuRecord {
    GpuRecord(
      reader.Text(0, GPU_NAME_SIZE), reader.Text(64, GPU_UUID_SIZE), reader.U32(112), reader.U32(116),
      reader.U64(120), reader.U64(128), reader.U64(136), reader.U64(144), reader.U32(152))
  }

  function DecodeSystem(header: WireReader): SystemRecord {
    SystemRecord(header.U64(48), header.U32(104), header.U64(56), header.U64(64), header.U64(72), header.U64(80),
                 header.U64(88), header.U64(96))
  }

  function DecodeServices(payload: Bytes, base: nat, size: nat, count: nat): (r: seq<ServiceRecord>)
    ensures |r| == count
  {
    seq(count, i requires 0 <= i < count => DecodeService(WireReader(payload, base + i * size, size)))
  }

  function DecodeGpus(payload: Bytes, base: nat, size: nat, count: nat): (r: seq<GpuRecord>)
    ensures |r| == count
  {
    seq(count, i requires 0 <= i < count => DecodeGpu(WireReader(payload, base + i * size, size)))
  }

  datatype Decoded = Received(report: DetailedReport) | BadLength | BadMagic | UnsupportedVersion | BadLayout

  function SizesOf(header: WireReader): Sizes {
    Sizes(header.U16(6), header.U16(8), header.U16(10))
  }

  function DecodeBody(payload: Bytes, header: WireReader, sizes: Sizes, services: nat, gpus: nat): DetailedReport {
    DetailedReport(
      header.I32(20), header.I64(24), header.I64(32), header.U32(40), header.U32(44), DecodeSystem(header),
      header.Text(112, HOST_SIZE), header.Text(176, MANAGER_VERSION_SIZE),
      DecodeServices(payload, sizes.header, sizes.service, services),
      DecodeGpus(payload, sizes.header + services * sizes.service, sizes.gpu, gpus))
  }

  function Decode(payload: Bytes): Decoded {
    if |payload| < HEADER_SIZE then
      BadLength
    else
      var header := WireReader(payload, 0, |payload|);
      if header.U32(0) != MAGIC then
        BadMagic
      else if header.U16(4) != VERSION then
        UnsupportedVersion
      else
        var sizes, services, gpus := SizesOf(header), header.U32(12), header.U32(16);
        if sizes.header < HEADER_SIZE || sizes.service < SERVICE_SIZE || sizes.gpu < GPU_SIZE then
          BadLayout
        else if services > MAX_RECORDS || gpus > MAX_RECORDS then
          BadLength
        else if |payload| != sizes.header + services * sizes.service + gpus * sizes.gpu then
          BadLength
        else
          Received(DecodeBody(payload, header, sizes, services, gpus))
  }

  lemma NothingDecoded(payload: Bytes, base: nat, size: nat)
    ensures DecodeServices(payload, base, size, 0) == [] && DecodeGpus(payload, base, size, 0) == []
    ensures 0 * size == 0
  {}

  lemma OneMoreService(payload: Bytes, base: nat, size: nat, i: nat)
    ensures DecodeServices(payload, base, size, i + 1) ==
            DecodeServices(payload, base, size, i) + [DecodeService(WireReader(payload, base + i * size, size))]
    ensures (i + 1) * size == i * size + size
  {}

  lemma OneMoreGpu(payload: Bytes, base: nat, size: nat, i: nat)
    ensures DecodeGpus(payload, base, size, i + 1) ==
            DecodeGpus(payload, base, size, i) + [DecodeGpu(WireReader(payload, base + i * size, size))]
    ensures (i + 1) * size == i * size + size
  {}

  method DecodeReport(payload: Bytes) returns (r: Decoded)
    ensures r == Decode(payload)
  {
    hide DecodeService, DecodeGpu, DecodeSystem, DecodeServices, DecodeGpus, WireReader.U16, WireReader.U32;
    hide WireReader.I32, WireReader.I64, WireReader.Text;
    if |payload| < HEADER_SIZE {
      return BadLength;
    }
    var header := WireReader(payload, 0, |payload|);
    if header.U32(0) != MAGIC {
      return BadMagic;
    }
    if header.U16(4) != VERSION {
      return UnsupportedVersion;
    }
    var headerSize, recordSize, gpuSize := header.U16(6), header.U16(8), header.U16(10);
    var serviceCount, gpuCount := header.U32(12), header.U32(16);
    if headerSize < HEADER_SIZE || recordSize < SERVICE_SIZE || gpuSize < GPU_SIZE {
      return BadLayout;
    }
    if serviceCount > MAX_RECORDS || gpuCount > MAX_RECORDS {
      return BadLength;
    }
    if |payload| != headerSize + serviceCount * recordSize + gpuCount * gpuSize {
      return BadLength;
    }
    var base: nat := headerSize;
    var services: seq<ServiceRecord> := [];
    NothingDecoded(payload, base, recordSize);
    for i := 0 to serviceCount
      invariant base == headerSize + i * recordSize
      invariant services == DecodeServices(payload, headerSize, recordSize, i)
    {
      OneMoreService(payload, headerSize, recordSize, i);
      services := services + [DecodeService(WireReader(payload, base, recordSize))];
      base := base + recordSize;
    }
    ghost var gpuBase := base;
    var gpus: seq<GpuRecord> := [];
    NothingDecoded(payload, base, gpuSize);
    for i := 0 to gpuCount
      invariant base == gpuBase + i * gpuSize
      invariant gpus == DecodeGpus(payload, gpuBase, gpuSize, i)
    {
      OneMoreGpu(payload, gpuBase, gpuSize, i);
      gpus := gpus + [DecodeGpu(WireReader(payload, base, gpuSize))];
      base := base + gpuSize;
    }
    r := Received(DetailedReport(
      header.I32(20), header.I64(24), header.I64(32), header.U32(40), header.U32(44), DecodeSystem(header),
      header.Text(112, HOST_SIZE), header.Text(176, MANAGER_VERSION_SIZE), services, gpus));
  }

  // ----- writing

  method EncodeService(record: ServiceRecord, writer: WireWriter, base: nat, ghost image: Bytes)
    requires Filled(writer.bytes[..], image) && base == |image| && base + SERVICE_SIZE <= writer.bytes.Length
    modifies writer.bytes
    ensures Filled(writer.bytes[..], AppendService(image, record))
  {
    hide Filled, Put, Int32Bytes, Int64Bytes, TextField, ToBytes, Zeros;
    EncodeIdentity(record, writer, base, image);
    EncodeFigures(record, writer, base, AppendIdentity(image, record));
  }

  method EncodeIdentity(record: ServiceRecord, writer: WireWriter, base: nat, ghost image: Bytes)
    requires Filled(writer.bytes[..], image) && base == |image| && base + SERVICE_SIZE <= writer.bytes.Length
    modifies writer.bytes
    ensures Filled(writer.bytes[..], AppendIdentity(image, record))
  {
    hide Filled, Put, Int32Bytes, Int64Bytes, TextField, ToBytes, Zeros;
    writer.PutText(base + 0, NAME_SIZE, record.name);
    writer.PutText(base + 32, BINARY_SIZE, record.binary);
    writer.PutText(base + 160, DESCRIPTION_SIZE, record.description);
    writer.PutI32(base + 224, record.pid);
    writer.PutU8(base + 228, StateByte(record.state));
    writer.PutU8(base + 229, ModeByte(record.restartMode));
    writer.PutU8(base + 230, record.flags);
    ghost var flagged := image + TextField(record.name, NAME_SIZE) + TextField(record.binary, BINARY_SIZE)
                         + TextField(record.description, DESCRIPTION_SIZE) + Int32Bytes(record.pid)
                         + ToBytes(StateByte(record.state), 1) + ToBytes(ModeByte(record.restartMode), 1)
                         + ToBytes(record.flags, 1);
    Pad(writer.bytes[..], flagged, 1);
    writer.PutI32(base + 232, record.restartCount);
    writer.PutI32(base + 236, record.missedBeats);
    writer.PutI32(base + 240, record.lastExitCode);
    writer.PutI32(base + 244, record.processCount);
    writer.PutI32(base + 248, record.threadCount);
    writer.PutI32(base + 252, record.openFiles);
  }

  method EncodeFigures(record: ServiceRecord, writer: WireWriter, base: nat, ghost image: Bytes)
    requires Filled(writer.bytes[..], image) && base + 256 == |image| && base + SERVICE_SIZE <= writer.bytes.Length
    modifies writer.bytes
    ensures Filled(writer.bytes[..], AppendFigures(image, record))
  {
    hide Filled, Put, Int32Bytes, Int64Bytes, TextField, ToBytes, Zeros;
    writer.PutI64(base + 256, record.startTime);
    writer.PutI64(base + 264, record.lastSeen);
    writer.PutI64(base + 272, record.lastExitTime);
    writer.PutI64(base + 280, record.nextRestartTime);
    writer.PutU64(base + 288, record.cpuTimeUsec);
    writer.PutU64(base + 296, record.cpuPercent);
    writer.PutU64(base + 304, record.memoryBytes);
    writer.PutU64(base + 312, record.memoryPeakBytes);
    writer.PutU64(base + 320, record.memoryLimitBytes);
    writer.PutU64(base + 328, record.ioReadBytes);
    writer.PutU64(base + 336, record.ioWriteBytes);
    writer.PutU64(base + 344, record.gpuPercent);
    writer.PutU64(base + 352, record.gpuMemoryBytes);
    writer.PutU32(base + 360, record.oomKills);
    writer.PutU32(base + 364, record.cpuLimitPercent);
  }

  method EncodeGpu(record: GpuRecord, writer: WireWriter, base: nat, ghost image: Bytes)
    requires Filled(writer.bytes[..], image) && base == |image| && base + GPU_SIZE <= writer.bytes.Length
    modifies writer.bytes
    ensures Filled(writer.bytes[..], AppendGpu(image, record))
  {
    hide Filled, Put, Int32Bytes, Int64Bytes, TextField, ToBytes, Zeros;
    writer.PutText(base + 0, GPU_NAME_SIZE, record.name);
    writer.PutText(base + 64, GPU_UUID_SIZE, record.uuid);
    writer.PutU32(base + 112, record.index);
    writer.PutU32(base + 116, record.temperatureC);
    writer.PutU64(base + 120, record.utilizationPercent);
    writer.PutU64(base + 128, record.memoryUtilizationPercent);
    writer.PutU64(base + 136, record.memoryTotalBytes);
    writer.PutU64(base + 144, record.memoryUsedBytes);
    writer.PutU32(base + 152, record.powerMilliwatts);
    Pad(writer.bytes[..], image + TextField(record.name, GPU_NAME_SIZE) + TextField(record.uuid, GPU_UUID_SIZE)
                          + ToBytes(record.index, 4) + ToBytes(record.temperatureC, 4)
                          + ToBytes(record.utilizationPercent, 8) + ToBytes(record.memoryUtilizationPercent, 8)
                          + ToBytes(record.memoryTotalBytes, 8) + ToBytes(record.memoryUsedBytes, 8)
                          + ToBytes(record.powerMilliwatts, 4), 4);
  }

  method EncodeSystem(s: SystemRecord, writer: WireWriter, ghost image: Bytes)
    requires Filled(writer.bytes[..], image) && |image| == 48 && HEADER_SIZE <= writer.bytes.Length
    modifies writer.bytes
    ensures Filled(writer.bytes[..], AppendSystem(image, s))
  {
    hide Filled, Put, ToBytes, Zeros;
    writer.PutU64(48, s.cpuPercent);
    writer.PutU64(56, s.memoryTotalBytes);
    writer.PutU64(64, s.memoryAvailableBytes);
    writer.PutU64(72, s.loadAverage1);
    writer.PutU64(80, s.loadAverage5);
    writer.PutU64(88, s.loadAverage15);
    writer.PutU64(96, s.uptimeSeconds);
    writer.PutU32(104, s.cpuCount);
    Pad(writer.bytes[..], image + ToBytes(s.cpuPercent, 8) + ToBytes(s.memoryTotalBytes, 8)
                          + ToBytes(s.memoryAvailableBytes, 8) + ToBytes(s.loadAverage1, 8)
                          + ToBytes(s.loadAverage5, 8) + ToBytes(s.loadAverage15, 8) + ToBytes(s.uptimeSeconds, 8)
                          + ToBytes(s.cpuCount, 4), 4);
  }

  method EncodeHeader(report: DetailedReport, writer: WireWriter)
    requires Filled(writer.bytes[..], []) && HEADER_SIZE <= writer.bytes.Length
    modifies writer.bytes
    ensures Filled(writer.bytes[..], Header(report, OWN_SIZES, Count(|report.services|), Count(|report.gpus|)))
  {
    hide Filled, Put, Int32Bytes, Int64Bytes, TextField, ToBytes, Zeros, AppendSystem;
    writer.PutU32(0, MAGIC);
    assert [] + ToBytes(MAGIC, 4) == ToBytes(MAGIC, 4);
    writer.PutU16(4, VERSION);
    writer.PutU16(6, HEADER_SIZE);
    writer.PutU16(8, SERVICE_SIZE);
    writer.PutU16(10, GPU_SIZE);
    writer.PutU32(12, Count(|report.services|));
    writer.PutU32(16, Count(|report.gpus|));
    writer.PutI32(20, report.managerPid);
    writer.PutI64(24, report.snapshotTime);
    writer.PutI64(32, report.managerStartTime);
    writer.PutU32(40, report.publishIntervalMs);
    writer.PutU32(44, report.flags);
    EncodeSystem(report.system, writer, HeaderStart(report, OWN_SIZES, Count(|report.services|), Count(|report.gpus|)));
    writer.PutText(112, HOST_SIZE, report.hostName);
    writer.PutText(176, MANAGER_VERSION_SIZE, report.managerVersion);
  }

  method EncodeReport(report: DetailedReport) returns (message: Bytes)
    ensures message == OwnMessage(report)
  {
    hide Filled, Header, AppendService, AppendGpu, AppendServices, AppendGpus;
    var total := HEADER_SIZE + |report.services| * SERVICE_SIZE + |report.gpus| * GPU_SIZE;
    var writer := new WireWriter(total);
    NothingFilled(total);
    EncodeHeader(report, writer);
    ghost var image := Header(report, OWN_SIZES, Count(|report.services|), Count(|report.gpus|));
    ServicesSoFar(image, report.services, 0);
    var base := HEADER_SIZE;
    for i := 0 to |report.services|
      invariant fresh(writer.bytes) && writer.bytes.Length == total
      invariant base == HEADER_SIZE + i * SERVICE_SIZE
      invariant Filled(writer.bytes[..], OwnServices(image, report.services[..i]))
    {
      ServicesSoFar(image, report.services, i);
      EncodeService(report.services[i], writer, base, OwnServices(image, report.services[..i]));
      base := base + SERVICE_SIZE;
    }
    assert report.services[..|report.services|] == report.services;
    ServicesSoFar(image, report.services, |report.services|);
    image := OwnServices(image, report.services);
    GpusSoFar(image, report.gpus, 0);
    for i := 0 to |report.gpus|
      invariant fresh(writer.bytes) && writer.bytes.Length == total
      invariant base == HEADER_SIZE + |report.services| * SERVICE_SIZE + i * GPU_SIZE
      invariant Filled(writer.bytes[..], OwnGpus(image, report.gpus[..i]))
    {
      GpusSoFar(image, report.gpus, i);
      EncodeGpu(report.gpus[i], writer, base, OwnGpus(image, report.gpus[..i]));
      base := base + GPU_SIZE;
    }
    assert report.gpus[..|report.gpus|] == report.gpus;
    GpusSoFar(image, report.gpus, |report.gpus|);
    FilledWhole(writer.bytes[..], OwnGpus(image, report.gpus));
    message := writer.TakeBytes();
    assert Header(report, OWN_SIZES, Count(|report.services|), Count(|report.gpus|)) + [] ==
           Header(report, OWN_SIZES, Count(|report.services|), Count(|report.gpus|));
  }

  function OwnServices(b: Bytes, records: seq<ServiceRecord>): Bytes {
    AppendServices(b, records, NoExtras(|records|))
  }

  function OwnGpus(b: Bytes, records: seq<GpuRecord>): Bytes {
    AppendGpus(b, records, NoExtras(|records|))
  }

  lemma ServicesSoFar(b: Bytes, records: seq<ServiceRecord>, i: nat)
    requires i <= |records|
    ensures OwnServices(b, records[..0]) == b
    ensures |OwnServices(b, records[..i])| == |b| + i * SERVICE_SIZE
    ensures i < |records| ==>
              OwnServices(b, records[..i + 1]) == AppendService(OwnServices(b, records[..i]), records[i])
  {
    hide AppendService;
    if i > 0 {
      ServicesSoFar(b, records, i - 1);
    }
    if i < |records| {
      assert records[..i + 1][..i] == records[..i];
      assert NoExtras(i + 1)[..i] == NoExtras(i);
      assert AppendService(OwnServices(b, records[..i]), records[i]) + [] ==
             AppendService(OwnServices(b, records[..i]), records[i]);
    }
  }

  lemma GpusSoFar(b: Bytes, records: seq<GpuRecord>, i: nat)
    requires i <= |records|
    ensures OwnGpus(b, records[..0]) == b
    ensures |OwnGpus(b, records[..i])| == |b| + i * GPU_SIZE
    ensures i < |records| ==> OwnGpus(b, records[..i + 1]) == AppendGpu(OwnGpus(b, records[..i]), records[i])
  {
    hide AppendGpu;
    if i > 0 {
      GpusSoFar(b, records, i - 1);
    }
    if i < |records| {
      assert records[..i + 1][..i] == records[..i];
      assert NoExtras(i + 1)[..i] == NoExtras(i);
      assert AppendGpu(OwnGpus(b, records[..i]), records[i]) + [] == AppendGpu(OwnGpus(b, records[..i]), records[i]);
    }
  }

  // ----- round trips

  /** What comes back: only texts may be cut, each to its field. */
  function FittedService(r: ServiceRecord): ServiceRecord {
    r.(name := CutText(r.name, NAME_SIZE), binary := CutText(r.binary, BINARY_SIZE),
       description := CutText(r.description, DESCRIPTION_SIZE))
  }

  function FittedGpu(r: GpuRecord): GpuRecord {
    r.(name := CutText(r.name, GPU_NAME_SIZE), uuid := CutText(r.uuid, GPU_UUID_SIZE))
  }

  function Fitted(r: DetailedReport): DetailedReport {
    r.(hostName := CutText(r.hostName, HOST_SIZE), managerVersion := CutText(r.managerVersion, MANAGER_VERSION_SIZE),
       services := seq(|r.services|, i requires 0 <= i < |r.services| => FittedService(r.services[i])),
       gpus := seq(|r.gpus|, i requires 0 <= i < |r.gpus| => FittedGpu(r.gpus[i])))
  }

  predicate SameIdentity(x: ServiceRecord, y: ServiceRecord) {
    && x.name == y.name && x.binary == y.binary && x.description == y.description && x.pid == y.pid
    && x.state == y.state && x.restartMode == y.restartMode && x.flags == y.flags
    && x.restartCount == y.restartCount && x.missedBeats == y.missedBeats && x.lastExitCode == y.lastExitCode
    && x.processCount == y.processCount && x.threadCount == y.threadCount && x.openFiles == y.openFiles
  }

  predicate SameFigures(x: ServiceRecord, y: ServiceRecord) {
    && x.startTime == y.startTime && x.lastSeen == y.lastSeen && x.lastExitTime == y.lastExitTime
    && x.nextRestartTime == y.nextRestartTime && x.cpuTimeUsec == y.cpuTimeUsec && x.cpuPercent == y.cpuPercent
    && x.memoryBytes == y.memoryBytes && x.memoryPeakBytes == y.memoryPeakBytes
    && x.memoryLimitBytes == y.memoryLimitBytes && x.ioReadBytes == y.ioReadBytes
    && x.ioWriteBytes == y.ioWriteBytes && x.gpuPercent == y.gpuPercent && x.gpuMemoryBytes == y.gpuMemoryBytes
    && x.oomKills == y.oomKills && x.cpuLimitPercent == y.cpuLimitPercent
  }

  lemma ReadsIdentity(payload: Bytes, b: Bytes, r: ServiceRecord, size: nat)
    requires AppendIdentity(b, r) <= payload && size >= SERVICE_SIZE && |payload| >= |b| + SERVICE_SIZE
    ensures SameIdentity(DecodeService(WireReader(payload, |b|, size)), FittedService(r)) && b <= payload
  {
    hide TextField, Int32Bytes, Int64Bytes, ToBytes, CutText, At, Zeros, WireReader.U8, WireReader.U32;
    hide WireReader.U64, WireReader.I32, WireReader.I64, WireReader.Text;
    var reader := WireReader(payload, |b|, size);
    StartsAt(payload, AppendIdentity(b, r));
    PartsLie(payload);
    ReadsBack(reader);
    AtStart(payload, b);
  }

  lemma ReadsFigures(payload: Bytes, b: Bytes, r: ServiceRecord, base: nat, size: nat)
    requires AppendFigures(b, r) <= payload && size >= SERVICE_SIZE && |b| == base + 256
    ensures SameFigures(DecodeService(WireReader(payload, base, size)), r) && b <= payload
  {
    hide TextField, Int32Bytes, Int64Bytes, ToBytes, CutText, At, Zeros, WireReader.U8, WireReader.U32;
    hide WireReader.U64, WireReader.I32, WireReader.I64, WireReader.Text;
    var reader := WireReader(payload, base, size);
    StartsAt(payload, AppendFigures(b, r));
    PartsLie(payload);
    ReadsBack(reader);
    AtStart(payload, b);
  }

  lemma ReadsService(payload: Bytes, b: Bytes, r: ServiceRecord, size: nat)
    requires AppendService(b, r) <= payload && size >= SERVICE_SIZE
    ensures DecodeService(WireReader(payload, |b|, size)) == FittedService(r) && b <= payload
  {
    hide AppendIdentity, AppendFigures, DecodeService;
    ReadsFigures(payload, AppendIdentity(b, r), r, |b|, size);
    ReadsIdentity(payload, b, r, size);
  }

  lemma ReadsGpu(payload: Bytes, b: Bytes, r: GpuRecord, size: nat)
    requires AppendGpu(b, r) <= payload && size >= GPU_SIZE
    ensures DecodeGpu(WireReader(payload, |b|, size)) == FittedGpu(r) && b <= payload
  {
    hide TextField, Int32Bytes, Int64Bytes, ToBytes, CutText, At, Zeros, WireReader.U8, WireReader.U32;
    hide WireReader.U64, WireReader.I32, WireReader.I64, WireReader.Text;
    var reader := WireReader(payload, |b|, size);
    StartsAt(payload, AppendGpu(b, r));
    PartsLie(payload);
    ReadsBack(reader);
    AtStart(payload, b);
  }

  lemma {:induction false} ReadsServices(payload: Bytes, b: Bytes, records: seq<ServiceRecord>, extras: seq<Bytes>,
                                         size: nat)
    requires |extras| == |records| && size >= SERVICE_SIZE && AllOfSize(extras, size - SERVICE_SIZE)
    requires AppendServices(b, records, extras) <= payload
    ensures |AppendServices(b, records, extras)| == |b| + |records| * size && b <= payload
    ensures forall i {:trigger records[i]} :: 0 <= i < |records| ==>
              DecodeService(WireReader(payload, |b| + i * size, size)) == FittedService(records[i])
    decreases |records|
  {
    hide DecodeService, FittedService, AppendService;
    if records != [] {
      var n := |records| - 1;
      var front := AppendServices(b, records[..n], extras[..n]);
      assert AppendService(front, records[n]) <= payload;
      ReadsService(payload, front, records[n], size);
      ReadsServices(payload, b, records[..n], extras[..n], size);
      assert |records| * size == n * size + size;
      forall i | 0 <= i < |records|
        ensures DecodeService(WireReader(payload, |b| + i * size, size)) == FittedService(records[i])
      {
        if i < n {
          assert records[..n][i] == records[i];
        }
      }
    }
  }

  lemma {:induction false} ReadsGpus(payload: Bytes, b: Bytes, records: seq<GpuRecord>, extras: seq<Bytes>, size: nat)
    requires |extras| == |records| && size >= GPU_SIZE && AllOfSize(extras, size - GPU_SIZE)
    requires AppendGpus(b, records, extras) <= payload
    ensures |AppendGpus(b, records, extras)| == |b| + |records| * size && b <= payload
    ensures forall i {:trigger records[i]} :: 0 <= i < |records| ==>
              DecodeGpu(WireReader(payload, |b| + i * size, size)) == FittedGpu(records[i])
    decreases |records|
  {
    hide DecodeGpu, FittedGpu, AppendGpu;
    if records != [] {
      var n := |records| - 1;
      var front := AppendGpus(b, records[..n], extras[..n]);
      assert AppendGpu(front, records[n]) <= payload;
      ReadsGpu(payload, front, records[n], size);
      ReadsGpus(payload, b, records[..n], extras[..n], size);
      assert |records| * size == n * size + size;
      forall i | 0 <= i < |records|
        ensures DecodeGpu(WireReader(payload, |b| + i * size, size)) == FittedGpu(records[i])
      {
        if i < n {
          assert records[..n][i] == records[i];
        }
      }
    }
  }

  /** Every field of the header is read back from where it was written. */
  lemma ReadsHeader(payload: Bytes, r: DetailedReport, sizes: Sizes, services: U32, gpus: U32)
    requires Header(r, sizes, services, gpus) <= payload
    ensures var h := WireReader(payload, 0, |payload|);
            && h.U32(0) == MAGIC && h.U16(4) == VERSION && SizesOf(h) == sizes
            && h.U32(12) == services && h.U32(16) == gpus
            && h.I32(20) == r.managerPid && h.I64(24) == r.snapshotTime && h.I64(32) == r.managerStartTime
            && h.U32(40) == r.publishIntervalMs && h.U32(44) == r.flags && DecodeSystem(h) == r.system
            && h.Text(112, HOST_SIZE) == CutText(r.hostName, HOST_SIZE)
            && h.Text(176, MANAGER_VERSION_SIZE) == CutText(r.managerVersion, MANAGER_VERSION_SIZE)
  {
    hide TextField, Int32Bytes, Int64Bytes, ToBytes, CutText, At, Zeros, WireReader.U16, WireReader.U32;
    hide WireReader.U64, WireReader.I32, WireReader.I64, WireReader.Text;
    StartsAt(payload, Header(r, sizes, services, gpus));
    PartsLie(payload);
    ReadsBack(WireReader(payload, 0, |payload|));
  }

  /**
   Round trip and forward compatibility: whatever sizes the header declares and whatever bytes a
   later version adds after the header and after every record, the same report is read, with
   nothing changed but texts cut to their fields.
   */
  lemma ReportComesBack(r: DetailedReport, sizes: Sizes, x: Extras)
    requires FitsExtras(r, sizes, x) && WithinLimit(r)
    ensures Decode(Message(r, sizes, x)) == Received(Fitted(r))
  {
    hide Header, DecodeService, DecodeGpu, DecodeSystem, FittedService, FittedGpu, AppendServices, AppendGpus;
    hide CutText, WireReader.U16, WireReader.U32, WireReader.I32, WireReader.I64, WireReader.Text;
    var payload := Message(r, sizes, x);
    var header := Header(r, sizes, |r.services|, |r.gpus|);
    var services := AppendServices(header + x.header, r.services, x.services);
    ReadsGpus(payload, services, r.gpus, x.gpus, sizes.gpu);
    ReadsServices(payload, header + x.header, r.services, x.services, sizes.service);
    assert header <= payload;
    ReadsHeader(payload, r, sizes, |r.services|, |r.gpus|);
    var reader := WireReader(payload, 0, |payload|);
    SameServices(payload, sizes, r);
    SameGpus(payload, sizes, r);
    assert Decode(payload) == Received(DecodeBody(payload, reader, sizes, |r.services|, |r.gpus|));
  }

  lemma SameServices(payload: Bytes, sizes: Sizes, r: DetailedReport)
    requires forall i {:trigger r.services[i]} :: 0 <= i < |r.services| ==>
               DecodeService(WireReader(payload, sizes.header + i * sizes.service, sizes.service)) ==
               FittedService(r.services[i])
    ensures DecodeServices(payload, sizes.header, sizes.service, |r.services|) == Fitted(r).services
  {
    hide DecodeService, FittedService;
    var a, b := DecodeServices(payload, sizes.header, sizes.service, |r.services|), Fitted(r).services;
    forall i | 0 <= i < |r.services|
      ensures a[i] == b[i]
    {
      assert r.services[i] == r.services[i];
    }
  }

  lemma SameGpus(payload: Bytes, sizes: Sizes, r: DetailedReport)
    requires forall i {:trigger r.gpus[i]} :: 0 <= i < |r.gpus| ==>
               DecodeGpu(WireReader(payload, sizes.header + |r.services| * sizes.service + i * sizes.gpu, sizes.gpu)) ==
               FittedGpu(r.gpus[i])
    ensures DecodeGpus(payload, sizes.header + |r.services| * sizes.service, sizes.gpu, |r.gpus|) == Fitted(r).gpus
  {
    hide DecodeGpu, FittedGpu;
    var a, b := DecodeGpus(payload, sizes.header + |r.services| * sizes.service, sizes.gpu, |r.gpus|), Fitted(r).gpus;
    forall i | 0 <= i < |r.gpus|
      ensures a[i] == b[i]
    {
      assert r.gpus[i] == r.gpus[i];
    }
  }

  /** What this version writes, it reads, unless there are too many records; then it is refused. */
  lemma OwnReportComesBack(r: DetailedReport)
    requires |r.services| < 0x1_0000_0000 && |r.gpus| < 0x1_0000_0000
    ensures Decode(OwnMessage(r)) == if WithinLimit(r) then Received(Fitted(r)) else BadLength
  {
    hide Message, Fitted, Decode, Header;
    var x := Extras([], NoExtras(|r.services|), NoExtras(|r.gpus|));
    if WithinLimit(r) {
      ReportComesBack(r, OWN_SIZES, x);
    } else {
      StartsWithHeader(r, OWN_SIZES, x);
      TooManyRefused(OwnMessage(r), r, OWN_SIZES, |r.services|, |r.gpus|);
    }
  }

  lemma TooManyRefused(payload: Bytes, r: DetailedReport, sizes: Sizes, services: U32, gpus: U32)
    requires Header(r, sizes, services, gpus) <= payload
    requires sizes.header >= HEADER_SIZE && sizes.service >= SERVICE_SIZE && sizes.gpu >= GPU_SIZE
    requires services > MAX_RECORDS || gpus > MAX_RECORDS
    ensures Decode(payload) == BadLength
  {
    hide Header, DecodeBody, DecodeSystem, WireReader.U16, WireReader.U32, WireReader.I32, WireReader.I64;
    hide WireReader.Text;
    ReadsHeader(payload, r, sizes, services, gpus);
  }

  lemma StartsWithHeader(r: DetailedReport, sizes: Sizes, x: Extras)
    requires FitsExtras(r, sizes, x)
    ensures Header(r, sizes, Count(|r.services|), Count(|r.gpus|)) <= Message(r, sizes, x)
  {
    hide Header, AppendServices, AppendGpus;
    var payload := Message(r, sizes, x);
    var header := Header(r, sizes, Count(|r.services|), Count(|r.gpus|));
    ReadsGpus(payload, AppendServices(header + x.header, r.services, x.services), r.gpus, x.gpus, sizes.gpu);
    ReadsServices(payload, header + x.header, r.services, x.services, sizes.service);
  }
}
