/**
 Any payload against the tables of the published protocol: what a reader makes of it, whoever wrote it,
 and exactly which payloads are refused.
 */
module Payloads {
  import opened Utf8
  import opened Wire
  import opened Protocol
  import HealthRecords
  import Reports
  import Commands

  /** The text of a field: what stands before its first zero, or all of it when it has none. */
  predicate ShowsText(b: Bytes, offset: nat, size: nat, text: Bytes) {
    && |text| <= size && offset + size <= |b| && b[offset..offset + |text|] == text
    && (forall k :: 0 <= k < |text| ==> text[k] != 0)
    && (|text| < size ==> b[offset + |text|] == 0)
  }

  /** The part lies within the buffer. */
  predicate Whole(r: WireReader) {
    r.base + r.size <= |r.bytes|
  }

  lemma NumberIs(r: WireReader, offset: nat, n: nat)
    requires Whole(r) && n > 0 && offset + n <= r.size
    ensures r.Number(offset, n) == ValueAt(r.bytes, r.base + offset, n)
    ensures Holds(r.bytes, r.base + offset, n, r.Number(offset, n))
  {
    ValueIs(r.bytes, r.base + offset, n);
  }

  lemma SignedIs(r: WireReader, offset: nat, n: nat)
    requires Whole(r) && n > 0 && offset + n <= r.size
    ensures Holds(r.bytes, r.base + offset, n, Signed(r.Number(offset, n), n))
  {
    NumberIs(r, offset, n);
    FromBytesFits(r.bytes[r.base + offset..r.base + offset + n]);
  }

  lemma TextIs(r: WireReader, offset: nat, n: nat)
    requires Whole(r) && n > 0 && offset + n <= r.size
    ensures ShowsText(r.bytes, r.base + offset, n, r.Text(offset, n))
  {
    var field := r.bytes[r.base + offset..r.base + offset + n];
    var text := UntilNul(field);
    assert r.bytes[r.base + offset..r.base + offset + |text|] == field[..|text|];
  }

  /** All of that at once. */
  lemma FieldsRead(r: WireReader)
    requires Whole(r)
    ensures forall i: nat {:trigger r.U8(i)} :: i + 1 <= r.size ==> Holds(r.bytes, r.base + i, 1, r.U8(i))
    ensures forall i: nat {:trigger r.U16(i)} :: i + 2 <= r.size ==> Holds(r.bytes, r.base + i, 2, r.U16(i))
    ensures forall i: nat {:trigger r.U32(i)} :: i + 4 <= r.size ==> Holds(r.bytes, r.base + i, 4, r.U32(i))
    ensures forall i: nat {:trigger r.U64(i)} :: i + 8 <= r.size ==> Holds(r.bytes, r.base + i, 8, r.U64(i))
    ensures forall i: nat {:trigger r.I32(i)} :: i + 4 <= r.size ==> Holds(r.bytes, r.base + i, 4, r.I32(i))
    ensures forall i: nat {:trigger r.I64(i)} :: i + 8 <= r.size ==> Holds(r.bytes, r.base + i, 8, r.I64(i))
    ensures forall i: nat, n: nat {:trigger r.Text(i, n)} ::
              n > 0 && i + n <= r.size ==> ShowsText(r.bytes, r.base + i, n, r.Text(i, n))
  {
    hide Holds, ShowsText, Signed;
    forall i: nat, n: nat | n > 0 && i + n <= r.size
      ensures Holds(r.bytes, r.base + i, n, r.Number(i, n))
      ensures Holds(r.bytes, r.base + i, n, Signed(r.Number(i, n), n))
      ensures ShowsText(r.bytes, r.base + i, n, r.Text(i, n))
    {
      NumberIs(r, i, n);
      SignedIs(r, i, n);
      TextIs(r, i, n);
    }
  }

  // ----- the health message

  /** A health record as it stands in the payload; an unlisted code is an unknown state. */
  predicate ShowsHealth(b: Bytes, base: nat, r: HealthRecords.HealthRecord) {
    && base + 128 <= |b| && ShowsText(b, base, 64, r.processName) && HealthNumbers(b, base, r)
    && if b[base + 88] <= 4 then HealthCode(r.state) == b[base + 88] else r.state.Unknown?
  }

  lemma HealthIsRead(b: Bytes, base: nat)
    requires base + 128 <= |b|
    ensures ShowsHealth(b, base, HealthRecords.DecodeOne(WireReader(b, base, 128)))
  {
    hide Holds, ShowsText, WireReader.U8, WireReader.I32, WireReader.I64, WireReader.U64, WireReader.Text;
    var reader := WireReader(b, base, 128);
    FieldsRead(reader);
    OneByte(b, base + 88);
  }

  lemma OneByte(b: Bytes, offset: nat)
    requires offset < |b|
    ensures forall value: nat :: Holds(b, offset, 1, value) ==> value == b[offset]
  {
    assert ValueAt(b, offset, 1) == b[offset] + 256 * ValueAt(b, offset + 1, 0);
  }

  /** A payload that is exactly a count below 10000 and as many records. */
  predicate IsCounted(payload: Bytes) {
    |payload| >= 4 && ValueAt(payload, 0, 4) < 10_000 && |payload| == 4 + 128 * ValueAt(payload, 0, 4)
  }

  lemma CountedIs(payload: Bytes)
    ensures HealthRecords.IsPrefixed(payload) <==> IsCounted(payload)
    ensures |payload| >= 4 ==> WireReader(payload, 0, 4).U32(0) == ValueAt(payload, 0, 4)
  {
    if |payload| >= 4 {
      NumberIs(WireReader(payload, 0, 4), 0, 4);
    }
  }

  /**
   A health message is read as the records that stand in it, with or without the count before them, and
   refused exactly when it has no count that fits and its length is no multiple of the record size.
   */
  lemma AnyHealthMessage(payload: Bytes)
    ensures match HealthRecords.Decode(payload)
            case Records(records) =>
              var base := if IsCounted(payload) then 4 else 0;
              && |payload| == base + 128 * |records|
              && forall k :: 0 <= k < |records| ==> ShowsHealth(payload, base + 128 * k, records[k])
            case BadLength => !IsCounted(payload) && |payload| % 128 != 0
  {
    hide ShowsHealth, HealthRecords.DecodeOne, HealthRecords.IsPrefixed, IsCounted;
    CountedIs(payload);
    CountedLength(payload);
    match HealthRecords.Decode(payload)
    case Records(records) =>
      var base := if IsCounted(payload) then 4 else 0;
      forall k | 0 <= k < |records|
        ensures ShowsHealth(payload, base + 128 * k, records[k])
      {
        HealthIsRead(payload, base + 128 * k);
      }
    case BadLength =>
  }

  lemma CountedLength(payload: Bytes)
    ensures IsCounted(payload) ==> |payload| >= 4 && |payload| == 4 + 128 * ValueAt(payload, 0, 4)
  {}

  // ----- the detailed report

  /** A service record as it stands in the payload; unlisted codes are a stopped service and no restarts. */
  predicate ShowsIdentity(b: Bytes, base: nat, r: Reports.ServiceRecord) {
    && base + 368 <= |b| && IdentityNumbers(b, base, r)
    && ShowsText(b, base, 32, r.name) && ShowsText(b, base + 32, 128, r.binary)
    && ShowsText(b, base + 160, 64, r.description)
    && (if b[base + 228] <= 7 then StateCode(r.state) == b[base + 228] else r.state.Stopped?)
    && if b[base + 229] <= 2 then ModeCode(r.restartMode) == b[base + 229] else r.restartMode.Never?
  }

  predicate ShowsGpu(b: Bytes, base: nat, r: Reports.GpuRecord) {
    ShowsText(b, base, 64, r.name) && ShowsText(b, base + 64, 48, r.uuid) && GpuNumbers(b, base, r)
  }

  predicate ShowsHeader(b: Bytes, r: Reports.DetailedReport) {
    HeaderNumbers(b, r) && ShowsText(b, 112, 64, r.hostName) && ShowsText(b, 176, 16, r.managerVersion)
  }

  lemma IdentityIsRead(b: Bytes, base: nat, size: nat)
    requires 368 <= size && base + size <= |b|
    ensures ShowsIdentity(b, base, Reports.DecodeService(WireReader(b, base, size)))
  {
    hide Holds, ShowsText, WireReader.U8, WireReader.U32, WireReader.I32, WireReader.I64, WireReader.U64;
    hide WireReader.Text;
    FieldsRead(WireReader(b, base, size));
    OneByte(b, base + 228);
    OneByte(b, base + 229);
  }

  lemma FiguresAreRead(b: Bytes, base: nat, size: nat)
    requires 368 <= size && base + size <= |b|
    ensures FiguresTable(b, base, Reports.DecodeService(WireReader(b, base, size)))
  {
    hide Holds, ShowsText, WireReader.U8, WireReader.U32, WireReader.I32, WireReader.I64, WireReader.U64;
    hide WireReader.Text;
    FieldsRead(WireReader(b, base, size));
  }

  lemma GpuIsRead(b: Bytes, base: nat, size: nat)
    requires 160 <= size && base + size <= |b|
    ensures ShowsGpu(b, base, Reports.DecodeGpu(WireReader(b, base, size)))
  {
    hide Holds, ShowsText, WireReader.U8, WireReader.U32, WireReader.I32, WireReader.I64, WireReader.U64;
    hide WireReader.Text;
    FieldsRead(WireReader(b, base, size));
  }

  lemma HeaderIsRead(b: Bytes, sizes: Reports.Sizes, services: nat, gpus: nat)
    requires 192 <= |b|
    ensures ShowsHeader(b, Reports.DecodeBody(b, WireReader(b, 0, |b|), sizes, services, gpus))
  {
    hide Holds, ShowsText, WireReader.U8, WireReader.U32, WireReader.I32, WireReader.I64, WireReader.U64;
    hide WireReader.Text, Reports.DecodeServices, Reports.DecodeGpus;
    FieldsRead(WireReader(b, 0, |b|));
  }

  // What the header of a payload says of the layout.
  function Magic(b: Bytes): nat requires 192 <= |b| { ValueAt(b, 0, 4) }
  function Version(b: Bytes): nat requires 192 <= |b| { ValueAt(b, 4, 2) }
  function HeaderSize(b: Bytes): nat requires 192 <= |b| { ValueAt(b, 6, 2) }
  function ServiceSize(b: Bytes): nat requires 192 <= |b| { ValueAt(b, 8, 2) }
  function GpuSize(b: Bytes): nat requires 192 <= |b| { ValueAt(b, 10, 2) }
  function ServiceCount(b: Bytes): nat requires 192 <= |b| { ValueAt(b, 12, 4) }
  function GpuCount(b: Bytes): nat requires 192 <= |b| { ValueAt(b, 16, 4) }

  lemma LayoutIsRead(b: Bytes)
    requires 192 <= |b|
    ensures var header := WireReader(b, 0, |b|);
            && header.U32(0) == Magic(b) && header.U16(4) == Version(b)
            && Reports.SizesOf(header) == Reports.Sizes(HeaderSize(b), ServiceSize(b), GpuSize(b))
            && header.U32(12) == ServiceCount(b) && header.U32(16) == GpuCount(b)
  {
    hide ValueAt, WireReader.Number;
    var header := WireReader(b, 0, |b|);
    NumberIs(header, 0, 4);
    NumberIs(header, 4, 2);
    NumberIs(header, 6, 2);
    NumberIs(header, 8, 2);
    NumberIs(header, 10, 2);
    NumberIs(header, 12, 4);
    NumberIs(header, 16, 4);
  }

  /** The sizes a payload declares are not smaller than those of this version. */
  predicate IsLargeEnough(b: Bytes)
    requires 192 <= |b|
  {
    192 <= HeaderSize(b) && 368 <= ServiceSize(b) && 160 <= GpuSize(b)
  }

  /** Where the k-th of the records of this size stands. */
  function Place(base: nat, size: nat, k: nat): nat {
    base + k * size
  }

  function GpuBase(b: Bytes): nat
    requires 192 <= |b|
  {
    Place(HeaderSize(b), ServiceSize(b), ServiceCount(b))
  }

  /** It is as long as it says, and has no more records than are allowed. */
  predicate IsWholeReport(b: Bytes)
    requires 192 <= |b|
  {
    ServiceCount(b) <= 100_000 && GpuCount(b) <= 100_000 && |b| == Place(GpuBase(b), GpuSize(b), GpuCount(b))
  }

  lemma PlaceFits(base: nat, size: nat, count: nat, k: nat)
    requires k < count
    ensures Place(base, size, k) + size <= Place(base, size, count)
  {
    assert (k + 1) * size == k * size + size;
    assert (k + 1) * size <= count * size;
  }

  predicate ShowsServices(b: Bytes, base: nat, size: nat, records: seq<Reports.ServiceRecord>) {
    forall k :: 0 <= k < |records| ==>
      ShowsIdentity(b, Place(base, size, k), records[k]) && FiguresTable(b, Place(base, size, k), records[k])
  }

  predicate ShowsGpus(b: Bytes, base: nat, size: nat, records: seq<Reports.GpuRecord>) {
    forall k :: 0 <= k < |records| ==> ShowsGpu(b, Place(base, size, k), records[k])
  }

  lemma ServicesAreRead(b: Bytes, base: nat, size: nat, count: nat)
    requires 368 <= size && Place(base, size, count) <= |b|
    ensures ShowsServices(b, base, size, Reports.DecodeServices(b, base, size, count))
  {
    hide ShowsIdentity, FiguresTable, Reports.DecodeService;
    forall k | 0 <= k < count
      ensures var r := Reports.DecodeServices(b, base, size, count)[k];
              ShowsIdentity(b, Place(base, size, k), r) && FiguresTable(b, Place(base, size, k), r)
    {
      PlaceFits(base, size, count, k);
      IdentityIsRead(b, Place(base, size, k), size);
      FiguresAreRead(b, Place(base, size, k), size);
    }
  }

  lemma GpusAreRead(b: Bytes, base: nat, size: nat, count: nat)
    requires 160 <= size && Place(base, size, count) <= |b|
    ensures ShowsGpus(b, base, size, Reports.DecodeGpus(b, base, size, count))
  {
    hide ShowsGpu, Reports.DecodeGpu;
    forall k | 0 <= k < count
      ensures ShowsGpu(b, Place(base, size, k), Reports.DecodeGpus(b, base, size, count)[k])
    {
      PlaceFits(base, size, count, k);
      GpuIsRead(b, Place(base, size, k), size);
    }
  }

  /** The report that stands in a payload. */
  predicate ShowsReport(b: Bytes, r: Reports.DetailedReport)
    requires 192 <= |b|
  {
    && ShowsHeader(b, r) && |r.services| == ServiceCount(b) && |r.gpus| == GpuCount(b)
    && ShowsServices(b, HeaderSize(b), ServiceSize(b), r.services) && ShowsGpus(b, GpuBase(b), GpuSize(b), r.gpus)
  }

  lemma ReportIsRead(b: Bytes, sizes: Reports.Sizes)
    requires 192 <= |b| && IsLargeEnough(b) && IsWholeReport(b)
    requires sizes == Reports.Sizes(HeaderSize(b), ServiceSize(b), GpuSize(b))
    ensures ShowsReport(b, Reports.DecodeBody(b, WireReader(b, 0, |b|), sizes, ServiceCount(b), GpuCount(b)))
  {
    hide ShowsServices, ShowsGpus, ShowsHeader, Reports.DecodeServices, Reports.DecodeGpus, ValueAt, Place;
    hide HeaderSize, ServiceSize, GpuSize, ServiceCount, GpuCount;
    HeaderIsRead(b, sizes, ServiceCount(b), GpuCount(b));
    PlaceGrows(GpuBase(b), GpuSize(b), GpuCount(b));
    ServicesAreRead(b, HeaderSize(b), ServiceSize(b), ServiceCount(b));
    GpusAreRead(b, GpuBase(b), GpuSize(b), GpuCount(b));
    BodyIs(b, sizes, ServiceCount(b), GpuCount(b));
  }

  lemma BodyIs(b: Bytes, sizes: Reports.Sizes, services: nat, gpus: nat)
    ensures var r := Reports.DecodeBody(b, WireReader(b, 0, |b|), sizes, services, gpus);
            && r.services == Reports.DecodeServices(b, sizes.header, sizes.service, services)
            && r.gpus == Reports.DecodeGpus(b, Place(sizes.header, sizes.service, services), sizes.gpu, gpus)
  {}

  lemma PlaceGrows(base: nat, size: nat, k: nat)
    ensures base <= Place(base, size, k)
  {}

  /** The magic is that of a report, and the version is this one. */
  predicate IsReport(b: Bytes)
    requires 192 <= |b|
  {
    Magic(b) == 0x524D_5042 && Version(b) == 1
  }

  /**
   Any payload as a detailed report: it is read exactly when magic, version, sizes and length are right,
   and then as what stands in it; otherwise the first of these that is wrong decides the error.
   */
  lemma AnyReport(b: Bytes)
    ensures match Reports.Decode(b)
            case Received(r) =>
              192 <= |b| && IsReport(b) && IsLargeEnough(b) && IsWholeReport(b) && ShowsReport(b, r)
            case BadMagic => 192 <= |b| && Magic(b) != 0x524D_5042
            case UnsupportedVersion => 192 <= |b| && Magic(b) == 0x524D_5042 && Version(b) != 1
            case BadLayout => 192 <= |b| && IsReport(b) && !IsLargeEnough(b)
            case BadLength => 192 <= |b| ==> IsReport(b) && IsLargeEnough(b) && !IsWholeReport(b)
  {
    hide ShowsReport, Reports.DecodeBody, ValueAt, Reports.SizesOf, WireReader.U16, WireReader.U32;
    if 192 <= |b| {
      LayoutIsRead(b);
      if Reports.Decode(b).Received? {
        ReportIsRead(b, Reports.SizesOf(WireReader(b, 0, |b|)));
      }
    }
  }

  // ----- commands and replies

  /** A command is read exactly when it has its length, as what stands in it. */
  lemma AnyCommand(b: Bytes)
    ensures match Commands.DecodeCommand(b)
            case Some(m) => |b| == 65 && m.command == b[0] && ShowsText(b, 1, 32, m.serviceName) &&
                            ShowsText(b, 33, 32, m.args)
            case None => |b| != 65
  {
    hide ShowsText, WireReader.Text, WireReader.U8;
    if |b| == 65 {
      FieldsRead(WireReader(b, 0, 65));
      OneByte(b, 0);
    }
  }

  /** So is a reply; an unlisted code is a malformed result. */
  lemma AnyReply(b: Bytes)
    ensures match Commands.DecodeReply(b)
            case Some(r) =>
              && |b| == 128 && r.command == b[0]
              && (if b[1] <= 8 then ResultCode(r.result) == b[1] else r.result.Malformed?)
              && ShowsText(b, 2, 32, r.serviceName) && ShowsText(b, 34, 94, r.message)
            case None => |b| != 128
  {
    hide ShowsText, WireReader.Text, WireReader.U8;
    if |b| == 128 {
      FieldsRead(WireReader(b, 0, 128));
      OneByte(b, 0);
      OneByte(b, 1);
    }
  }
}
