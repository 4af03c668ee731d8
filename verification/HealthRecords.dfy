/** The health message: records of 128 bytes, back to back or after their count. */
module HealthRecords {
  import opened Sequences
  import opened Utf8
  import opened Wire

  const RECORD_SIZE := 128
  const NAME_SIZE := 64
  const MAX_RECORDS := 10_000
  const PREFIX_SIZE := 4

  const NAME := 0
  const PID := 64
  const MEMORY := 72
  const CPU := 80
  const STATE := 88
  const START := 96
  const LAST_SEEN := 104
  const MISSED := 112
  const RESTARTS := 116
  const SNAPSHOT := 120

  datatype RuntimeState = Unknown | Starting | Running | Stopped | Unhealthy

  function StateByte(state: RuntimeState): Byte {
    match state
    case Unknown => 0
    case Starting => 1
    case Running => 2
    case Stopped => 3
    case Unhealthy => 4
  }

  function RuntimeStateFromByte(value: Byte): RuntimeState {
    if value == 1 then Starting
    else if value == 2 then Running
    else if value == 3 then Stopped
    else if value == 4 then Unhealthy
    else Unknown
  }

  datatype HealthRecord = HealthRecord(
    processName: Bytes, pid: I32, memoryUsageInBytes: U64, cpuUsageInUsec: U64, state: RuntimeState, startTime: I64,
    lastSeen: I64, missedBeats: I32, restartCount: I32, snapshotTime: I64)

  /** The record as it comes back: only the name may be cut. */
  function Fitted(r: HealthRecord): HealthRecord {
    r.(processName := CutText(r.processName, NAME_SIZE))
  }

  /** The bytes so far, and the record after them. */
  function Append(b: Bytes, r: HealthRecord): (a: Bytes)
    ensures |a| == |b| + RECORD_SIZE
  {
    b + TextField(r.processName, NAME_SIZE) + Int32Bytes(r.pid) + Zeros(4) + ToBytes(r.memoryUsageInBytes, 8)
      + ToBytes(r.cpuUsageInUsec, 8) + ToBytes(StateByte(r.state), 1) + Zeros(7) + Int64Bytes(r.startTime)
      + Int64Bytes(r.lastSeen) + Int32Bytes(r.missedBeats) + Int32Bytes(r.restartCount) + Int64Bytes(r.snapshotTime)
  }

  function AppendAll(b: Bytes, records: seq<HealthRecord>): (a: Bytes)
    ensures |a| == |b| + RECORD_SIZE * |records|
  {
    if records == [] then b
    else Append(AppendAll(b, records[..|records| - 1]), records[|records| - 1])
  }

  // ----- writing

  method EncodeOne(record: HealthRecord, writer: WireWriter, base: nat, ghost image: Bytes)
    requires Filled(writer.bytes[..], image) && base == |image| && base + RECORD_SIZE <= writer.bytes.Length
    modifies writer.bytes
    ensures Filled(writer.bytes[..], Append(image, record))
  {
    hide Filled, Put, Int32Bytes, Int64Bytes, TextField, ToBytes;
    writer.PutText(base + NAME, NAME_SIZE, record.processName);
    writer.PutI32(base + PID, record.pid);
    ghost var named := image + TextField(record.processName, NAME_SIZE) + Int32Bytes(record.pid);
    Pad(writer.bytes[..], named, 4);
    writer.PutU64(base + MEMORY, record.memoryUsageInBytes);
    writer.PutU64(base + CPU, record.cpuUsageInUsec);
    writer.PutU8(base + STATE, StateByte(record.state));
    ghost var measured := named + Zeros(4) + ToBytes(record.memoryUsageInBytes, 8) + ToBytes(record.cpuUsageInUsec, 8)
                          + ToBytes(StateByte(record.state), 1);
    Pad(writer.bytes[..], measured, 7);
    writer.PutI64(base + START, record.startTime);
    writer.PutI64(base + LAST_SEEN, record.lastSeen);
    writer.PutI32(base + MISSED, record.missedBeats);
    writer.PutI32(base + RESTARTS, record.restartCount);
    writer.PutI64(base + SNAPSHOT, record.snapshotTime);
  }

  method EncodeHealthRecords(records: seq<HealthRecord>) returns (message: Bytes)
    ensures message == AppendAll([], records)
  {
    hide Filled, Append;
    var writer := new WireWriter(|records| * RECORD_SIZE);
    NothingFilled(|records| * RECORD_SIZE);
    for i := 0 to |records|
      invariant fresh(writer.bytes) && writer.bytes.Length == |records| * RECORD_SIZE
      invariant Filled(writer.bytes[..], AppendAll([], records[..i]))
    {
      assert records[..i + 1][..i] == records[..i];
      EncodeOne(records[i], writer, i * RECORD_SIZE, AppendAll([], records[..i]));
    }
    assert records[..|records|] == records;
    FilledWhole(writer.bytes[..], AppendAll([], records));
    message := writer.TakeBytes();
  }

  // ----- reading

  function DecodeOne(reader: WireReader): HealthRecord {
    HealthRecord(
      reader.Text(NAME, NAME_SIZE), reader.I32(PID), reader.U64(MEMORY), reader.U64(CPU),
      RuntimeStateFromByte(reader.U8(STATE)), reader.I64(START), reader.I64(LAST_SEEN), reader.I32(MISSED),
      reader.I32(RESTARTS), reader.I64(SNAPSHOT))
  }

  function RecordAt(payload: Bytes, base: nat, i: nat): HealthRecord {
    DecodeOne(WireReader(payload, base + i * RECORD_SIZE, RECORD_SIZE))
  }

  datatype Decoded = Records(records: seq<HealthRecord>) | BadLength

  /** The payload is a count, and as many records as it says, and the count is not too large. */
  predicate IsPrefixed(payload: Bytes) {
    |payload| >= PREFIX_SIZE &&
    var declared := WireReader(payload, 0, PREFIX_SIZE).U32(0);
    declared < MAX_RECORDS && |payload| - PREFIX_SIZE == declared * RECORD_SIZE
  }

  function Decode(payload: Bytes): Decoded {
    if IsPrefixed(payload) then
      var count := WireReader(payload, 0, PREFIX_SIZE).U32(0);
      Records(seq(count, i requires 0 <= i < count => RecordAt(payload, PREFIX_SIZE, i)))
    else if |payload| % RECORD_SIZE != 0 then
      BadLength
    else
      var count := |payload| / RECORD_SIZE;
      Records(seq(count, i requires 0 <= i < count => RecordAt(payload, 0, i)))
  }

  method DecodeHealthRecords(payload: Bytes) returns (r: Decoded)
    ensures r == Decode(payload)
  {
    hide DecodeOne;
    var records: seq<HealthRecord> := [];
    if payload == [] {
      return Records(records);
    }
    var base, count := 0, 0;
    var prefixed := false;
    if |payload| >= PREFIX_SIZE {
      var prefix := WireReader(payload, 0, PREFIX_SIZE);
      var declared := prefix.U32(0);
      if declared < MAX_RECORDS && |payload| - PREFIX_SIZE == declared * RECORD_SIZE {
        base := PREFIX_SIZE;
        count := declared;
        prefixed := true;
      }
    }
    if !prefixed {
      if |payload| % RECORD_SIZE != 0 {
        return BadLength;
      }
      count := |payload| / RECORD_SIZE;
    }
    for i := 0 to count
      invariant |records| == i
      invariant forall k :: 0 <= k < i ==> records[k] == RecordAt(payload, base, k)
    {
      var reader := WireReader(payload, base + i * RECORD_SIZE, RECORD_SIZE);
      records := records + [DecodeOne(reader)];
    }
    r := Records(records);
  }

  // ----- round trips

  /** A record in a payload is read back from where it was written. */
  lemma ReadsRecord(payload: Bytes, b: Bytes, r: HealthRecord)
    requires Append(b, r) <= payload
    ensures DecodeOne(WireReader(payload, |b|, RECORD_SIZE)) == Fitted(r) && b <= payload
  {
    hide TextField, Int32Bytes, Int64Bytes, ToBytes, CutText, At, Zeros, WireReader.U8, WireReader.U64;
    hide WireReader.I32, WireReader.I64, WireReader.Text;
    var reader := WireReader(payload, |b|, RECORD_SIZE);
    StartsAt(payload, Append(b, r));
    PartsLie(payload);
    ReadsBack(reader);
    Powers();
    AtStart(payload, b);
  }

  lemma {:induction false} ReadsAll(payload: Bytes, b: Bytes, records: seq<HealthRecord>)
    requires AppendAll(b, records) <= payload
    ensures forall i :: 0 <= i < |records| ==> RecordAt(payload, |b|, i) == Fitted(records[i])
    ensures b <= payload
    decreases |records|
  {
    hide DecodeOne, Append;
    if records != [] {
      var front := records[..|records| - 1];
      ReadsRecord(payload, AppendAll(b, front), records[|records| - 1]);
      ReadsAll(payload, b, front);
    }
  }

  /** What a reader gets from the records that were written. */
  function AllFitted(records: seq<HealthRecord>): seq<HealthRecord> {
    seq(|records|, i requires 0 <= i < |records| => Fitted(records[i]))
  }

  /** Every list of records comes back from the message, its names cut to their field. */
  lemma RawComesBack(records: seq<HealthRecord>)
    ensures Decode(AppendAll([], records)) == Records(AllFitted(records))
  {
    hide AppendAll, RecordAt, Fitted, ToBytes, At, WireReader.Number, IsPrefixed;
    var payload := AppendAll([], records);
    ReadsAll(payload, [], records);
    FormsAreApart(payload);
  }

  /** So it does from the message with a count before it, if the count is below the limit. */
  lemma PrefixedComesBack(records: seq<HealthRecord>)
    requires |records| < MAX_RECORDS
    ensures Decode(AppendAll(ToBytes(|records|, PREFIX_SIZE), records)) == Records(AllFitted(records))
  {
    hide AppendAll, RecordAt, Fitted, ToBytes, At, WireReader.Number;
    var prefix := ToBytes(|records|, PREFIX_SIZE);
    var payload := AppendAll(prefix, records);
    ReadsAll(payload, prefix, records);
    StartsAt(payload, prefix);
    Powers();
    ReadsNumber(WireReader(payload, 0, PREFIX_SIZE), 0, |records|, PREFIX_SIZE);
  }

  /** Beyond the limit the count is not believed, and no record comes back. */
  lemma TooManyPrefixed(records: seq<HealthRecord>)
    requires MAX_RECORDS <= |records| < 0x1_0000_0000
    ensures Decode(AppendAll(ToBytes(|records|, PREFIX_SIZE), records)) == BadLength
  {
    hide AppendAll, RecordAt, Fitted, ToBytes, At, WireReader.Number;
    var prefix := ToBytes(|records|, PREFIX_SIZE);
    var payload := AppendAll(prefix, records);
    ReadsAll(payload, prefix, records);
    StartsAt(payload, prefix);
    Powers();
    ReadsNumber(WireReader(payload, 0, PREFIX_SIZE), 0, |records|, PREFIX_SIZE);
  }

  /** A payload of any length is read in at most one way, and refused exactly when it fits neither. */
  lemma FormsAreApart(payload: Bytes)
    ensures !(IsPrefixed(payload) && |payload| % RECORD_SIZE == 0)
    ensures Decode(payload).BadLength? <==> !IsPrefixed(payload) && |payload| % RECORD_SIZE != 0
    ensures Decode(payload).Records? ==>
              |payload| == RECORD_SIZE * |Decode(payload).records| + (if IsPrefixed(payload) then PREFIX_SIZE else 0)
  {}
}
