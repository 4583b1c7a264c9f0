/** The 43-byte telemetry packet. The two load figures are IEEE floats on the wire; the
    codec copies their 32 bits and the model keeps them as raw words. */
module TelemetryPackets {
  import opened Words
  import opened FlightModes
  import opened LittleEndian
  import opened Crc16
  import opened ErrorDetection
  import opened Framing

  const TELEMETRY_MAGIC: u32 := 0x4153_5452
  const TELEMETRY_VERSION: u16 := 1
  const TELEMETRY_PACKET_TYPE_HEALTH: u16 := 1
  const TELEMETRY_PACKET_SIZE := 43

  /** `F` is the representation of a load figure: a raw word on the wire. */
  datatype TelemetryPacket<F> = TelemetryPacket(
    sequenceNumber: u32, timestampMs: u64, mode: Mode, lastFault: FaultCode,
    cpuLoad: F, memoryLoad: F, heartbeatCount: u32,
    lastCommandSequence: u32, lastCommandId: u8, lastCommandStatus: u8)

  const TELEMETRY_WIDTHS: seq<nat> := [4, 2, 2, 4, 8, 1, 2, 4, 4, 4, 4, 1, 1]

  function TelemetryFields(p: TelemetryPacket<u32>): seq<nat> {
    [TELEMETRY_MAGIC, TELEMETRY_VERSION, TELEMETRY_PACKET_TYPE_HEALTH,
     p.sequenceNumber, p.timestampMs, ModeNumber(p.mode), FaultNumber(p.lastFault),
     p.cpuLoad, p.memoryLoad, p.heartbeatCount,
     p.lastCommandSequence, p.lastCommandId, p.lastCommandStatus]
  }

  function TelemetryBody(p: TelemetryPacket<u32>): seq<u8> {
    Pack(TelemetryFields(p), TELEMETRY_WIDTHS)
  }

  function EncodeTelemetry(p: TelemetryPacket<u32>): seq<u8> {
    Sealed(TelemetryBody(p))
  }

  function DecodeTelemetry(bytes: seq<u8>): Option<TelemetryPacket<u32>> {
    if |bytes| != TELEMETRY_PACKET_SIZE || !CrcValid(bytes) then None
    else
      TelemetryWidth();
      PackOfUnpack(bytes[..41], TELEMETRY_WIDTHS);
      TelemetryFieldsFit(Unpack(bytes[..41], TELEMETRY_WIDTHS));
      FromFields(Unpack(bytes[..41], TELEMETRY_WIDTHS))
  }

  predicate InRange(f: seq<nat>)
    requires |f| == |TELEMETRY_WIDTHS|
  {
    f[0] < U32_SPAN && f[1] < U16_SPAN && f[2] < U16_SPAN && f[3] < U32_SPAN && f[4] < U64_SPAN &&
    f[5] < U8_SPAN && f[6] < U16_SPAN && f[7] < U32_SPAN && f[8] < U32_SPAN && f[9] < U32_SPAN &&
    f[10] < U32_SPAN && f[11] < U8_SPAN && f[12] < U8_SPAN
  }

  function FromFields(f: seq<nat>): Option<TelemetryPacket<u32>>
    requires |f| == |TELEMETRY_WIDTHS| && InRange(f)
  {
    if f[0] != TELEMETRY_MAGIC || f[1] != TELEMETRY_VERSION || f[2] != TELEMETRY_PACKET_TYPE_HEALTH then None
    else
      match (ModeOf(f[5]), FaultOf(f[6]))
      case (Some(mode), Some(fault)) =>
        Some(TelemetryPacket(f[3], f[4], mode, fault, f[7], f[8], f[9], f[10], f[11], f[12]))
      case _ => None
  }

  lemma TelemetryWidth()
    ensures Width(TELEMETRY_WIDTHS) == 41
  {
    assert Width([4, 4, 4, 4, 1, 1]) == 18;
    assert TELEMETRY_WIDTHS[1..][1..][1..][1..][1..][1..][1..] == [4, 4, 4, 4, 1, 1];
  }

  lemma {:induction false} TelemetryFieldsFit(f: seq<nat>)
    requires |f| == |TELEMETRY_WIDTHS|
    ensures Fits(f, TELEMETRY_WIDTHS) <==> InRange(f)
  {
    Spans();
    if Fits(f, TELEMETRY_WIDTHS) {
      assert f[0] < Span(TELEMETRY_WIDTHS[0]) && f[1] < Span(TELEMETRY_WIDTHS[1]) && f[2] < Span(TELEMETRY_WIDTHS[2]);
      assert f[3] < Span(TELEMETRY_WIDTHS[3]) && f[4] < Span(TELEMETRY_WIDTHS[4]) && f[5] < Span(TELEMETRY_WIDTHS[5]);
      assert f[6] < Span(TELEMETRY_WIDTHS[6]) && f[7] < Span(TELEMETRY_WIDTHS[7]) && f[8] < Span(TELEMETRY_WIDTHS[8]);
      assert f[9] < Span(TELEMETRY_WIDTHS[9]) && f[10] < Span(TELEMETRY_WIDTHS[10]);
      assert f[11] < Span(TELEMETRY_WIDTHS[11]) && f[12] < Span(TELEMETRY_WIDTHS[12]);
    }
  }

  lemma {:induction false} FieldsConvertBack(p: TelemetryPacket<u32>)
    ensures InRange(TelemetryFields(p)) && FromFields(TelemetryFields(p)) == Some(p)
  {
  }

  lemma {:induction false} FieldsDetermined(f: seq<nat>)
    requires |f| == |TELEMETRY_WIDTHS| && InRange(f) && FromFields(f).Some?
    ensures TelemetryFields(FromFields(f).value) == f
  {
  }

  // ---- Encoding is a bijection onto the accepted packets ----

  lemma {:induction false} DecodeOfEncode(p: TelemetryPacket<u32>)
    ensures DecodeTelemetry(EncodeTelemetry(p)) == Some(p)
  {
    TelemetryWidth();
    SealedIsValid(TelemetryBody(p));
    assert EncodeTelemetry(p)[..41] == TelemetryBody(p);
    FieldsConvertBack(p);
    TelemetryFieldsFit(TelemetryFields(p));
    UnpackOfPack(TelemetryFields(p), TELEMETRY_WIDTHS);
  }

  lemma {:induction false} EncodeOfDecode(bytes: seq<u8>)
    requires DecodeTelemetry(bytes).Some?
    ensures EncodeTelemetry(DecodeTelemetry(bytes).value) == bytes
  {
    TelemetryWidth();
    PackOfUnpack(bytes[..41], TELEMETRY_WIDTHS);
    var f := Unpack(bytes[..41], TELEMETRY_WIDTHS);
    TelemetryFieldsFit(f);
    FieldsDetermined(f);
    ValidIsSealed(bytes);
  }

  // ---- The encoder and the decoder, field by field ----

  /** `bytes` are the first `k` fields of the packet. */
  ghost predicate Written(bytes: seq<u8>, packet: TelemetryPacket<u32>, k: nat)
    requires k <= |TELEMETRY_WIDTHS|
  {
    bytes == Pack(TelemetryFields(packet)[..k], TELEMETRY_WIDTHS[..k])
  }

  lemma {:induction false} WriteNext(bytes: seq<u8>, packet: TelemetryPacket<u32>, k: nat)
    requires k < |TELEMETRY_WIDTHS| && Written(bytes, packet, k)
    ensures Written(bytes + Encode(TelemetryFields(packet)[k], TELEMETRY_WIDTHS[k]), packet, k + 1)
  {
    PackNext(TelemetryFields(packet), TELEMETRY_WIDTHS, k);
  }

  /** `serialize_telemetry_packet`. */
  method SerializeTelemetry(packet: TelemetryPacket<u32>) returns (bytes: seq<u8>)
    ensures bytes == EncodeTelemetry(packet)
  {
    bytes := AppendHeader(packet);
    bytes := AppendReport(bytes, packet);
    assert TelemetryFields(packet)[..13] == TelemetryFields(packet) && TELEMETRY_WIDTHS[..13] == TELEMETRY_WIDTHS;
    var crc := ComputeCrc(bytes);
    bytes := AppendU16(bytes, crc);
  }

  method AppendHeader(packet: TelemetryPacket<u32>) returns (bytes: seq<u8>)
    ensures Written(bytes, packet, 7)
  {
    bytes := [];
    WriteNext(bytes, packet, 0);
    bytes := AppendU32(bytes, TELEMETRY_MAGIC);
    WriteNext(bytes, packet, 1);
    bytes := AppendU16(bytes, TELEMETRY_VERSION);
    WriteNext(bytes, packet, 2);
    bytes := AppendU16(bytes, TELEMETRY_PACKET_TYPE_HEALTH);
    WriteNext(bytes, packet, 3);
    bytes := AppendU32(bytes, packet.sequenceNumber);
    bytes := AppendStamp(bytes, packet);
  }

  method AppendStamp(header: seq<u8>, packet: TelemetryPacket<u32>) returns (bytes: seq<u8>)
    requires Written(header, packet, 4)
    ensures Written(bytes, packet, 7)
  {
    bytes := header;
    WriteNext(bytes, packet, 4);
    bytes := AppendU64(bytes, packet.timestampMs);
    WriteNext(bytes, packet, 5);
    bytes := AppendU8(bytes, ModeNumber(packet.mode));
    WriteNext(bytes, packet, 6);
    bytes := AppendU16(bytes, FaultNumber(packet.lastFault));
  }

  method AppendReport(header: seq<u8>, packet: TelemetryPacket<u32>) returns (bytes: seq<u8>)
    requires Written(header, packet, 7)
    ensures Written(bytes, packet, 13)
  {
    bytes := header;
    WriteNext(bytes, packet, 7);
    bytes := AppendU32(bytes, packet.cpuLoad);
    WriteNext(bytes, packet, 8);
    bytes := AppendU32(bytes, packet.memoryLoad);
    WriteNext(bytes, packet, 9);
    bytes := AppendU32(bytes, packet.heartbeatCount);
    bytes := AppendLastCommand(bytes, packet);
  }

  method AppendLastCommand(report: seq<u8>, packet: TelemetryPacket<u32>) returns (bytes: seq<u8>)
    requires Written(report, packet, 10)
    ensures Written(bytes, packet, 13)
  {
    bytes := report;
    WriteNext(bytes, packet, 10);
    bytes := AppendU32(bytes, packet.lastCommandSequence);
    WriteNext(bytes, packet, 11);
    bytes := AppendU8(bytes, packet.lastCommandId);
    WriteNext(bytes, packet, 12);
    bytes := AppendU8(bytes, packet.lastCommandStatus);
  }

  /** The next field to read is field `k`, at `offset`. */
  ghost predicate Reading(bytes: seq<u8>, offset: nat, k: nat)
    requires k <= |TELEMETRY_WIDTHS|
  {
    |bytes| == TELEMETRY_PACKET_SIZE && offset == Width(TELEMETRY_WIDTHS[..k])
  }

  ghost function Field(bytes: seq<u8>, k: nat): nat
    requires |bytes| == TELEMETRY_PACKET_SIZE && k < |TELEMETRY_WIDTHS|
  {
    TelemetryWidth();
    Unpack(bytes[..41], TELEMETRY_WIDTHS)[k]
  }

  lemma {:induction false} ReadNext(bytes: seq<u8>, offset: nat, k: nat)
    requires k < |TELEMETRY_WIDTHS| && Reading(bytes, offset, k)
    ensures offset + TELEMETRY_WIDTHS[k] <= |bytes|
    ensures Value(bytes[offset..offset + TELEMETRY_WIDTHS[k]]) == Field(bytes, k)
    ensures Reading(bytes, offset + TELEMETRY_WIDTHS[k], k + 1)
  {
    TelemetryWidth();
    FieldNext(bytes, TELEMETRY_WIDTHS, k, offset);
  }

  /** `deserialize_telemetry_packet`: a failed decode leaves the caller's packet untouched. */
  method DeserializeTelemetry(bytes: seq<u8>, current: TelemetryPacket<u32>)
    returns (ok: bool, packet: TelemetryPacket<u32>)
    ensures ok <==> DecodeTelemetry(bytes).Some?
    ensures packet == if ok then DecodeTelemetry(bytes).value else current
  {
    ok, packet := false, current;
    if |bytes| != TELEMETRY_PACKET_SIZE {
      return;
    }
    var expectedCrc := ComputeCrc(bytes[..|bytes| - 2]);
    var actualCrc, end := ReadU16(bytes, |bytes| - 2);
    FieldValue(bytes);
    assert bytes[|bytes| - 2..end] == bytes[|bytes| - 2..];
    if actualCrc != expectedCrc {
      return;
    }
    var recognised, offset := ReadHeader(bytes);
    if !recognised {
      return;
    }
    var sequence, timestamp, rawMode, rawFault, cpu, memory, heartbeat, lastSequence, lastId, lastStatus;
    sequence, timestamp, rawMode, offset := ReadStamp(bytes, offset);
    var mode := ModeOf(rawMode);
    if mode.None? {
      return;
    }
    ReadNext(bytes, offset, 6);
    rawFault, offset := ReadU16(bytes, offset);
    var fault := FaultOf(rawFault);
    if fault.None? {
      return;
    }
    cpu, memory, heartbeat, lastSequence, lastId, lastStatus := ReadReport(bytes, offset);
    ok := true;
    packet := TelemetryPacket(sequence, timestamp, mode.value, fault.value, cpu, memory, heartbeat,
                              lastSequence, lastId, lastStatus);
  }

  method ReadHeader(bytes: seq<u8>) returns (recognised: bool, offset: nat)
    requires |bytes| == TELEMETRY_PACKET_SIZE
    ensures recognised <==> Field(bytes, 0) == TELEMETRY_MAGIC && Field(bytes, 1) == TELEMETRY_VERSION &&
                            Field(bytes, 2) == TELEMETRY_PACKET_TYPE_HEALTH
    ensures Reading(bytes, offset, 3)
  {
    offset := 0;
    var magic, version, packetType;
    ReadNext(bytes, offset, 0);
    magic, offset := ReadU32(bytes, offset);
    ReadNext(bytes, offset, 1);
    version, offset := ReadU16(bytes, offset);
    ReadNext(bytes, offset, 2);
    packetType, offset := ReadU16(bytes, offset);
    recognised := magic == TELEMETRY_MAGIC && version == TELEMETRY_VERSION &&
      packetType == TELEMETRY_PACKET_TYPE_HEALTH;
  }

  method ReadStamp(bytes: seq<u8>, start: nat) returns (sequence: u32, timestamp: u64, rawMode: u8, offset: nat)
    requires Reading(bytes, start, 3)
    ensures sequence == Field(bytes, 3) && timestamp == Field(bytes, 4) && rawMode == Field(bytes, 5)
    ensures Reading(bytes, offset, 6)
  {
    ReadNext(bytes, start, 3);
    sequence, offset := ReadU32(bytes, start);
    ReadNext(bytes, offset, 4);
    timestamp, offset := ReadU64(bytes, offset);
    ReadNext(bytes, offset, 5);
    rawMode, offset := ReadU8(bytes, offset);
  }

  method ReadReport(bytes: seq<u8>, start: nat)
    returns (cpu: u32, memory: u32, heartbeat: u32, lastSequence: u32, lastId: u8, lastStatus: u8)
    requires Reading(bytes, start, 7)
    ensures cpu == Field(bytes, 7) && memory == Field(bytes, 8) && heartbeat == Field(bytes, 9)
    ensures lastSequence == Field(bytes, 10) && lastId == Field(bytes, 11) && lastStatus == Field(bytes, 12)
  {
    var offset := start;
    ReadNext(bytes, offset, 7);
    cpu, offset := ReadU32(bytes, offset);
    ReadNext(bytes, offset, 8);
    memory, offset := ReadU32(bytes, offset);
    ReadNext(bytes, offset, 9);
    heartbeat, offset := ReadU32(bytes, offset);
    ReadNext(bytes, offset, 10);
    lastSequence, offset := ReadU32(bytes, offset);
    ReadNext(bytes, offset, 11);
    lastId, offset := ReadU8(bytes, offset);
    ReadNext(bytes, offset, 12);
    lastStatus, offset := ReadU8(bytes, offset);
  }

  /** The bytes carry the fields of the packet. */
  ghost predicate Carries(b: seq<u8>, p: TelemetryPacket<u32>) {
    |b| == TELEMETRY_PACKET_SIZE && forall k :: 0 <= k < |TELEMETRY_WIDTHS| ==> Field(b, k) == TelemetryFields(p)[k]
  }

  lemma {:induction false} EncodingCarries(p: TelemetryPacket<u32>)
    ensures Carries(EncodeTelemetry(p), p)
  {
    TelemetryWidth();
    FieldsConvertBack(p);
    TelemetryFieldsFit(TelemetryFields(p));
    UnpackOfPack(TelemetryFields(p), TELEMETRY_WIDTHS);
    assert EncodeTelemetry(p)[..41] == TelemetryBody(p);
  }

  lemma {:induction false} FieldIs(b: seq<u8>, p: TelemetryPacket<u32>, k: nat, offset: nat)
    requires Carries(b, p) && k < |TELEMETRY_WIDTHS| && Reading(b, offset, k)
    ensures offset + TELEMETRY_WIDTHS[k] <= |b|
    ensures Value(b[offset..offset + TELEMETRY_WIDTHS[k]]) == TelemetryFields(p)[k]
    ensures Reading(b, offset + TELEMETRY_WIDTHS[k], k + 1)
  {
    ReadNext(b, offset, k);
  }

  lemma {:induction false} HeaderFields(b: seq<u8>, p: TelemetryPacket<u32>)
    requires Carries(b, p)
    ensures Value(b[0..4]) == TELEMETRY_MAGIC && Value(b[4..6]) == TELEMETRY_VERSION
    ensures Value(b[6..8]) == TELEMETRY_PACKET_TYPE_HEALTH && Reading(b, 8, 3)
  {
    FieldIs(b, p, 0, 0);
    FieldIs(b, p, 1, 4);
    FieldIs(b, p, 2, 6);
  }

  lemma {:induction false} HeaderBytes(b: seq<u8>)
    requires |b| >= 8 && Value(b[0..4]) == TELEMETRY_MAGIC
    requires Value(b[4..6]) == TELEMETRY_VERSION && Value(b[6..8]) == TELEMETRY_PACKET_TYPE_HEALTH
    ensures b[0..4] == [0x52, 0x54, 0x53, 0x41] && b[4..6] == [0x01, 0x00] && b[6..8] == [0x01, 0x00]
  {
    EncodeOfValue(b[0..4]);
    EncodeOfValue(b[4..6]);
    EncodeOfValue(b[6..8]);
    FourBytes(TELEMETRY_MAGIC);
    TwoBytes(TELEMETRY_VERSION);
  }

  lemma {:induction false} HeaderLayout(b: seq<u8>, p: TelemetryPacket<u32>)
    requires Carries(b, p)
    ensures b[0..4] == [0x52, 0x54, 0x53, 0x41] && b[4..6] == [0x01, 0x00] && b[6..8] == [0x01, 0x00]
    ensures Reading(b, 8, 3)
  {
    HeaderFields(b, p);
    HeaderBytes(b);
  }

  lemma {:induction false} StampLayout(b: seq<u8>, p: TelemetryPacket<u32>)
    requires Carries(b, p)
    ensures Value(b[8..12]) == p.sequenceNumber && Value(b[12..20]) == p.timestampMs
    ensures Value(b[20..21]) == ModeNumber(p.mode) && Value(b[21..23]) == FaultNumber(p.lastFault)
    ensures Reading(b, 23, 7)
  {
    HeaderLayout(b, p);
    FieldIs(b, p, 3, 8);
    FieldIs(b, p, 4, 12);
    FieldIs(b, p, 5, 20);
    FieldIs(b, p, 6, 21);
  }

  lemma {:induction false} ReportLayout(b: seq<u8>, p: TelemetryPacket<u32>)
    requires Carries(b, p)
    ensures Value(b[23..27]) == p.cpuLoad && Value(b[27..31]) == p.memoryLoad
    ensures Value(b[31..35]) == p.heartbeatCount && Value(b[35..39]) == p.lastCommandSequence
    ensures Value(b[39..40]) == p.lastCommandId && Value(b[40..41]) == p.lastCommandStatus
  {
    StampLayout(b, p);
    FieldIs(b, p, 7, 23);
    FieldIs(b, p, 8, 27);
    FieldIs(b, p, 9, 31);
    FieldIs(b, p, 10, 35);
    FieldIs(b, p, 11, 39);
    FieldIs(b, p, 12, 40);
  }

  lemma {:induction false} CrcLayout(p: TelemetryPacket<u32>)
    ensures var b := EncodeTelemetry(p);
            |b| == 43 && b[41] == Crc(b[..41]) % 256 && b[42] == Crc(b[..41]) / 256
  {
    TelemetryWidth();
    SealedTail(TelemetryBody(p), 41);
  }

  /** Where everything is in a telemetry packet, byte by byte. */
  lemma {:induction false} TelemetryLayout(p: TelemetryPacket<u32>)
    ensures var b := EncodeTelemetry(p);
            |b| == 43 && b[0..4] == [0x52, 0x54, 0x53, 0x41] && b[4..6] == [0x01, 0x00] && b[6..8] == [0x01, 0x00] &&
            Value(b[8..12]) == p.sequenceNumber && Value(b[12..20]) == p.timestampMs &&
            Value(b[20..21]) == ModeNumber(p.mode) && Value(b[21..23]) == FaultNumber(p.lastFault) &&
            Value(b[23..27]) == p.cpuLoad && Value(b[27..31]) == p.memoryLoad &&
            Value(b[31..35]) == p.heartbeatCount && Value(b[35..39]) == p.lastCommandSequence &&
            Value(b[39..40]) == p.lastCommandId && Value(b[40..41]) == p.lastCommandStatus &&
            b[41] == Crc(b[..41]) % 256 && b[42] == Crc(b[..41]) / 256
  {
    EncodingCarries(p);
    HeaderLayout(EncodeTelemetry(p), p);
    StampLayout(EncodeTelemetry(p), p);
    ReportLayout(EncodeTelemetry(p), p);
    CrcLayout(p);
  }

  // ---- What a corrupted packet meets ----

  /** The decoder refuses every corruption of a packet it accepts that flips one, two or
      three bits, or any odd number of bits, or only bits within sixteen consecutive ones
      ahead of the CRC. */
  lemma {:induction false} CorruptTelemetryRejected(good: seq<u8>, bad: seq<u8>, start: nat)
    requires DecodeTelemetry(good).Some? && |bad| == |good| && bad != good
    requires var flips := DifferingBits(good, bad);
             |flips| <= 3 || |flips| % 2 == 1 || forall j :: j in flips ==> start <= j < start + 16 && j < 328
    ensures DecodeTelemetry(bad) == None
  {
    if CrcValid(bad) {
      DistanceCounts(good, bad);
      OddErrorsDetected(good, bad);
      FewErrorsDetected(good, bad);
      BurstsDetected(good, bad, start);
    }
  }

  lemma {:induction false} SameField(a: seq<u8>, b: seq<u8>, k: nat, offset: nat)
    requires |b| == |a| == TELEMETRY_PACKET_SIZE && a[..40] == b[..40]
    requires k < |TELEMETRY_WIDTHS| && Reading(a, offset, k) && offset + TELEMETRY_WIDTHS[k] <= 40
    ensures Field(a, k) == Field(b, k) && Reading(a, offset + TELEMETRY_WIDTHS[k], k + 1)
  {
    ReadNext(a, offset, k);
    ReadNext(b, offset, k);
    var end := offset + TELEMETRY_WIDTHS[k];
    SliceOfPrefix(a, 40, offset, end);
    SliceOfPrefix(b, 40, offset, end);
  }

  lemma {:induction false} SameUpToFault(a: seq<u8>, b: seq<u8>)
    requires |b| == |a| == TELEMETRY_PACKET_SIZE && a[..40] == b[..40]
    ensures forall k :: 0 <= k < 7 ==> Field(a, k) == Field(b, k)
    ensures Reading(a, 23, 7)
  {
    SameField(a, b, 0, 0);
    SameField(a, b, 1, 4);
    SameField(a, b, 2, 6);
    SameField(a, b, 3, 8);
    SameField(a, b, 4, 12);
    SameField(a, b, 5, 20);
    SameField(a, b, 6, 21);
  }

  lemma {:induction false} SameUpToStatus(a: seq<u8>, b: seq<u8>)
    requires |b| == |a| == TELEMETRY_PACKET_SIZE && a[..40] == b[..40]
    ensures forall k :: 0 <= k < 12 ==> Field(a, k) == Field(b, k)
  {
    SameUpToFault(a, b);
    SameField(a, b, 7, 23);
    SameField(a, b, 8, 27);
    SameField(a, b, 9, 31);
    SameField(a, b, 10, 35);
    SameField(a, b, 11, 39);
  }

  lemma {:induction false} FromAgreeingFields(f: seq<nat>, g: seq<nat>)
    requires |f| == |g| == |TELEMETRY_WIDTHS| && InRange(f) && InRange(g) && FromFields(f).Some?
    requires forall k :: 0 <= k < 12 ==> f[k] == g[k]
    ensures FromFields(g) == Some(FromFields(f).value.(lastCommandStatus := g[12]))
  {
  }

  /** Four bits can hide a change of the last command's status: the neighbour that flips the
      last payload bit and the CRC bits it feeds is accepted, with another status. */
  lemma {:induction false} DisguisedTelemetryAccepted(good: seq<u8>)
    requires DecodeTelemetry(good).Some?
    ensures DecodeTelemetry(Disguise(good)).Some? && |DifferingBits(good, Disguise(good))| == 4
    ensures var p, q := DecodeTelemetry(good).value, DecodeTelemetry(Disguise(good)).value;
            p.lastCommandStatus != q.lastCommandStatus && p == q.(lastCommandStatus := p.lastCommandStatus)
  {
    var bad := Disguise(good);
    FourErrorsCanHide(good);
    DistanceCounts(good, bad);
    SameUpToStatus(good, bad);
    TelemetryWidth();
    var f, g := Unpack(good[..41], TELEMETRY_WIDTHS), Unpack(bad[..41], TELEMETRY_WIDTHS);
    PackOfUnpack(good[..41], TELEMETRY_WIDTHS);
    PackOfUnpack(bad[..41], TELEMETRY_WIDTHS);
    TelemetryFieldsFit(f);
    TelemetryFieldsFit(g);
    assert forall k :: 0 <= k < 12 ==> f[k] == Field(good, k) && g[k] == Field(bad, k);
    FromAgreeingFields(f, g);
    EncodeOfDecode(bad);
    EncodeOfDecode(good);
  }
}
