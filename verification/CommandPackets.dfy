/** The 26-byte command packet: its encoder, its decoder, and the conversions of a
    command argument to a mode or a fault. */
module CommandPackets {
  import opened Words
  import opened FlightModes
  import opened LittleEndian
  import opened Crc16
  import opened ErrorDetection
  import opened Framing

  const COMMAND_MAGIC: u32 := 0x434D_4453
  const COMMAND_VERSION: u16 := 1
  const COMMAND_PACKET_SIZE := 26

  datatype CommandId = Noop | SetMode | InjectFault | RequestTelemetry | ClearFault

  datatype CommandPacket = CommandPacket(
    sequenceNumber: u32, timestampMs: u64, commandId: CommandId, argument: u32)

  function IdNumber(id: CommandId): u16 {
    match id
    case Noop => 0
    case SetMode => 1
    case InjectFault => 2
    case RequestTelemetry => 3
    case ClearFault => 4
  }

  function IdOf(n: int): (id: Option<CommandId>)
    ensures id.Some? ==> IdNumber(id.value) == n
    ensures id.None? ==> forall i :: IdNumber(i) != n
  {
    match n
    case 0 => Some(Noop)
    case 1 => Some(SetMode)
    case 2 => Some(InjectFault)
    case 3 => Some(RequestTelemetry)
    case 4 => Some(ClearFault)
    case _ => None
  }

  // ---- The wire format: magic, version, sequence, timestamp, command, argument, CRC ----

  const COMMAND_WIDTHS: seq<nat> := [4, 2, 4, 8, 2, 4]

  function CommandFields(p: CommandPacket): seq<nat> {
    [COMMAND_MAGIC, COMMAND_VERSION, p.sequenceNumber, p.timestampMs, IdNumber(p.commandId), p.argument]
  }

  function CommandBody(p: CommandPacket): seq<u8> {
    Pack(CommandFields(p), COMMAND_WIDTHS)
  }

  function EncodeCommand(p: CommandPacket): seq<u8> {
    Sealed(CommandBody(p))
  }

  function DecodeCommand(bytes: seq<u8>): Option<CommandPacket> {
    if |bytes| != COMMAND_PACKET_SIZE || !CrcValid(bytes) then None
    else
      CommandWidth();
      PackOfUnpack(bytes[..24], COMMAND_WIDTHS);
      CommandFieldsFit(Unpack(bytes[..24], COMMAND_WIDTHS));
      var f := Unpack(bytes[..24], COMMAND_WIDTHS);
      if f[0] != COMMAND_MAGIC || f[1] != COMMAND_VERSION then None
      else
        match IdOf(f[4])
        case None => None
        case Some(id) => Some(CommandPacket(f[2], f[3], id, f[5]))
  }

  lemma CommandWidth()
    ensures Width(COMMAND_WIDTHS) == 24
  {
    assert Width([8, 2, 4]) == 14;
    assert COMMAND_WIDTHS[1..][1..][1..] == [8, 2, 4];
  }

  lemma {:induction false} CommandFieldsFit(f: seq<nat>)
    requires |f| == |COMMAND_WIDTHS|
    ensures Fits(f, COMMAND_WIDTHS) <==>
            f[0] < U32_SPAN && f[1] < U16_SPAN && f[2] < U32_SPAN && f[3] < U64_SPAN &&
            f[4] < U16_SPAN && f[5] < U32_SPAN
  {
    Spans();
    if Fits(f, COMMAND_WIDTHS) {
      assert f[0] < Span(COMMAND_WIDTHS[0]) && f[1] < Span(COMMAND_WIDTHS[1]) && f[2] < Span(COMMAND_WIDTHS[2]);
      assert f[3] < Span(COMMAND_WIDTHS[3]) && f[4] < Span(COMMAND_WIDTHS[4]) && f[5] < Span(COMMAND_WIDTHS[5]);
    }
  }

  // ---- Encoding is a bijection onto the accepted packets ----

  lemma {:induction false} DecodeOfEncode(p: CommandPacket)
    ensures DecodeCommand(EncodeCommand(p)) == Some(p)
  {
    CommandWidth();
    SealedIsValid(CommandBody(p));
    assert EncodeCommand(p)[..24] == CommandBody(p);
    CommandFieldsFit(CommandFields(p));
    UnpackOfPack(CommandFields(p), COMMAND_WIDTHS);
  }

  lemma {:induction false} EncodeOfDecode(bytes: seq<u8>)
    requires DecodeCommand(bytes).Some?
    ensures EncodeCommand(DecodeCommand(bytes).value) == bytes
  {
    CommandWidth();
    PackOfUnpack(bytes[..24], COMMAND_WIDTHS);
    var f := Unpack(bytes[..24], COMMAND_WIDTHS);
    CommandFieldsFit(f);
    assert CommandFields(DecodeCommand(bytes).value) == f;
    ValidIsSealed(bytes);
  }

  // ---- The encoder and the decoder, field by field ----

  /** The first `k` fields of the packet are written. */
  ghost predicate Written(bytes: seq<u8>, packet: CommandPacket, k: nat)
    requires k <= |COMMAND_WIDTHS|
  {
    bytes == Pack(CommandFields(packet)[..k], COMMAND_WIDTHS[..k])
  }

  lemma {:induction false} WriteNext(bytes: seq<u8>, packet: CommandPacket, k: nat)
    requires k < |COMMAND_WIDTHS| && Written(bytes, packet, k)
    ensures Written(bytes + Encode(CommandFields(packet)[k], COMMAND_WIDTHS[k]), packet, k + 1)
  {
    PackNext(CommandFields(packet), COMMAND_WIDTHS, k);
  }

  /** `serialize_command_packet`. */
  method SerializeCommand(packet: CommandPacket) returns (bytes: seq<u8>)
    ensures bytes == EncodeCommand(packet)
  {
    bytes := AppendFields(packet);
    var crc := ComputeCrc(bytes);
    bytes := AppendU16(bytes, crc);
  }

  method AppendFields(packet: CommandPacket) returns (bytes: seq<u8>)
    ensures bytes == CommandBody(packet)
  {
    bytes := [];
    WriteNext(bytes, packet, 0);
    bytes := AppendU32(bytes, COMMAND_MAGIC);
    WriteNext(bytes, packet, 1);
    bytes := AppendU16(bytes, COMMAND_VERSION);
    WriteNext(bytes, packet, 2);
    bytes := AppendU32(bytes, packet.sequenceNumber);
    WriteNext(bytes, packet, 3);
    bytes := AppendU64(bytes, packet.timestampMs);
    WriteNext(bytes, packet, 4);
    bytes := AppendU16(bytes, IdNumber(packet.commandId));
    WriteNext(bytes, packet, 5);
    bytes := AppendU32(bytes, packet.argument);
    assert CommandFields(packet)[..6] == CommandFields(packet) && COMMAND_WIDTHS[..6] == COMMAND_WIDTHS;
  }

  lemma {:induction false} FieldsInOrder(bytes: seq<u8>)
    requires |bytes| == COMMAND_PACKET_SIZE
    ensures Width(COMMAND_WIDTHS) == 24
    ensures Unpack(bytes[..24], COMMAND_WIDTHS) ==
            [Value(bytes[0..4]), Value(bytes[4..6]), Value(bytes[6..10]),
             Value(bytes[10..18]), Value(bytes[18..20]), Value(bytes[20..24])]
  {
    CommandWidth();
    FieldNext(bytes, COMMAND_WIDTHS, 0, 0);
    FieldNext(bytes, COMMAND_WIDTHS, 1, 4);
    FieldNext(bytes, COMMAND_WIDTHS, 2, 6);
    FieldNext(bytes, COMMAND_WIDTHS, 3, 10);
    FieldNext(bytes, COMMAND_WIDTHS, 4, 18);
    FieldNext(bytes, COMMAND_WIDTHS, 5, 20);
  }

  /** `deserialize_command_packet`: a failed decode leaves the caller's packet untouched. */
  method DeserializeCommand(bytes: seq<u8>, current: CommandPacket) returns (ok: bool, packet: CommandPacket)
    ensures ok <==> DecodeCommand(bytes).Some?
    ensures packet == if ok then DecodeCommand(bytes).value else current
  {
    ok, packet := false, current;
    if |bytes| != COMMAND_PACKET_SIZE {
      return;
    }
    var expectedCrc := ComputeCrc(bytes[..|bytes| - 2]);
    var actualCrc, end := ReadU16(bytes, |bytes| - 2);
    FieldValue(bytes);
    assert bytes[|bytes| - 2..end] == bytes[|bytes| - 2..];
    if actualCrc != expectedCrc {
      return;
    }
    FieldsInOrder(bytes);
    var magic, offset := ReadU32(bytes, 0);
    var version, sequence, timestamp, rawId, argument;
    version, offset := ReadU16(bytes, offset);
    if magic != COMMAND_MAGIC {
      return;
    }
    if version != COMMAND_VERSION {
      return;
    }
    sequence, offset := ReadU32(bytes, offset);
    timestamp, offset := ReadU64(bytes, offset);
    rawId, offset := ReadU16(bytes, offset);
    var id := IdOf(rawId);
    if id.None? {
      return;
    }
    argument, offset := ReadU32(bytes, offset);
    ok, packet := true, CommandPacket(sequence, timestamp, id.value, argument);
  }

  lemma {:induction false} EncodedFields(p: CommandPacket, b: seq<u8>)
    requires b == EncodeCommand(p)
    ensures |b| == 26
    ensures Value(b[0..4]) == COMMAND_MAGIC && Value(b[4..6]) == COMMAND_VERSION
    ensures Value(b[6..10]) == p.sequenceNumber && Value(b[10..18]) == p.timestampMs
    ensures Value(b[18..20]) == IdNumber(p.commandId) && Value(b[20..24]) == p.argument
  {
    CommandWidth();
    CommandFieldsFit(CommandFields(p));
    UnpackOfPack(CommandFields(p), COMMAND_WIDTHS);
    assert b[..24] == CommandBody(p);
    FieldsInOrder(b);
  }

  lemma {:induction false} EncodedCrc(p: CommandPacket, b: seq<u8>)
    requires b == EncodeCommand(p)
    ensures |b| == 26 && b[24] == Crc(b[..24]) % 256 && b[25] == Crc(b[..24]) / 256
  {
    CommandWidth();
    SealedTail(CommandBody(p), 24);
  }

  lemma {:induction false} HeaderBytes(b: seq<u8>)
    requires |b| >= 6 && Value(b[0..4]) == COMMAND_MAGIC && Value(b[4..6]) == COMMAND_VERSION
    ensures b[0..4] == [0x53, 0x44, 0x4D, 0x43] && b[4..6] == [0x01, 0x00]
  {
    EncodeOfValue(b[0..4]);
    EncodeOfValue(b[4..6]);
    FourBytes(COMMAND_MAGIC);
    TwoBytes(COMMAND_VERSION);
  }

  /** Where everything is in a command packet, byte by byte. */
  lemma {:induction false} CommandLayout(p: CommandPacket)
    ensures var b := EncodeCommand(p);
            |b| == 26 && b[0..4] == [0x53, 0x44, 0x4D, 0x43] && b[4..6] == [0x01, 0x00] &&
            Value(b[6..10]) == p.sequenceNumber && Value(b[10..18]) == p.timestampMs &&
            Value(b[18..20]) == IdNumber(p.commandId) && Value(b[20..24]) == p.argument &&
            b[24] == Crc(b[..24]) % 256 && b[25] == Crc(b[..24]) / 256
  {
    EncodedFields(p, EncodeCommand(p));
    EncodedCrc(p, EncodeCommand(p));
    HeaderBytes(EncodeCommand(p));
  }

  // ---- What a corrupted packet meets ----

  /** Accepted packets that are not equal differ in at least four bits. */
  lemma {:induction false} AcceptedCommandsFarApart(a: seq<u8>, b: seq<u8>)
    requires DecodeCommand(a).Some? && DecodeCommand(b).Some? && a != b
    ensures |DifferingBits(a, b)| >= 4
  {
    FewErrorsDetected(a, b);
    DistanceCounts(a, b);
  }

  /** The decoder refuses every corruption of a packet it accepts that flips one, two or
      three bits, or any odd number of bits, or only bits within sixteen consecutive ones
      ahead of the CRC. */
  lemma {:induction false} CorruptCommandRejected(good: seq<u8>, bad: seq<u8>, start: nat)
    requires DecodeCommand(good).Some? && |bad| == |good| && bad != good
    requires var flips := DifferingBits(good, bad);
             |flips| <= 3 || |flips| % 2 == 1 || forall j :: j in flips ==> start <= j < start + 16 && j < 192
    ensures DecodeCommand(bad) == None
  {
    if CrcValid(bad) {
      DistanceCounts(good, bad);
      OddErrorsDetected(good, bad);
      FewErrorsDetected(good, bad);
      BurstsDetected(good, bad, start);
    }
  }

  lemma {:induction false} SameUpToArgument(a: seq<u8>, b: seq<u8>)
    requires DecodeCommand(a).Some? && |b| == |a| && CrcValid(b) && a[..20] == b[..20]
    ensures DecodeCommand(b).Some?
    ensures var p, q := DecodeCommand(a).value, DecodeCommand(b).value; p == q.(argument := p.argument)
  {
    FieldsInOrder(a);
    FieldsInOrder(b);
    SamePrefixSlice(a, b, 0, 4);
    SamePrefixSlice(a, b, 4, 6);
    SamePrefixSlice(a, b, 6, 10);
    SamePrefixSlice(a, b, 10, 18);
    SamePrefixSlice(a, b, 18, 20);
  }

  lemma {:induction false} SamePrefixSlice(a: seq<u8>, b: seq<u8>, from: nat, to: nat)
    requires from <= to <= 20 <= |a| && |b| == |a| && a[..20] == b[..20]
    ensures a[from..to] == b[from..to]
  {
    SliceOfPrefix(a, 20, from, to);
    SliceOfPrefix(b, 20, from, to);
  }

  /** Four bits can still hide a change of argument: the neighbour that flips the last
      payload bit and the CRC bits it feeds is accepted too, as the same command with
      another argument. */
  lemma {:induction false} DisguisedCommandAccepted(good: seq<u8>)
    requires DecodeCommand(good).Some?
    ensures DecodeCommand(Disguise(good)).Some? && |DifferingBits(good, Disguise(good))| == 4
    ensures var p, q := DecodeCommand(good).value, DecodeCommand(Disguise(good)).value;
            p.argument != q.argument && p == q.(argument := p.argument)
  {
    var bad := Disguise(good);
    FourErrorsCanHide(good);
    DistanceCounts(good, bad);
    SameUpToArgument(good, bad);
    EncodeOfDecode(good);
    EncodeOfDecode(bad);
  }

  // ---- Command arguments ----

  /** `command_argument_to_mode`: the argument is cut to eight bits before the switch. */
  function ArgumentToMode(argument: u32): (mode: Option<Mode>)
    ensures mode.Some? <==> argument % U8_SPAN < 8
    ensures mode.Some? ==> ModeNumber(mode.value) == argument % U8_SPAN
  {
    ModeOf(argument % U8_SPAN)
  }

  /** `command_argument_to_fault`: the argument is cut to sixteen bits before the switch. */
  function ArgumentToFault(argument: u32): (fault: Option<FaultCode>)
    ensures fault.Some? ==> FaultNumber(fault.value) == argument % U16_SPAN
    ensures fault.None? ==> forall f :: FaultNumber(f) != argument % U16_SPAN
  {
    FaultOf(argument % U16_SPAN)
  }
}
