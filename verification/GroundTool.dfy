/** The ground side's own implementation of the command wire format: a CRC over Python's
    unbounded integers, cut to sixteen bits by masks, and `struct.pack` with "<IHIQHI". */
module GroundTool {
  import opened Words
  import opened Bits
  import opened LittleEndian
  import opened Crc16
  import opened CommandPackets
  import opened Framing
  import opened FlightModes
  import opened Protocol
  import opened CommandProcessing

  /** `n & 0xFFFF` on an integer of any size. */
  function Masked(n: nat): nat {
    n % 0x1_0000
  }

  /** `n & 0x8000` as a condition. */
  predicate HighBit(n: nat) {
    n / 0x8000 % 2 == 1
  }

  function PythonTurn(crc: nat): nat {
    if HighBit(crc) then Masked(Xor(2 * crc, 0x1021)) else Masked(2 * crc)
  }

  lemma {:induction false} MaskedXor(a: nat, b: nat)
    requires b < 0x1_0000
    ensures Masked(Xor(a, b)) == Xor(Masked(a), b)
  {
    Pow2Of16();
    XorBound(Masked(a), b, 16);
    assert Pow2(16) * (a / 0x1_0000) == a - Masked(a);
    var mixed := Xor(a, b);
    forall k: nat | k < 16
      ensures Bit(Masked(mixed), k) == Bit(Xor(Masked(a), b), k)
    {
      GluedBit(Masked(a), a / 0x1_0000, 16, k);
      GluedBit(Masked(mixed), mixed / 0x1_0000, 16, k);
      XorBit(a, b, k);
      XorBit(Masked(a), b, k);
    }
    SameBits(Masked(mixed), Xor(Masked(a), b), 16);
  }

  /** On registers that fit sixteen bits the masked integer step is the word step. */
  lemma {:induction false} TurnIsStep(crc: u16)
    ensures PythonTurn(crc) == Step(crc)
  {
    var doubled: nat := 2 * crc;
    assert HighBit(crc) <==> TopBitSet(crc);
    assert Masked(doubled) == ShiftLeft(crc);
    MaskedXor(doubled, 0x1021);
  }

  /** `crc16_ccitt`. */
  method PythonCrc(data: seq<u8>) returns (crc: nat)
    ensures crc == Crc(data)
  {
    crc := 0xFFFF;
    for i := 0 to |data|
      invariant crc == Absorb(INITIAL_REGISTER, data[..i])
    {
      crc := Xor(crc, High(data[i]));
      ghost var mixed: u16 := Xor16(Absorb(INITIAL_REGISTER, data[..i]), High(data[i]));
      for turn := 0 to BYTE_BITS
        invariant crc == Steps(mixed, turn)
      {
        TurnIsStep(Steps(mixed, turn));
        if HighBit(crc) {
          crc := Masked(Xor(2 * crc, 0x1021));
        } else {
          crc := Masked(2 * crc);
        }
      }
      assert data[..i + 1][..i] == data[..i];
    }
    assert data[..|data|] == data;
  }

  // ---- Building a packet ----

  // The tool's own constants and dictionaries.

  const PYTHON_MAGIC := 0x434D4453
  const PYTHON_VERSION := 1

  /** The fields of "<IHIQHI": unsigned, of 4, 2, 4, 8, 2 and 4 bytes. */
  const PYTHON_FORMAT: seq<nat> := [4, 2, 4, 8, 2, 4]

  function PythonCommands(name: string): Option<int> {
    if name == "NOOP" then Some(0)
    else if name == "SET_MODE" then Some(1)
    else if name == "INJECT_FAULT" then Some(2)
    else if name == "REQUEST_TELEMETRY" then Some(3)
    else if name == "CLEAR_FAULT" then Some(4)
    else None
  }

  function PythonModes(name: string): Option<int> {
    if name == "BOOT" then Some(0)
    else if name == "NOMINAL" then Some(1)
    else if name == "DEGRADED_SENSOR" then Some(2)
    else if name == "DEGRADED_PAYLOAD" then Some(3)
    else if name == "SAFE" then Some(4)
    else if name == "RECOVERY" then Some(5)
    else if name == "STANDBY" then Some(6)
    else if name == "TEST" then Some(7)
    else None
  }

  function PythonFaults(name: string): Option<int> {
    if name == "NONE" then Some(0)
    else if name == "SENSOR_TIMEOUT" then Some(100)
    else if name == "SENSOR_INVALID_DATA" then Some(101)
    else if name == "PAYLOAD_HEARTBEAT_TIMEOUT" then Some(200)
    else if name == "CPU_OVERLOAD" then Some(300)
    else if name == "MEMORY_OVERLOAD" then Some(301)
    else if name == "TELEMETRY_SOCKET_FAILURE" then Some(400)
    else if name == "COMMAND_BAD_CRC" then Some(500)
    else if name == "COMMAND_UNKNOWN_ID" then Some(501)
    else if name == "COMMAND_TIMEOUT" then Some(502)
    else if name == "WATCHDOG_DEADLINE_MISS" then Some(600)
    else None
  }

  lemma {:induction false} CommandsAgree(id: CommandId)
    ensures PythonCommands(CommandName(id)) == Some(IdNumber(id) as int)
  {
  }

  lemma {:induction false} OnlyCommands(name: string) returns (id: CommandId)
    requires PythonCommands(name).Some?
    ensures name == CommandName(id) && PythonCommands(name).value == IdNumber(id)
  {
    id := if name == "NOOP" then Noop
          else if name == "SET_MODE" then SetMode
          else if name == "INJECT_FAULT" then InjectFault
          else if name == "REQUEST_TELEMETRY" then RequestTelemetry
          else ClearFault;
  }

  lemma {:induction false} ModesAgree(m: Mode)
    ensures PythonModes(ModeName(m)) == Some(ModeNumber(m) as int)
  {
    assert "SAFE"[0] != "BOOT"[0] && "TEST"[0] != "BOOT"[0] && "TEST"[0] != "SAFE"[0];
    assert "STANDBY"[0] != "NOMINAL"[0];
  }

  lemma {:induction false} FaultsAgree(f: FaultCode)
    ensures PythonFaults(FaultName(f)) == Some(FaultNumber(f) as int)
  {
    assert "MEMORY_OVERLOAD"[0] != "COMMAND_BAD_CRC"[0] && "COMMAND_BAD_CRC"[8] != "COMMAND_TIMEOUT"[8];
    assert "MEMORY_OVERLOAD"[0] != "COMMAND_TIMEOUT"[0];
  }

  predicate InRange(value: int, bytes: nat) {
    0 <= value < Span(bytes)
  }

  /** `struct.pack` with little-endian unsigned fields, which refuses a value out of range. */
  function StructPack(values: seq<int>, widths: seq<nat>): Option<seq<u8>>
    requires |values| == |widths|
  {
    if widths == [] then Some([])
    else if !InRange(values[0], widths[0]) then None
    else
      match StructPack(values[1..], widths[1..])
      case None => None
      case Some(rest) => Some(Encode(values[0], widths[0]) + rest)
  }

  lemma {:induction false} StructPackIsPack(values: seq<int>, naturals: seq<nat>, widths: seq<nat>)
    requires |values| == |widths|
    ensures StructPack(values, widths).Some? <==> forall i :: 0 <= i < |values| ==> InRange(values[i], widths[i])
    ensures StructPack(values, widths).Some? && naturals == values ==>
              StructPack(values, widths).value == Pack(naturals, widths)
    decreases |widths|
  {
    if widths == [] {
    } else {
      var rest := values[1..];
      StructPackIsPack(rest, if naturals == values then naturals[1..] else [], widths[1..]);
      assert forall i :: 0 <= i < |rest| ==> rest[i] == values[i + 1] && widths[1..][i] == widths[i + 1];
      if InRange(values[0], widths[0]) && StructPack(rest, widths[1..]).Some? {
        forall i | 0 <= i < |values|
          ensures InRange(values[i], widths[i])
        {
          assert i > 0 ==> InRange(rest[i - 1], widths[1..][i - 1]);
        }
      }
    }
  }

  /** A command the flight software knows by that name, with fields that fit. */
  ghost predicate Sendable(sequence: int, command: string, argument: int, timestampMs: int) {
    (exists id :: command == CommandName(id)) &&
    0 <= sequence < U32_SPAN && 0 <= timestampMs < U64_SPAN && 0 <= argument < U32_SPAN
  }

  /** `build_packet`: byte for byte the packet the flight software would encode, for every
      named command and all fields in range, and an exception otherwise. */
  method BuildPacket(sequence: int, command: string, argument: int, timestampMs: int)
    returns (packet: Option<seq<u8>>)
    ensures packet.Some? <==> Sendable(sequence, command, argument, timestampMs)
    ensures packet.Some? ==>
              forall id :: command == CommandName(id) ==>
                packet.value == EncodeCommand(CommandPacket(sequence, timestampMs, id, argument))
  {
    var number := PythonCommands(command);
    NamesAreCommands(command);
    if number.None? {
      return None;
    }
    ghost var id := OnlyCommands(command);
    var fields := [PYTHON_MAGIC, PYTHON_VERSION, sequence, timestampMs, number.value, argument];
    var payload := StructPack(fields, PYTHON_FORMAT);
    FieldRanges(sequence, timestampMs, number.value, argument);
    if payload.None? {
      return None;
    }
    FieldsAreTheSame(fields, CommandPacket(sequence, timestampMs, id, argument), payload.value);
    var crc := PythonCrc(payload.value);
    packet := Some(payload.value + Encode(crc, 2));
  }

  /** A name is in the dictionary exactly if a command bears it, and only one does. */
  lemma {:induction false} NamesAreCommands(name: string)
    ensures PythonCommands(name).Some? <==> exists id :: name == CommandName(id)
    ensures forall id, other :: name == CommandName(id) && name == CommandName(other) ==> id == other
  {
    forall id | name == CommandName(id)
      ensures PythonCommands(name) == Some(IdNumber(id) as int)
    {
      CommandsAgree(id);
    }
    if PythonCommands(name).Some? {
      var id := OnlyCommands(name);
    }
  }

  lemma {:induction false} FieldsAreTheSame(fields: seq<int>, p: CommandPacket, payload: seq<u8>)
    requires fields == [PYTHON_MAGIC, PYTHON_VERSION, p.sequenceNumber, p.timestampMs,
                        IdNumber(p.commandId), p.argument]
    requires StructPack(fields, PYTHON_FORMAT) == Some(payload)
    ensures payload == CommandBody(p)
  {
    assert fields == CommandFields(p) && PYTHON_FORMAT == COMMAND_WIDTHS;
    StructPackIsPack(fields, CommandFields(p), COMMAND_WIDTHS);
  }

  lemma {:induction false} FieldRanges(sequence: int, timestampMs: int, number: int, argument: int)
    requires 0 <= number <= 4
    ensures var fields := [PYTHON_MAGIC, PYTHON_VERSION, sequence, timestampMs, number, argument];
            StructPack(fields, PYTHON_FORMAT).Some? <==>
            0 <= sequence < U32_SPAN && 0 <= timestampMs < U64_SPAN && 0 <= argument < U32_SPAN
  {
    var fields := [PYTHON_MAGIC, PYTHON_VERSION, sequence, timestampMs, number, argument];
    Spans();
    StructPackIsPack(fields, [], PYTHON_FORMAT);
    if StructPack(fields, PYTHON_FORMAT).Some? {
      assert InRange(fields[2], PYTHON_FORMAT[2]) && InRange(fields[3], PYTHON_FORMAT[3]);
      assert InRange(fields[5], PYTHON_FORMAT[5]);
    }
  }

  // ---- From a name on the command line to the mode or fault on board ----

  /** `parse_argument`: an exception for a missing or unknown name. */
  function ParseArgument(command: string, argument: Option<string>): Option<int> {
    if command == "SET_MODE" then
      match argument
      case None => None
      case Some(name) => PythonModes(name)
    else if command == "INJECT_FAULT" then
      match argument
      case None => None
      case Some(name) => PythonFaults(name)
    else Some(0)
  }

  /** The name of a mode on the command line becomes an argument that asks for that mode. */
  lemma {:induction false} ModeArrives(m: Mode, sequence: u32, timestampMs: u64)
    ensures var argument := ParseArgument(CommandName(SetMode), Some(ModeName(m)));
            argument.Some? && 0 <= argument.value < U32_SPAN &&
            RequestedMode(CommandPacket(sequence, timestampMs, SetMode, argument.value)) == Some(m)
  {
    ModesAgree(m);
  }

  /** The name of a fault on the command line becomes an argument that injects that fault. */
  lemma {:induction false} FaultArrives(f: FaultCode, maximum: u32, s: ProcessorState, sequence: u32, timestampMs: u64)
    ensures var argument := ParseArgument(CommandName(InjectFault), Some(FaultName(f)));
            argument.Some? && 0 <= argument.value < U32_SPAN &&
            AfterCommand(maximum, s, CommandPacket(sequence, timestampMs, InjectFault, argument.value)).fault == f
  {
    FaultsAgree(f);
    InjectFaultLaw(maximum, s, CommandPacket(sequence, timestampMs, InjectFault, FaultNumber(f)), f);
  }

  lemma {:induction false} OtherArgumentsAreZero(id: CommandId, argument: Option<string>)
    requires id !in {SetMode, InjectFault}
    ensures ParseArgument(CommandName(id), argument) == Some(0)
    ensures ParseArgument(CommandName(SetMode), None) == ParseArgument(CommandName(InjectFault), None) == None
  {
  }
}
