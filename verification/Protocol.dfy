/** The names of modes, faults, commands and statuses, and the published manifest that gives
    every name its number. */
module Protocol {
  import opened Words
  import opened FlightModes
  import opened CommandPackets
  import opened TelemetryPackets
  import opened CommandProcessing

  function ModeName(m: Mode): string {
    match m
    case Boot => "BOOT"
    case Nominal => "NOMINAL"
    case DegradedSensor => "DEGRADED_SENSOR"
    case DegradedPayload => "DEGRADED_PAYLOAD"
    case Safe => "SAFE"
    case Recovery => "RECOVERY"
    case Standby => "STANDBY"
    case Test => "TEST"
  }

  function FaultName(f: FaultCode): string {
    match f
    case NoFault => "NONE"
    case SensorTimeout => "SENSOR_TIMEOUT"
    case SensorInvalidData => "SENSOR_INVALID_DATA"
    case PayloadHeartbeatTimeout => "PAYLOAD_HEARTBEAT_TIMEOUT"
    case CpuOverload => "CPU_OVERLOAD"
    case MemoryOverload => "MEMORY_OVERLOAD"
    case TelemetrySocketFailure => "TELEMETRY_SOCKET_FAILURE"
    case CommandBadCrc => "COMMAND_BAD_CRC"
    case CommandUnknownId => "COMMAND_UNKNOWN_ID"
    case CommandTimeout => "COMMAND_TIMEOUT"
    case WatchdogDeadlineMiss => "WATCHDOG_DEADLINE_MISS"
  }

  function CommandName(id: CommandId): string {
    match id
    case Noop => "NOOP"
    case SetMode => "SET_MODE"
    case InjectFault => "INJECT_FAULT"
    case RequestTelemetry => "REQUEST_TELEMETRY"
    case ClearFault => "CLEAR_FAULT"
  }

  function StatusName(s: CommandStatus): string {
    match s
    case Accepted => "ACCEPTED"
    case BadArgument => "REJECTED_BAD_ARGUMENT"
    case InvalidTransition => "REJECTED_INVALID_TRANSITION"
    case UnknownCommand => "REJECTED_UNKNOWN_COMMAND"
    case DuplicateSequence => "REJECTED_DUPLICATE_SEQUENCE"
    case ReplayedSequence => "REJECTED_REPLAYED_SEQUENCE"
    case StaleTimestamp => "REJECTED_STALE_TIMESTAMP"
    case FutureTimestamp => "REJECTED_FUTURE_TIMESTAMP"
    case GuardConfiguration => "REJECTED_GUARD_CONFIGURATION"
    case Unauthorized => "REJECTED_UNAUTHORIZED"
    case RecoveryLimit => "REJECTED_RECOVERY_LIMIT"
  }

  // ---- The manifest ----

  const COMMANDS: seq<(string, int)> := [
    ("NOOP", 0), ("SET_MODE", 1), ("INJECT_FAULT", 2), ("REQUEST_TELEMETRY", 3), ("CLEAR_FAULT", 4)
  ]

  const COMMAND_STATUSES: seq<(string, int)> := [
    ("ACCEPTED", 0), ("REJECTED_BAD_ARGUMENT", 1), ("REJECTED_INVALID_TRANSITION", 2),
    ("REJECTED_UNKNOWN_COMMAND", 3), ("REJECTED_DUPLICATE_SEQUENCE", 4), ("REJECTED_REPLAYED_SEQUENCE", 5),
    ("REJECTED_STALE_TIMESTAMP", 6), ("REJECTED_FUTURE_TIMESTAMP", 7), ("REJECTED_GUARD_CONFIGURATION", 8),
    ("REJECTED_UNAUTHORIZED", 9), ("REJECTED_RECOVERY_LIMIT", 10)
  ]

  const MODES: seq<(string, int)> := [
    ("BOOT", 0), ("NOMINAL", 1), ("DEGRADED_SENSOR", 2), ("DEGRADED_PAYLOAD", 3),
    ("SAFE", 4), ("RECOVERY", 5), ("STANDBY", 6), ("TEST", 7)
  ]

  const FAULTS: seq<(string, int)> := [
    ("NONE", 0), ("SENSOR_TIMEOUT", 100), ("SENSOR_INVALID_DATA", 101), ("PAYLOAD_HEARTBEAT_TIMEOUT", 200),
    ("CPU_OVERLOAD", 300), ("MEMORY_OVERLOAD", 301), ("TELEMETRY_SOCKET_FAILURE", 400), ("COMMAND_BAD_CRC", 500),
    ("COMMAND_UNKNOWN_ID", 501), ("COMMAND_TIMEOUT", 502), ("WATCHDOG_DEADLINE_MISS", 600)
  ]

  /** The numbers on the wire are those of the manifest: magics, versions and sizes. */
  lemma {:induction false} PacketsMatchManifest()
    ensures COMMAND_MAGIC == 1129137235 && COMMAND_VERSION == 1 && COMMAND_PACKET_SIZE == 26
    ensures TELEMETRY_MAGIC == 1095980114 && TELEMETRY_VERSION == 1
    ensures TELEMETRY_PACKET_TYPE_HEALTH == 1 && TELEMETRY_PACKET_SIZE == 43
  {
  }

  /** Every command has its manifest entry, under its own name and number, and the manifest
      has no other. */
  lemma {:induction false} CommandsMatchManifest(id: CommandId) returns (k: nat)
    ensures k < |COMMANDS| == 5 && COMMANDS[k] == (CommandName(id), IdNumber(id) as int)
  {
    match id
    case Noop => k := 0;
    case SetMode => k := 1;
    case InjectFault => k := 2;
    case RequestTelemetry => k := 3;
    case ClearFault => k := 4;
  }

  lemma {:induction false} StatusesMatchManifest(s: CommandStatus) returns (k: nat)
    ensures k < |COMMAND_STATUSES| == 11 && COMMAND_STATUSES[k] == (StatusName(s), StatusNumber(s) as int)
  {
    k := StatusNumber(s);
    match s
    case Accepted =>
    case BadArgument =>
    case InvalidTransition =>
    case UnknownCommand =>
    case DuplicateSequence =>
    case ReplayedSequence =>
    case StaleTimestamp =>
    case FutureTimestamp =>
    case GuardConfiguration =>
    case Unauthorized =>
    case RecoveryLimit =>
  }

  lemma {:induction false} ModesMatchManifest(m: Mode) returns (k: nat)
    ensures k < |MODES| == 8 && MODES[k] == (ModeName(m), ModeNumber(m) as int)
  {
    match m
    case Boot => k := 0;
    case Nominal => k := 1;
    case DegradedSensor => k := 2;
    case DegradedPayload => k := 3;
    case Safe => k := 4;
    case Recovery => k := 5;
    case Standby => k := 6;
    case Test => k := 7;
  }

  lemma {:induction false} FaultsMatchManifest(f: FaultCode) returns (k: nat)
    ensures k < |FAULTS| == 11 && FAULTS[k] == (FaultName(f), FaultNumber(f) as int)
  {
    match f
    case NoFault => k := 0;
    case SensorTimeout => k := 1;
    case SensorInvalidData => k := 2;
    case PayloadHeartbeatTimeout => k := 3;
    case CpuOverload => k := 4;
    case MemoryOverload => k := 5;
    case TelemetrySocketFailure => k := 6;
    case CommandBadCrc => k := 7;
    case CommandUnknownId => k := 8;
    case CommandTimeout => k := 9;
    case WatchdogDeadlineMiss => k := 10;
  }
}
