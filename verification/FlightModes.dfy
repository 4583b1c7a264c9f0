/** Mission modes, fault codes and the transition graph of the mode manager. */
module FlightModes {
  import opened Words

  datatype Mode =
    | Boot
    | Nominal
    | DegradedSensor
    | DegradedPayload
    | Safe
    | Recovery
    | Standby
    | Test

  datatype FaultCode =
    | NoFault
    | SensorTimeout
    | SensorInvalidData
    | PayloadHeartbeatTimeout
    | CpuOverload
    | MemoryOverload
    | TelemetrySocketFailure
    | CommandBadCrc
    | CommandUnknownId
    | CommandTimeout
    | WatchdogDeadlineMiss

  function ModeNumber(m: Mode): u8 {
    match m
    case Boot => 0
    case Nominal => 1
    case DegradedSensor => 2
    case DegradedPayload => 3
    case Safe => 4
    case Recovery => 5
    case Standby => 6
    case Test => 7
  }

  function FaultNumber(f: FaultCode): u16 {
    match f
    case NoFault => 0
    case SensorTimeout => 100
    case SensorInvalidData => 101
    case PayloadHeartbeatTimeout => 200
    case CpuOverload => 300
    case MemoryOverload => 301
    case TelemetrySocketFailure => 400
    case CommandBadCrc => 500
    case CommandUnknownId => 501
    case CommandTimeout => 502
    case WatchdogDeadlineMiss => 600
  }

  /** The mode with the given number: the switches of the command and telemetry decoders. */
  function ModeOf(n: int): (m: Option<Mode>)
    ensures m.Some? ==> ModeNumber(m.value) == n
    ensures m.None? ==> forall mode :: ModeNumber(mode) != n
  {
    match n
    case 0 => Some(Boot)
    case 1 => Some(Nominal)
    case 2 => Some(DegradedSensor)
    case 3 => Some(DegradedPayload)
    case 4 => Some(Safe)
    case 5 => Some(Recovery)
    case 6 => Some(Standby)
    case 7 => Some(Test)
    case _ => None
  }

  function FaultOf(n: int): (f: Option<FaultCode>)
    ensures f.Some? ==> FaultNumber(f.value) == n
    ensures f.None? ==> forall fault :: FaultNumber(fault) != n
  {
    match n
    case 0 => Some(NoFault)
    case 100 => Some(SensorTimeout)
    case 101 => Some(SensorInvalidData)
    case 200 => Some(PayloadHeartbeatTimeout)
    case 300 => Some(CpuOverload)
    case 301 => Some(MemoryOverload)
    case 400 => Some(TelemetrySocketFailure)
    case 500 => Some(CommandBadCrc)
    case 501 => Some(CommandUnknownId)
    case 502 => Some(CommandTimeout)
    case 600 => Some(WatchdogDeadlineMiss)
    case _ => None
  }

  /** `ModeManager::is_valid_transition`. */
  predicate ValidTransition(from: Mode, to: Mode) {
    from == to ||
    match from
    case Boot => to.Standby? || to.Nominal? || to.Safe?
    case Standby => to.Nominal? || to.Test? || to.Safe?
    case Nominal => to.Standby? || to.DegradedSensor? || to.DegradedPayload? || to.Safe?
    case DegradedSensor => to.Standby? || to.Recovery? || to.Safe?
    case DegradedPayload => to.Standby? || to.Nominal? || to.Recovery? || to.Safe?
    case Test => to.Standby? || to.Safe?
    case Safe => to.Recovery?
    case Recovery => to.Standby? || to.Nominal? || to.Safe?
  }

  /** The graph seen from the other end: the modes from which each mode can be entered. SAFE is
      open to all, BOOT to none, and SAFE itself opens to RECOVERY alone. */
  lemma {:induction false} EntriesInto(from: Mode, to: Mode)
    requires from != to
    ensures ValidTransition(from, to) <==>
            match to
            case Boot => false
            case Safe => true
            case Standby => from != Safe
            case Nominal => from in {Boot, Standby, DegradedPayload, Recovery}
            case Recovery => from in {Safe, DegradedSensor, DegradedPayload}
            case DegradedSensor => from == Nominal
            case DegradedPayload => from == Nominal
            case Test => from == Standby
  {
  }

  /** Where a requested transition leads: the source stays put when the edge is missing. */
  function Moved(from: Mode, to: Mode): Mode {
    if ValidTransition(from, to) then to else from
  }

  class ModeManager {
    var mode: Mode

    constructor ()
      ensures mode == Boot
    {
      mode := Boot;
    }

    method TransitionTo(next: Mode) returns (ok: bool)
      modifies this
      ensures ok <==> ValidTransition(old(mode), next)
      ensures mode == Moved(old(mode), next)
    {
      if !ValidTransition(mode, next) {
        return false;
      }
      mode := next;
      return true;
    }
  }
}
