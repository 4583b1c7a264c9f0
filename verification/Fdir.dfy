/** Fault detection, isolation and recovery: the disposition of every fault, the choice of
    the fault to act on, and the mode change it causes. */
module Fdir {
  import opened Words
  import opened FlightModes

  datatype FaultSeverity = NoSeverity | Advisory | Degraded | Critical

  datatype FaultResponse = NoResponse | HoldCurrentMode | EnterDegradedSensor | EnterDegradedPayload | EnterSafe

  datatype Disposition = Disposition(
    fault: FaultCode, severity: FaultSeverity, response: FaultResponse, priority: u8,
    latched: bool, operatorClearRequired: bool)

  function DispositionFor(fault: FaultCode): (d: Disposition)
    ensures d.fault == fault
  {
    match fault
    case NoFault => Disposition(fault, NoSeverity, NoResponse, 0, false, false)
    case SensorTimeout => Disposition(fault, Critical, EnterSafe, 90, true, true)
    case SensorInvalidData => Disposition(fault, Critical, EnterSafe, 85, true, true)
    case PayloadHeartbeatTimeout => Disposition(fault, Degraded, EnterDegradedPayload, 50, true, false)
    case CpuOverload => Disposition(fault, Degraded, EnterDegradedPayload, 60, true, false)
    case MemoryOverload => Disposition(fault, Critical, EnterSafe, 80, true, true)
    case TelemetrySocketFailure => Disposition(fault, Critical, EnterSafe, 75, true, true)
    case CommandBadCrc => Disposition(fault, Advisory, HoldCurrentMode, 20, false, false)
    case CommandUnknownId => Disposition(fault, Advisory, HoldCurrentMode, 15, false, false)
    case CommandTimeout => Disposition(fault, Critical, EnterSafe, 70, true, true)
    case WatchdogDeadlineMiss => Disposition(fault, Critical, EnterSafe, 100, true, true)
  }

  function Priority(fault: FaultCode): u8 {
    DispositionFor(fault).priority
  }

  // ---- Choosing the primary fault ----

  /** The primary fault among those active: none of them, if none is, or the one that no
      other outranks. */
  ghost predicate IsPrimary(fault: FaultCode, active: seq<FaultCode>) {
    (fault.NoFault? || fault in active) && forall g :: g in active ==> Priority(g) <= Priority(fault)
  }

  /** The priorities rank the faults strictly, so there is one primary fault at most. */
  lemma {:induction false} PrimaryUnique(f: FaultCode, g: FaultCode, a: seq<FaultCode>, b: seq<FaultCode>)
    requires IsPrimary(f, a) && IsPrimary(g, b) && (forall x :: x in a <==> x in b)
    ensures f == g
  {
    assert Priority(f) == Priority(g);
  }

  function Primary(active: seq<FaultCode>): (fault: FaultCode)
    ensures IsPrimary(fault, active)
  {
    if active == [] then NoFault
    else
      var selected, candidate := Primary(active[..|active| - 1]), active[|active| - 1];
      if Outranks(candidate, selected) then candidate else selected
  }

  predicate Outranks(candidate: FaultCode, selected: FaultCode) {
    !candidate.NoFault? &&
    (Priority(candidate) > Priority(selected) ||
     (Priority(candidate) == Priority(selected) && FaultNumber(candidate) < FaultNumber(selected)))
  }

  /** The order in which faults are listed does not matter, nor do repetitions. */
  lemma {:induction false} PrimaryIgnoresOrder(a: seq<FaultCode>, b: seq<FaultCode>)
    requires forall x :: x in a <==> x in b
    ensures Primary(a) == Primary(b)
  {
    PrimaryUnique(Primary(a), Primary(b), a, b);
  }

  /** Choosing in two rounds gives the same as choosing at once. */
  lemma {:induction false} PrimaryOfPrimaries(a: seq<FaultCode>, b: seq<FaultCode>)
    ensures Primary([Primary(a), Primary(b)]) == Primary(a + b)
  {
    var two := [Primary(a), Primary(b)];
    assert Priority(Primary(a)) <= Priority(Primary(two)) by { assert Primary(a) in two; }
    assert Priority(Primary(b)) <= Priority(Primary(two)) by { assert Primary(b) in two; }
    assert IsPrimary(Primary(two), a + b);
    PrimaryUnique(Primary(two), Primary(a + b), a + b, a + b);
  }

  lemma {:induction false} PrimaryNext(active: seq<FaultCode>, i: nat)
    requires i < |active|
    ensures Primary(active[..i + 1]) ==
            if Outranks(active[i], Primary(active[..i])) then active[i] else Primary(active[..i])
  {
    assert active[..i + 1][..i] == active[..i];
  }

  /** `FdirManager::select_primary_fault`. */
  method SelectPrimaryFault(active: seq<FaultCode>) returns (selected: FaultCode)
    ensures selected == Primary(active)
  {
    selected := NoFault;
    for i := 0 to |active|
      invariant selected == Primary(active[..i])
    {
      PrimaryNext(active, i);
      var fault := active[i];
      if fault.NoFault? {
        continue;
      }
      var candidate, current := DispositionFor(fault), DispositionFor(selected);
      if candidate.priority > current.priority ||
         (candidate.priority == current.priority && FaultNumber(candidate.fault) < FaultNumber(current.fault)) {
        selected := fault;
      }
    }
    assert active[..|active|] == active;
  }

  // ---- Acting on a fault ----

  function ResponseMode(response: FaultResponse, current: Mode): Mode {
    match response
    case NoResponse => current
    case HoldCurrentMode => current
    case EnterDegradedSensor => DegradedSensor
    case EnterDegradedPayload => DegradedPayload
    case EnterSafe => Safe
  }

  /** The mode after a fault: the response mode where the graph allows it, SAFE otherwise. */
  function FaultedMode(mode: Mode, fault: FaultCode): Mode {
    var response := DispositionFor(fault).response;
    if response.NoResponse? || response.HoldCurrentMode? then mode
    else
      var wanted := ResponseMode(response, mode);
      if ValidTransition(mode, wanted) then wanted else Moved(mode, Safe)
  }

  /** From every mode: the advisory faults change nothing, the payload heartbeat and the CPU
      overload lead to DEGRADED_PAYLOAD from NOMINAL and from there, and everything else leads
      to SAFE. No fault leaves SAFE. */
  lemma {:induction false} FaultReaches(mode: Mode, fault: FaultCode)
    ensures FaultedMode(mode, fault) ==
            if fault in {NoFault, CommandBadCrc, CommandUnknownId} then mode
            else if fault in {PayloadHeartbeatTimeout, CpuOverload} && mode in {Nominal, DegradedPayload}
            then DegradedPayload
            else Safe
    ensures mode == Safe ==> FaultedMode(mode, fault) == Safe
    ensures FaultedMode(mode, fault) != mode ==> FaultedMode(mode, fault) in {DegradedPayload, Safe}
  {
  }

  // ---- The disposition matrix ----

  /** A row of the published matrix: severity, priority and response of one fault. */
  datatype MatrixRow = MatrixRow(fault: FaultCode, severity: FaultSeverity, priority: nat, response: FaultResponse)

  const MATRIX: seq<MatrixRow> := [
    MatrixRow(SensorTimeout, Critical, 90, EnterSafe),
    MatrixRow(SensorInvalidData, Critical, 85, EnterSafe),
    MatrixRow(PayloadHeartbeatTimeout, Degraded, 50, EnterDegradedPayload),
    MatrixRow(CpuOverload, Degraded, 60, EnterDegradedPayload),
    MatrixRow(MemoryOverload, Critical, 80, EnterSafe),
    MatrixRow(TelemetrySocketFailure, Critical, 75, EnterSafe),
    MatrixRow(CommandBadCrc, Advisory, 20, HoldCurrentMode),
    MatrixRow(CommandUnknownId, Advisory, 15, HoldCurrentMode),
    MatrixRow(CommandTimeout, Critical, 70, EnterSafe),
    MatrixRow(WatchdogDeadlineMiss, Critical, 100, EnterSafe)
  ]

  /** The table in the code is the published matrix. Whatever calls for a mode change is
      latched, and what calls for SAFE is cleared by the operator only. */
  lemma {:induction false} MatrixHolds(k: nat)
    requires k < |MATRIX|
    ensures var row := MATRIX[k];
            DispositionFor(row.fault) ==
            Disposition(row.fault, row.severity, row.response, row.priority,
                        row.severity != Advisory, row.severity == Critical)
  {
  }

  /** The matrix has a row for every fault but NONE, which calls for nothing. */
  lemma {:induction false} MatrixComplete(fault: FaultCode) returns (k: nat)
    requires !fault.NoFault?
    ensures k < |MATRIX| && MATRIX[k].fault == fault
    ensures DispositionFor(NoFault) == Disposition(NoFault, NoSeverity, NoResponse, 0, false, false)
  {
    match fault
    case SensorTimeout => k := 0;
    case SensorInvalidData => k := 1;
    case PayloadHeartbeatTimeout => k := 2;
    case CpuOverload => k := 3;
    case MemoryOverload => k := 4;
    case TelemetrySocketFailure => k := 5;
    case CommandBadCrc => k := 6;
    case CommandUnknownId => k := 7;
    case CommandTimeout => k := 8;
    case WatchdogDeadlineMiss => k := 9;
  }

  datatype FdirAction = FdirAction(
    disposition: Disposition, modeBefore: Mode, requestedMode: Mode, modeAfter: Mode,
    attempted: bool, succeeded: bool, safeFallbackUsed: bool)

  /** `FdirManager::apply_fault`. */
  method ApplyFault(modes: ModeManager, fault: FaultCode) returns (action: FdirAction)
    modifies modes
    ensures modes.mode == FaultedMode(old(modes.mode), fault)
    ensures action.disposition == DispositionFor(fault)
    ensures action.modeBefore == old(modes.mode) && action.modeAfter == modes.mode
    ensures action.attempted <==>
            action.disposition.response.EnterSafe? || action.disposition.response.EnterDegradedPayload?
    ensures action.attempted ==> action.succeeded && action.requestedMode == modes.mode
    ensures !action.attempted ==> !action.succeeded && action.requestedMode == modes.mode
    ensures action.safeFallbackUsed <==> action.disposition.response.EnterDegradedPayload? && modes.mode == Safe
  {
    var disposition := DispositionFor(fault);
    var before := modes.mode;
    var requested := ResponseMode(disposition.response, before);
    action := FdirAction(disposition, before, requested, before, false, false, false);
    if disposition.response.NoResponse? || disposition.response.HoldCurrentMode? {
      return;
    }
    var ok := modes.TransitionTo(requested);
    action := action.(attempted := true, succeeded := ok);
    if !ok && requested != Safe {
      ok := modes.TransitionTo(Safe);
      action := action.(safeFallbackUsed := true, requestedMode := Safe, succeeded := ok);
    }
    action := action.(modeAfter := modes.mode);
  }
}
