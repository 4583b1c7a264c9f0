/** The command processor and its recovery supervisor: the state machine over mode, last
    fault and failed recovery attempts. */
module CommandProcessing {
  import opened Words
  import opened FlightModes
  import opened CommandPackets
  import opened Fdir

  datatype CommandStatus =
    | Accepted
    | BadArgument
    | InvalidTransition
    | UnknownCommand
    | DuplicateSequence
    | ReplayedSequence
    | StaleTimestamp
    | FutureTimestamp
    | GuardConfiguration
    | Unauthorized
    | RecoveryLimit

  function StatusNumber(s: CommandStatus): u8 {
    match s
    case Accepted => 0
    case BadArgument => 1
    case InvalidTransition => 2
    case UnknownCommand => 3
    case DuplicateSequence => 4
    case ReplayedSequence => 5
    case StaleTimestamp => 6
    case FutureTimestamp => 7
    case GuardConfiguration => 8
    case Unauthorized => 9
    case RecoveryLimit => 10
  }

  datatype CommandResult = CommandResult(
    status: CommandStatus, commandId: CommandId, sequenceNumber: u32,
    resultingMode: Mode, resultingFault: FaultCode)

  /** Mode, last fault and failed recovery attempts. */
  datatype ProcessorState = ProcessorState(mode: Mode, fault: FaultCode, failedAttempts: u32)

  const POWER_ON := ProcessorState(Boot, NoFault, 0)

  // ---- One command ----

  /** The mode asked for, when the command is a SET_MODE with a valid argument. */
  function RequestedMode(p: CommandPacket): Option<Mode> {
    if p.commandId.SetMode? then ArgumentToMode(p.argument) else None
  }

  /** A SET_MODE that tries to leave RECOVERY for a mode the graph does not allow. */
  predicate ProhibitedExit(p: CommandPacket) {
    RequestedMode(p).Some? && !ValidTransition(Recovery, RequestedMode(p).value)
  }

  /** Recovery attempts after a failure, 32 bits wide. */
  function OneMoreFailure(failed: u32): u32 {
    (failed + 1) % U32_SPAN
  }

  predicate LimitReached(maximum: u32, s: ProcessorState, p: CommandPacket) {
    s.mode.Recovery? && ProhibitedExit(p) && maximum != 0 && OneMoreFailure(s.failedAttempts) >= maximum
  }

  function StatusOf(maximum: u32, s: ProcessorState, p: CommandPacket): CommandStatus {
    match p.commandId
    case Noop => Accepted
    case RequestTelemetry => Accepted
    case ClearFault => Accepted
    case SetMode =>
      (match ArgumentToMode(p.argument)
       case None => BadArgument
       case Some(mode) =>
         if ValidTransition(s.mode, mode) then Accepted
         else if LimitReached(maximum, s, p) then RecoveryLimit
         else InvalidTransition)
    case InjectFault => if ArgumentToFault(p.argument).Some? then Accepted else BadArgument
  }

  /** Failed attempts after an accepted move: a session starts at SAFE to RECOVERY and ends
      with success on leaving RECOVERY. A supervisor with a limit of zero records nothing. */
  function AttemptsAfterMove(maximum: u32, s: ProcessorState, to: Mode): u32 {
    if s.mode.Safe? && to.Recovery? then 0
    else if s.mode.Recovery? && !to.Recovery? && maximum != 0 then 0
    else s.failedAttempts
  }

  function AfterCommand(maximum: u32, s: ProcessorState, p: CommandPacket): ProcessorState {
    match p.commandId
    case Noop => s
    case RequestTelemetry => s
    case ClearFault => s.(fault := NoFault)
    case SetMode =>
      (match ArgumentToMode(p.argument)
       case None => s
       case Some(mode) =>
         if ValidTransition(s.mode, mode)
         then s.(mode := mode, failedAttempts := AttemptsAfterMove(maximum, s, mode))
         else if !s.mode.Recovery? || maximum == 0 then s
         else s.(mode := if LimitReached(maximum, s, p) then Safe else Recovery,
                 failedAttempts := OneMoreFailure(s.failedAttempts)))
    case InjectFault =>
      match ArgumentToFault(p.argument)
      case None => s
      case Some(fault) => s.(fault := fault, mode := FaultedMode(s.mode, fault))
  }

  function ResultOf(maximum: u32, s: ProcessorState, p: CommandPacket): CommandResult {
    var after := AfterCommand(maximum, s, p);
    CommandResult(StatusOf(maximum, s, p), p.commandId, p.sequenceNumber, after.mode, after.fault)
  }

  // ---- The supervisor and the processor ----

  datatype RecoveryStatus = Success | Failed | FailSafeForced | SupervisorMisconfigured

  datatype RecoveryResult = RecoveryResult(
    status: RecoveryStatus, failedAttempts: u32, maximumFailedAttempts: u32, failSafeForced: bool)

  class RecoverySupervisor {
    const maximum: u32
    var failedAttempts: u32

    constructor (maximum: u32)
      ensures this.maximum == maximum && failedAttempts == 0
    {
      this.maximum := maximum;
      failedAttempts := 0;
    }

    method BeginSession()
      modifies this
      ensures failedAttempts == 0
    {
      failedAttempts := 0;
    }

    method RecordSuccess() returns (result: RecoveryResult)
      modifies this
      ensures failedAttempts == if maximum == 0 then old(failedAttempts) else 0
      ensures result == RecoveryResult(if maximum == 0 then SupervisorMisconfigured else Success,
                                       failedAttempts, maximum, false)
    {
      if maximum == 0 {
        return RecoveryResult(SupervisorMisconfigured, failedAttempts, maximum, false);
      }
      failedAttempts := 0;
      return RecoveryResult(Success, 0, maximum, false);
    }

    method RecordFailure(modes: ModeManager) returns (result: RecoveryResult)
      modifies this, modes
      ensures failedAttempts == if maximum == 0 then old(failedAttempts) else OneMoreFailure(old(failedAttempts))
      ensures var limit := maximum != 0 && failedAttempts >= maximum;
              var forced := limit && ValidTransition(old(modes.mode), Safe);
              modes.mode == (if limit then Moved(old(modes.mode), Safe) else old(modes.mode)) &&
              result == RecoveryResult(
                if maximum == 0 then SupervisorMisconfigured else if forced then FailSafeForced else Failed,
                failedAttempts, maximum, forced)
    {
      if maximum == 0 {
        return RecoveryResult(SupervisorMisconfigured, failedAttempts, maximum, false);
      }
      failedAttempts := (failedAttempts + 1) % U32_SPAN;
      if failedAttempts >= maximum {
        var forced := modes.TransitionTo(Safe);
        return RecoveryResult(if forced then FailSafeForced else Failed, failedAttempts, maximum, forced);
      }
      return RecoveryResult(Failed, failedAttempts, maximum, false);
    }
  }

  class CommandProcessor {
    const modes: ModeManager
    const supervisor: RecoverySupervisor
    var lastFault: FaultCode

    ghost function View(): ProcessorState
      reads this, modes, supervisor
    {
      ProcessorState(modes.mode, lastFault, supervisor.failedAttempts)
    }

    constructor (modes: ModeManager, maximum: u32)
      ensures this.modes == modes && fresh(supervisor) && supervisor.maximum == maximum
      ensures View() == ProcessorState(modes.mode, NoFault, 0)
    {
      this.modes := modes;
      supervisor := new RecoverySupervisor(maximum);
      lastFault := NoFault;
    }

    method Process(packet: CommandPacket) returns (result: CommandResult)
      modifies this, modes, supervisor
      ensures View() == AfterCommand(supervisor.maximum, old(View()), packet)
      ensures result == ResultOf(supervisor.maximum, old(View()), packet)
    {
      var status := Accepted;
      match packet.commandId {
        case Noop =>
        case RequestTelemetry =>
        case ClearFault =>
          lastFault := NoFault;
        case SetMode =>
          status := ProcessSetMode(packet);
        case InjectFault =>
          var requested := ArgumentToFault(packet.argument);
          if requested.None? {
            status := BadArgument;
          } else {
            lastFault := requested.value;
            var action := ApplyFault(modes, requested.value);
          }
      }
      result := CommandResult(status, packet.commandId, packet.sequenceNumber, modes.mode, lastFault);
    }

    method ProcessSetMode(packet: CommandPacket) returns (status: CommandStatus)
      requires packet.commandId.SetMode?
      modifies modes, supervisor
      ensures View() == AfterCommand(supervisor.maximum, old(View()), packet)
      ensures status == StatusOf(supervisor.maximum, old(View()), packet)
    {
      var requested := ArgumentToMode(packet.argument);
      if requested.None? {
        return BadArgument;
      }
      var before := modes.mode;
      var transitioned := modes.TransitionTo(requested.value);
      if !transitioned {
        if before.Recovery? && !requested.value.Recovery? {
          var outcome := supervisor.RecordFailure(modes);
          if outcome.failSafeForced {
            return RecoveryLimit;
          }
        }
        return InvalidTransition;
      }
      if before.Safe? && requested.value.Recovery? {
        supervisor.BeginSession();
      } else if before.Recovery? && !requested.value.Recovery? {
        var outcome := supervisor.RecordSuccess();
      }
      return Accepted;
    }
  }

  // ---- Bounded recovery over every run of commands ----

  function Run(maximum: u32, packets: seq<CommandPacket>): ProcessorState
    decreases |packets|
  {
    if packets == [] then POWER_ON
    else AfterCommand(maximum, Run(maximum, packets[..|packets| - 1]), packets[|packets| - 1])
  }

  /** Failed attempts exist only in SAFE and RECOVERY, and in RECOVERY the limit is not
      reached. A supervisor with a limit of zero counts nothing. */
  predicate Bounded(maximum: u32, s: ProcessorState) {
    (s.failedAttempts != 0 ==> s.mode.Safe? || s.mode.Recovery?) &&
    (s.mode.Recovery? ==> s.failedAttempts < maximum || s.failedAttempts == maximum == 0)
  }

  lemma {:induction false} CommandKeepsBounded(maximum: u32, s: ProcessorState, p: CommandPacket)
    requires Bounded(maximum, s)
    ensures Bounded(maximum, AfterCommand(maximum, s, p))
  {
    if p.commandId.InjectFault? && ArgumentToFault(p.argument).Some? {
      FaultReaches(s.mode, ArgumentToFault(p.argument).value);
    }
  }

  lemma {:induction false} RunIsBounded(maximum: u32, packets: seq<CommandPacket>)
    ensures Bounded(maximum, Run(maximum, packets))
    decreases |packets|
  {
    if packets == [] {
    } else {
      var n := |packets| - 1;
      RunIsBounded(maximum, packets[..n]);
      CommandKeepsBounded(maximum, Run(maximum, packets[..n]), packets[n]);
    }
  }

  /** Every entry to RECOVERY, from whatever mode, starts with no failed attempts. */
  lemma {:induction false} EntryStartsAtZero(maximum: u32, packets: seq<CommandPacket>, p: CommandPacket)
    requires var s := Run(maximum, packets); !s.mode.Recovery? && AfterCommand(maximum, s, p).mode.Recovery?
    ensures AfterCommand(maximum, Run(maximum, packets), p).failedAttempts == 0
  {
    RunIsBounded(maximum, packets);
    if p.commandId.InjectFault? && ArgumentToFault(p.argument).Some? {
      FaultReaches(Run(maximum, packets).mode, ArgumentToFault(p.argument).value);
    }
  }

  /** Prohibited exits since the current stay in RECOVERY began. */
  function ExitsSinceEntry(maximum: u32, packets: seq<CommandPacket>): nat
    decreases |packets|
  {
    if packets == [] then 0
    else
      var n := |packets| - 1;
      var stayed := Run(maximum, packets[..n]).mode.Recovery? && Run(maximum, packets).mode.Recovery?;
      if !stayed then 0
      else ExitsSinceEntry(maximum, packets[..n]) + if ProhibitedExit(packets[n]) then 1 else 0
  }

  /** In RECOVERY the counter is the number of prohibited exits since entry, or zero if the
      limit is. */
  lemma {:induction false} AttemptsCountExits(maximum: u32, packets: seq<CommandPacket>)
    requires Run(maximum, packets).mode.Recovery?
    ensures var failed, exits := Run(maximum, packets).failedAttempts, ExitsSinceEntry(maximum, packets);
            if maximum == 0 then failed == 0 else failed == exits < maximum
    decreases |packets|
  {
    RunIsBounded(maximum, packets);
    if packets == [] {
    } else {
      var n := |packets| - 1;
      var before, p := Run(maximum, packets[..n]), packets[n];
      RunIsBounded(maximum, packets[..n]);
      if before.mode.Recovery? {
        AttemptsCountExits(maximum, packets[..n]);
        if p.commandId.InjectFault? && ArgumentToFault(p.argument).Some? {
          FaultReaches(before.mode, ArgumentToFault(p.argument).value);
        }
      } else {
        EntryStartsAtZero(maximum, packets[..n], p);
      }
    }
  }

  lemma {:induction false} LimitStrikes(maximum: u32, s: ProcessorState, p: CommandPacket, exits: nat)
    requires s.mode.Recovery? && maximum != 0 ==> s.failedAttempts == exits < maximum
    ensures StatusOf(maximum, s, p).RecoveryLimit? <==> s.mode.Recovery? && ProhibitedExit(p) && exits + 1 == maximum
    ensures StatusOf(maximum, s, p).RecoveryLimit? ==> AfterCommand(maximum, s, p).mode.Safe?
  {
  }

  /** The recovery limit strikes exactly on the prohibited exit that makes the count since
      entry reach the maximum, and leaves the mode SAFE. */
  lemma {:induction false} LimitStrikesExactly(maximum: u32, packets: seq<CommandPacket>, p: CommandPacket)
    ensures var s := Run(maximum, packets);
            StatusOf(maximum, s, p).RecoveryLimit? <==>
            s.mode.Recovery? && ProhibitedExit(p) && ExitsSinceEntry(maximum, packets) + 1 == maximum
    ensures var s := Run(maximum, packets);
            StatusOf(maximum, s, p).RecoveryLimit? ==> AfterCommand(maximum, s, p).mode.Safe?
  {
    if Run(maximum, packets).mode.Recovery? {
      AttemptsCountExits(maximum, packets);
    }
    LimitStrikes(maximum, Run(maximum, packets), p, ExitsSinceEntry(maximum, packets));
  }

  // ---- The law of each command ----

  /** NOOP and REQUEST_TELEMETRY are accepted and change nothing. */
  lemma {:induction false} IdleCommands(maximum: u32, s: ProcessorState, p: CommandPacket)
    requires p.commandId in {Noop, RequestTelemetry}
    ensures AfterCommand(maximum, s, p) == s && StatusOf(maximum, s, p) == Accepted
  {
  }

  /** CLEAR_FAULT is accepted and clears the fault, and nothing else. */
  lemma {:induction false} ClearFaultLaw(maximum: u32, s: ProcessorState, p: CommandPacket)
    requires p.commandId == ClearFault
    ensures AfterCommand(maximum, s, p) == ProcessorState(s.mode, NoFault, s.failedAttempts)
    ensures StatusOf(maximum, s, p) == Accepted
  {
  }

  /** INJECT_FAULT is accepted exactly for an argument whose low sixteen bits number a fault;
      that fault is then active, and the mode is where it leads. */
  lemma {:induction false} InjectFaultLaw(maximum: u32, s: ProcessorState, p: CommandPacket, fault: FaultCode)
    requires p.commandId == InjectFault
    ensures StatusOf(maximum, s, p) in {Accepted, BadArgument}
    ensures p.argument % U16_SPAN == FaultNumber(fault) ==>
              StatusOf(maximum, s, p) == Accepted &&
              AfterCommand(maximum, s, p) == ProcessorState(FaultedMode(s.mode, fault), fault, s.failedAttempts)
    ensures StatusOf(maximum, s, p) == BadArgument ==> AfterCommand(maximum, s, p) == s
    ensures StatusOf(maximum, s, p) == Accepted ==> exists f :: p.argument % U16_SPAN == FaultNumber(f)
  {
    if ArgumentToFault(p.argument).Some? {
      assert p.argument % U16_SPAN == FaultNumber(ArgumentToFault(p.argument).value);
    }
  }

  /** SET_MODE never touches the fault. A low byte of eight or more is a bad argument and
      changes nothing; an allowed transition is accepted and ends in the mode the low byte
      numbers; any other is refused and the mode stays, unless it strikes the recovery limit,
      which ends in SAFE. */
  lemma {:induction false} SetModeLaw(maximum: u32, s: ProcessorState, p: CommandPacket, mode: Mode)
    requires p.commandId == SetMode
    ensures AfterCommand(maximum, s, p).fault == s.fault
    ensures p.argument % U8_SPAN >= 8 ==>
              StatusOf(maximum, s, p) == BadArgument && AfterCommand(maximum, s, p) == s
    ensures p.argument % U8_SPAN == ModeNumber(mode) && ValidTransition(s.mode, mode) ==>
              StatusOf(maximum, s, p) == Accepted && AfterCommand(maximum, s, p).mode == mode
    ensures p.argument % U8_SPAN == ModeNumber(mode) && !ValidTransition(s.mode, mode) ==>
              (StatusOf(maximum, s, p) == InvalidTransition && AfterCommand(maximum, s, p).mode == s.mode) ||
              (StatusOf(maximum, s, p) == RecoveryLimit && s.mode == Recovery &&
               AfterCommand(maximum, s, p).mode == Safe)
  {
    if p.argument % U8_SPAN == ModeNumber(mode) {
      assert ArgumentToMode(p.argument) == Some(mode);
    }
  }

  /** The result of a command names the command and the state it leaves. */
  lemma {:induction false} ResultTells(maximum: u32, s: ProcessorState, p: CommandPacket)
    ensures var r, after := ResultOf(maximum, s, p), AfterCommand(maximum, s, p);
            r == CommandResult(StatusOf(maximum, s, p), p.commandId, p.sequenceNumber, after.mode, after.fault)
  {
  }

  // ---- The active fault over every run of commands ----

  /** The fault of the last INJECT_FAULT that names one since the last CLEAR_FAULT. */
  function LastInjected(packets: seq<CommandPacket>): FaultCode
    decreases |packets|
  {
    if packets == [] then NoFault
    else
      var n := |packets| - 1;
      match packets[n].commandId
      case ClearFault => NoFault
      case InjectFault =>
        (match FaultOf(packets[n].argument % U16_SPAN)
         case Some(fault) => fault
         case None => LastInjected(packets[..n]))
      case _ => LastInjected(packets[..n])
  }

  lemma {:induction false} FaultIsLastInjected(maximum: u32, packets: seq<CommandPacket>)
    ensures Run(maximum, packets).fault == LastInjected(packets)
    decreases |packets|
  {
    if packets == [] {
    } else {
      FaultIsLastInjected(maximum, packets[..|packets| - 1]);
    }
  }
}
