/** One step of the flight software: watchdog and health, one ground command through guard,
    authorizer and processor, then the primary internal fault, the event log and telemetry. */
module FlightApp {
  import opened Words
  import opened FlightModes
  import opened CommandPackets
  import opened TelemetryPackets
  import opened Health
  import opened WatchdogTimer
  import Fdir
  import Auth = Authorizer
  import Guard = GroundGuard
  import Log = EventLog
  import CP = CommandProcessing

  datatype AppConfig = AppConfig(
    guard: Guard.GuardConfig, policy: Auth.Policy, maximumFailedAttempts: u32, eventLogCapacity: nat)

  const DEFAULT_APP := AppConfig(Guard.GuardConfig(5000, 1000), Auth.PERMISSIVE, 3, 256)

  predicate AppConfigOk(c: AppConfig) {
    c.maximumFailedAttempts != 0 && Guard.GuardConfigOk(c.guard) && c.eventLogCapacity > 0
  }

  datatype StepInput = StepInput(
    command: Option<CommandPacket>, timestampMs: u64, cpuLoad: Load, memoryLoad: Load,
    heartbeatCount: u32, sensorAgeMs: u32, payloadAgeMs: u32, loopDurationMs: u32)

  /** What the step knows of the last ground command, for telemetry. */
  datatype LastCommand = LastCommand(sequence: u32, id: u8, status: u8)

  datatype AppState = AppState(
    processor: CP.ProcessorState, guard: Guard.GuardState,
    watchdog: WatchdogState, watchdogInitialized: bool,
    log: Log.LogState, telemetrySequence: u32, lastCommand: LastCommand)

  /** What the step decided: verdicts, reports and the fault acted on. */
  datatype Decision = Decision(
    guardResult: Option<Guard.GuardResult>, authorization: Option<Auth.Verdict>,
    commandResult: Option<CP.CommandResult>,
    watchdogReport: WatchdogReport, healthReport: HealthReport,
    primaryFault: FaultCode, faultResult: Option<CP.CommandResult>,
    watchdogFaultProcessed: bool, healthFaultProcessed: bool)

  datatype StepOutput = StepOutput(decision: Decision, telemetry: TelemetryPacket<Load>)

  function InitialApp(c: AppConfig): AppState {
    AppState(CP.POWER_ON, Guard.UNUSED_GUARD, WatchdogState(0, 0), false,
             Log.EmptyLog(c.eventLogCapacity), 0, LastCommand(0, 0, 0))
  }

  // ---- Monitoring ----

  function SnapshotOf(input: StepInput): Snapshot {
    Snapshot(input.cpuLoad, input.memoryLoad, input.sensorAgeMs, input.payloadAgeMs, input.loopDurationMs)
  }

  /** The first step starts the watchdog. */
  function WatchdogAtStart(s: AppState, input: StepInput): WatchdogState {
    if s.watchdogInitialized then s.watchdog else WatchdogState(input.timestampMs, 0)
  }

  function WatchdogReportOf(s: AppState, input: StepInput): WatchdogReport {
    ReportOf(DEFAULT_WATCHDOG, WatchdogAtStart(s, input), input.timestampMs, input.loopDurationMs)
  }

  function WatchdogAfter(s: AppState, input: StepInput): WatchdogState {
    WatchdogState(input.timestampMs,
                  MissedAfter(DEFAULT_WATCHDOG, WatchdogAtStart(s, input).missed, input.loopDurationMs))
  }

  function HealthReportOf(input: StepInput): HealthReport {
    HealthOf(DEFAULT_THRESHOLDS, SnapshotOf(input))
  }

  // ---- The ground command ----

  function GuardVerdict(c: AppConfig, g: Guard.GuardState, p: CommandPacket, nowMs: u64): Guard.GuardStatus {
    Guard.Judge(c.guard, g, p.sequenceNumber, p.timestampMs, nowMs)
  }

  /** The command passes the guard and the authorizer and reaches the processor. */
  predicate Admitted(c: AppConfig, g: Guard.GuardState, p: CommandPacket, nowMs: u64) {
    GuardVerdict(c, g, p, nowMs).Accepted? && Auth.Authorize(c.policy, p).Authorized?
  }

  function GroundStatus(c: AppConfig, s: AppState, p: CommandPacket, nowMs: u64): CP.CommandStatus {
    match GuardVerdict(c, s.guard, p, nowMs)
    case Accepted =>
      if Auth.Authorize(c.policy, p).Authorized?
      then CP.StatusOf(c.maximumFailedAttempts, s.processor, p) else CP.Unauthorized
    case DuplicateSequence => CP.DuplicateSequence
    case ReplayedSequence => CP.ReplayedSequence
    case StaleTimestamp => CP.StaleTimestamp
    case FutureTimestamp => CP.FutureTimestamp
    case GuardMisconfigured => CP.GuardConfiguration
  }

  function AfterGround(c: AppConfig, s: AppState, input: StepInput): CP.ProcessorState {
    if input.command.Some? && Admitted(c, s.guard, input.command.value, input.timestampMs)
    then CP.AfterCommand(c.maximumFailedAttempts, s.processor, input.command.value)
    else s.processor
  }

  function GuardAfter(c: AppConfig, s: AppState, input: StepInput): Guard.GuardState {
    match input.command
    case None => s.guard
    case Some(p) => Guard.AfterJudging(c.guard, s.guard, p.sequenceNumber, p.timestampMs, input.timestampMs)
  }

  function GroundResult(c: AppConfig, s: AppState, input: StepInput): Option<CP.CommandResult> {
    match input.command
    case None => None
    case Some(p) =>
      var after := AfterGround(c, s, input);
      Some(CP.CommandResult(GroundStatus(c, s, p, input.timestampMs), p.commandId, p.sequenceNumber,
                            after.mode, after.fault))
  }

  function LastCommandAfter(c: AppConfig, s: AppState, input: StepInput): LastCommand {
    match GroundResult(c, s, input)
    case None => s.lastCommand
    case Some(r) => LastCommand(r.sequenceNumber, IdNumber(r.commandId), CP.StatusNumber(r.status))
  }

  // ---- The internal fault ----

  function InternalCandidates(s: AppState, input: StepInput): seq<FaultCode> {
    Candidates(WatchdogReportOf(s, input), HealthReportOf(input))
  }

  /** The faults the two monitors hand over. */
  function Candidates(watchdog: WatchdogReport, health: HealthReport): seq<FaultCode> {
    (if watchdog.status.WatchdogExpired? && !watchdog.fault.NoFault? then [watchdog.fault] else []) +
    (if health.status.HealthCritical? && !health.fault.NoFault? then [health.fault] else [])
  }

  /** The fault to act on, kept folded as `Bits.Xor` is. */
  function PrimaryFault(s: AppState, input: StepInput): FaultCode {
    DelayedPrimary(s, input, 2)
  }

  function DelayedPrimary(s: AppState, input: StepInput, delay: nat): FaultCode
    decreases s, delay
  {
    if delay > 0 then DelayedPrimary(s, input, delay - 1) else Fdir.Primary(InternalCandidates(s, input))
  }

  lemma {:induction false} UnfoldPrimary(s: AppState, input: StepInput)
    ensures PrimaryFault(s, input) == Fdir.Primary(InternalCandidates(s, input))
  {
    assert DelayedPrimary(s, input, 2) == DelayedPrimary(s, input, 1) == DelayedPrimary(s, input, 0);
  }

  /** Internal faults take the processor's INJECT_FAULT path, past guard and authorizer. */
  function InternalCommand(fault: FaultCode, nowMs: u64): CommandPacket {
    CommandPacket(0, nowMs, InjectFault, FaultNumber(fault))
  }

  function ProcessorAfter(c: AppConfig, s: AppState, input: StepInput): CP.ProcessorState {
    var ground, fault := AfterGround(c, s, input), PrimaryFault(s, input);
    if fault.NoFault? then ground
    else CP.AfterCommand(c.maximumFailedAttempts, ground, InternalCommand(fault, input.timestampMs))
  }

  function FaultResult(c: AppConfig, s: AppState, input: StepInput): Option<CP.CommandResult> {
    var fault := PrimaryFault(s, input);
    if fault.NoFault? then None
    else Some(CP.ResultOf(c.maximumFailedAttempts, AfterGround(c, s, input), InternalCommand(fault, input.timestampMs)))
  }

  // ---- Events and telemetry ----

  function FaultEventSeverity(fault: FaultCode): Log.EventSeverity {
    match Fdir.DispositionFor(fault).severity
    case NoSeverity => Log.Info
    case Advisory => Log.Warning
    case Degraded => Log.Error
    case Critical => Log.Critical
  }

  function CommandEvents(nowMs: u64, result: Option<CP.CommandResult>): seq<Log.Event> {
    match result
    case None => []
    case Some(r) =>
      [Log.Event(nowMs, if r.status.Accepted? then Log.Info else Log.Warning, Log.CommandEvent, IdNumber(r.commandId))]
  }

  function ModeEvents(nowMs: u64, before: Mode, after: Mode): seq<Log.Event> {
    if after == before then []
    else
      var code: int := ModeNumber(after);
      [Log.Event(nowMs, Log.Info, Log.ModeEvent, code)]
  }

  function FaultEvents(nowMs: u64, before: FaultCode, after: FaultCode): seq<Log.Event> {
    if after == before then [] else [Log.Event(nowMs, FaultEventSeverity(after), Log.FdirEvent, FaultNumber(after))]
  }

  /** The events of one step: the ground command, then a mode change, then a fault change. */
  function StepEvents(nowMs: u64, result: Option<CP.CommandResult>, before: CP.ProcessorState, after: CP.ProcessorState)
    : seq<Log.Event>
  {
    CommandEvents(nowMs, result) +
    ModeEvents(nowMs, before.mode, after.mode) +
    FaultEvents(nowMs, before.fault, after.fault)
  }

  function LogAll(l: Log.LogState, events: seq<Log.Event>): Log.LogState {
    if events == [] then l else Log.Logged(LogAll(l, events[..|events| - 1]), events[|events| - 1])
  }

  function EventsOf(c: AppConfig, s: AppState, input: StepInput): seq<Log.Event> {
    StepEvents(input.timestampMs, GroundResult(c, s, input), s.processor, ProcessorAfter(c, s, input))
  }

  /** The state after one step, kept folded as `Bits.Xor` is. */
  function AfterStep(c: AppConfig, s: AppState, input: StepInput): AppState {
    DelayedStep(c, s, input, 2)
  }

  function DelayedStep(c: AppConfig, s: AppState, input: StepInput, delay: nat): AppState
    decreases s, delay
  {
    if delay > 0 then DelayedStep(c, s, input, delay - 1)
    else AppState(ProcessorAfter(c, s, input), GuardAfter(c, s, input), WatchdogAfter(s, input), true,
                  LogAll(s.log, EventsOf(c, s, input)), (s.telemetrySequence + 1) % U32_SPAN,
                  LastCommandAfter(c, s, input))
  }

  lemma {:induction false} UnfoldStep(c: AppConfig, s: AppState, input: StepInput)
    ensures AfterStep(c, s, input) ==
            AppState(ProcessorAfter(c, s, input), GuardAfter(c, s, input), WatchdogAfter(s, input), true,
                     LogAll(s.log, EventsOf(c, s, input)), (s.telemetrySequence + 1) % U32_SPAN,
                     LastCommandAfter(c, s, input))
  {
    assert DelayedStep(c, s, input, 2) == DelayedStep(c, s, input, 1) == DelayedStep(c, s, input, 0);
  }

  function TelemetryOf(s: AppState, input: StepInput): TelemetryPacket<Load> {
    TelemetryPacket(s.telemetrySequence, input.timestampMs, s.processor.mode, s.processor.fault,
                    input.cpuLoad, input.memoryLoad, input.heartbeatCount,
                    s.lastCommand.sequence, s.lastCommand.id, s.lastCommand.status)
  }

  function GuardResultOf(c: AppConfig, s: AppState, input: StepInput): Option<Guard.GuardResult> {
    match input.command
    case None => None
    case Some(p) => Some(Guard.ResultOf(c.guard, s.guard, p.sequenceNumber, p.timestampMs, input.timestampMs))
  }

  /** The authorizer's verdict on a command, asked for only once the guard has accepted it. */
  function AuthorizationOf(c: AppConfig, s: AppState, input: StepInput): Option<Auth.Verdict> {
    match input.command
    case None => None
    case Some(p) =>
      if GuardVerdict(c, s.guard, p, input.timestampMs).Accepted? then Some(Auth.Authorize(c.policy, p)) else None
  }

  predicate FaultIsWatchdogs(s: AppState, input: StepInput) {
    var report, fault := WatchdogReportOf(s, input), PrimaryFault(s, input);
    !fault.NoFault? && report.status.WatchdogExpired? && report.fault == fault
  }

  function DecisionOf(c: AppConfig, s: AppState, input: StepInput): Decision {
    Decision(GuardResultOf(c, s, input), AuthorizationOf(c, s, input), GroundResult(c, s, input),
             WatchdogReportOf(s, input), HealthReportOf(input),
             PrimaryFault(s, input), FaultResult(c, s, input), FaultIsWatchdogs(s, input),
             !PrimaryFault(s, input).NoFault? && !FaultIsWatchdogs(s, input))
  }

  // ---- The application object ----

  class FlightSoftwareApp {
    ghost const configuration: AppConfig
    const policy: Auth.Policy
    const valid: bool
    const modes: ModeManager
    const processor: CP.CommandProcessor
    const guard: Guard.GroundCommandGuard
    const watchdog: Watchdog
    const logger: Log.EventLogger
    var watchdogInitialized: bool
    var telemetrySequence: u32
    var lastCommand: LastCommand

    ghost predicate Valid()
      reads this, logger
    {
      processor.modes == modes && processor.supervisor.maximum == configuration.maximumFailedAttempts &&
      guard.configuration == configuration.guard && guard.Valid() &&
      policy == configuration.policy && watchdog.config == DEFAULT_WATCHDOG && logger.Valid() &&
      (valid <==> AppConfigOk(configuration))
    }

    ghost function View(): AppState
      reads this, modes, processor, processor.modes, processor.supervisor, guard, watchdog, logger
    {
      AppState(processor.View(), guard.View(), watchdog.View(), watchdogInitialized, logger.View(),
               telemetrySequence, lastCommand)
    }

    constructor (configuration: AppConfig)
      ensures Valid() && this.configuration == configuration && View() == InitialApp(configuration)
      ensures fresh(modes) && fresh(processor) && fresh(processor.supervisor) && fresh(guard) &&
              fresh(watchdog) && fresh(logger)
    {
      var modes := new ModeManager();
      var processor := new CP.CommandProcessor(modes, configuration.maximumFailedAttempts);
      var guard := new Guard.GroundCommandGuard(configuration.guard);
      this.configuration := configuration;
      this.modes, this.processor, this.guard := modes, processor, guard;
      policy := configuration.policy;
      watchdog := new Watchdog(DEFAULT_WATCHDOG);
      logger := new Log.EventLogger(configuration.eventLogCapacity);
      valid := configuration.maximumFailedAttempts != 0 && guard.valid && configuration.eventLogCapacity > 0;
      watchdogInitialized, telemetrySequence, lastCommand := false, 0, LastCommand(0, 0, 0);
    }

    method Step(input: StepInput) returns (output: StepOutput)
      requires Valid()
      modifies this, modes, processor, processor.supervisor, guard, watchdog, logger
      ensures Valid() && View() == AfterStep(configuration, old(View()), input)
      ensures output.decision == DecisionOf(configuration, old(View()), input)
      ensures output.telemetry == TelemetryOf(View(), input)
    {
      ghost var s := View();
      var before := CP.ProcessorState(modes.mode, processor.lastFault, 0);
      UnfoldStep(configuration, s, input);
      var decision := Decide(input, s);
      var telemetry := Conclude(input, before, decision.commandResult, AfterStep(configuration, s, input));
      output := StepOutput(decision, telemetry);
    }

    /** Everything up to and including the internal fault. */
    method Decide(input: StepInput, ghost s: AppState) returns (decision: Decision)
      requires Valid() && s == View()
      modifies this`watchdogInitialized, this`lastCommand, modes, processor, processor.supervisor, guard, watchdog
      ensures watchdogInitialized && watchdog.missed == WatchdogAfter(s, input).missed
      ensures processor.View() == ProcessorAfter(configuration, s, input)
      ensures guard.View() == GuardAfter(configuration, s, input)
      ensures lastCommand == LastCommandAfter(configuration, s, input)
      ensures decision == DecisionOf(configuration, s, input)
    {
      var watchdogReport, healthReport := Monitor(input, s);
      var guardResult, authorization, commandResult := HandleGround(input, s);
      var primary, faultResult, byWatchdog, byHealth := HandleInternal(input, watchdogReport, healthReport, s);
      decision := Decision(guardResult, authorization, commandResult, watchdogReport, healthReport, primary,
                           faultResult, byWatchdog, byHealth);
    }

    /** Kick, events and telemetry, which bring the application to state `t`. */
    method Conclude(input: StepInput, before: CP.ProcessorState, result: Option<CP.CommandResult>, ghost t: AppState)
      returns (telemetry: TelemetryPacket<Load>)
      requires Valid() && processor.View() == t.processor && guard.View() == t.guard && lastCommand == t.lastCommand
      requires watchdogInitialized && t.watchdogInitialized
      requires t.watchdog == WatchdogState(input.timestampMs, watchdog.missed)
      requires t.log == LogAll(logger.View(), StepEvents(input.timestampMs, result, before, t.processor))
      requires t.telemetrySequence == (telemetrySequence + 1) % U32_SPAN
      modifies this`telemetrySequence, watchdog, logger
      ensures Valid() && View() == t && telemetry == TelemetryOf(t, input)
    {
      watchdog.Kick(input.timestampMs);
      RecordEvents(input.timestampMs, before, result);
      telemetrySequence := (telemetrySequence + 1) % U32_SPAN;
      telemetry := TelemetryPacket(
        telemetrySequence, input.timestampMs, modes.mode, processor.lastFault,
        input.cpuLoad, input.memoryLoad, input.heartbeatCount,
        lastCommand.sequence, lastCommand.id, lastCommand.status);
    }

    method Monitor(input: StepInput, ghost s: AppState)
      returns (watchdogReport: WatchdogReport, healthReport: HealthReport)
      requires Valid() && s.watchdog == watchdog.View() && s.watchdogInitialized == watchdogInitialized
      modifies this`watchdogInitialized, watchdog
      ensures watchdogInitialized && watchdog.View().missed == WatchdogAfter(s, input).missed
      ensures watchdogReport == WatchdogReportOf(s, input) && healthReport == HealthReportOf(input)
    {
      if !watchdogInitialized {
        watchdog.Reset(input.timestampMs);
        watchdogInitialized := true;
      }
      watchdogReport := watchdog.Evaluate(input.timestampMs, input.loopDurationMs);
      healthReport := EvaluateHealth(DEFAULT_THRESHOLDS, SnapshotOf(input));
    }

    method HandleGround(input: StepInput, ghost s: AppState)
      returns (guardResult: Option<Guard.GuardResult>, authorization: Option<Auth.Verdict>,
               result: Option<CP.CommandResult>)
      requires Valid() && s.processor == processor.View() && s.guard == guard.View() && s.lastCommand == lastCommand
      modifies this`lastCommand, modes, processor, processor.supervisor, guard
      ensures processor.View() == AfterGround(configuration, s, input)
      ensures guard.View() == GuardAfter(configuration, s, input)
      ensures lastCommand == LastCommandAfter(configuration, s, input)
      ensures result == GroundResult(configuration, s, input)
      ensures guardResult == GuardResultOf(configuration, s, input)
      ensures authorization == AuthorizationOf(configuration, s, input)
    {
      if input.command.None? {
        return None, None, None;
      }
      var p := input.command.value;
      var verdict := guard.Evaluate(p.sequenceNumber, p.timestampMs, input.timestampMs);
      guardResult, authorization := Some(verdict), None;
      var r: CP.CommandResult;
      match verdict.status {
        case Accepted =>
          var authorized := Auth.Authorize(policy, p);
          authorization := Some(authorized);
          if authorized.Authorized? {
            r := processor.Process(p);
          } else {
            r := RejectGround(p, CP.Unauthorized);
          }
        case DuplicateSequence => r := RejectGround(p, CP.DuplicateSequence);
        case ReplayedSequence => r := RejectGround(p, CP.ReplayedSequence);
        case StaleTimestamp => r := RejectGround(p, CP.StaleTimestamp);
        case FutureTimestamp => r := RejectGround(p, CP.FutureTimestamp);
        case GuardMisconfigured => r := RejectGround(p, CP.GuardConfiguration);
      }
      lastCommand := LastCommand(r.sequenceNumber, IdNumber(r.commandId), CP.StatusNumber(r.status));
      result := Some(r);
    }

    method RejectGround(p: CommandPacket, status: CP.CommandStatus) returns (r: CP.CommandResult)
      ensures r == CP.CommandResult(status, p.commandId, p.sequenceNumber, modes.mode, processor.lastFault)
    {
      r := CP.CommandResult(status, p.commandId, p.sequenceNumber, modes.mode, processor.lastFault);
    }

    method HandleInternal(
      input: StepInput, watchdogReport: WatchdogReport, healthReport: HealthReport, ghost s: AppState)
      returns (primary: FaultCode, result: Option<CP.CommandResult>, byWatchdog: bool, byHealth: bool)
      requires Valid() && processor.View() == AfterGround(configuration, s, input)
      requires watchdogReport == WatchdogReportOf(s, input) && healthReport == HealthReportOf(input)
      modifies modes, processor, processor.supervisor
      ensures processor.View() == ProcessorAfter(configuration, s, input)
      ensures primary == PrimaryFault(s, input) && result == FaultResult(configuration, s, input)
      ensures byWatchdog == FaultIsWatchdogs(s, input) && byHealth == (!primary.NoFault? && !byWatchdog)
    {
      var watchdogActive := watchdogReport.status.WatchdogExpired? && !watchdogReport.fault.NoFault?;
      var healthActive := healthReport.status.HealthCritical? && !healthReport.fault.NoFault?;
      var candidates := CollectFaults(watchdogReport, healthReport);
      UnfoldPrimary(s, input);
      primary := Fdir.SelectPrimaryFault(candidates);
      result, byWatchdog, byHealth := None, false, false;
      if !primary.NoFault? {
        var r := processor.Process(InternalCommand(primary, input.timestampMs));
        result := Some(r);
        if watchdogActive && watchdogReport.fault == primary {
          byWatchdog := true;
        } else if healthActive && healthReport.fault == primary {
          byHealth := true;
        }
      }
    }

    method CollectFaults(watchdogReport: WatchdogReport, healthReport: HealthReport)
      returns (candidates: seq<FaultCode>)
      ensures candidates == Candidates(watchdogReport, healthReport)
    {
      candidates := [];
      if watchdogReport.status.WatchdogExpired? && !watchdogReport.fault.NoFault? {
        candidates := candidates + [watchdogReport.fault];
      }
      if healthReport.status.HealthCritical? && !healthReport.fault.NoFault? {
        candidates := candidates + [healthReport.fault];
      }
    }

    method RecordEvents(nowMs: u64, before: CP.ProcessorState, result: Option<CP.CommandResult>)
      requires Valid()
      modifies logger
      ensures logger.Valid()
      ensures logger.View() == LogAll(old(logger.View()), StepEvents(nowMs, result, before, processor.View()))
    {
      ghost var l, command := logger.View(), CommandEvents(nowMs, result);
      ghost var mode := ModeEvents(nowMs, before.mode, modes.mode);
      ghost var fault := FaultEvents(nowMs, before.fault, processor.lastFault);
      RecordCommand(nowMs, result);
      RecordMode(nowMs, before.mode);
      RecordFault(nowMs, before.fault);
      LogMore(l, command, mode);
      LogMore(l, command + mode, fault);
    }

    method RecordCommand(nowMs: u64, result: Option<CP.CommandResult>)
      requires Valid()
      modifies logger
      ensures logger.Valid() && logger.View() == LogAll(old(logger.View()), CommandEvents(nowMs, result))
    {
      ghost var l := logger.View();
      if result.Some? {
        var r := result.value;
        var e := Log.Event(
          nowMs, if r.status.Accepted? then Log.Info else Log.Warning, Log.CommandEvent, IdNumber(r.commandId));
        var n := logger.Log(e);
        LogOne(l, e);
      }
    }

    method RecordMode(nowMs: u64, before: Mode)
      requires Valid()
      modifies logger
      ensures logger.Valid() && logger.View() == LogAll(old(logger.View()), ModeEvents(nowMs, before, modes.mode))
    {
      ghost var l := logger.View();
      if modes.mode != before {
        var code: int := ModeNumber(modes.mode);
        var e := Log.Event(nowMs, Log.Info, Log.ModeEvent, code);
        var n := logger.Log(e);
        LogOne(l, e);
      }
    }

    method RecordFault(nowMs: u64, before: FaultCode)
      requires Valid()
      modifies logger
      ensures logger.Valid()
      ensures logger.View() == LogAll(old(logger.View()), FaultEvents(nowMs, before, processor.lastFault))
    {
      ghost var l := logger.View();
      if processor.lastFault != before {
        var severity := Log.Info;
        if !processor.lastFault.NoFault? {
          severity := FaultEventSeverity(processor.lastFault);
        }
        var e := Log.Event(nowMs, severity, Log.FdirEvent, FaultNumber(processor.lastFault));
        var n := logger.Log(e);
        LogOne(l, e);
      }
    }
  }

  lemma {:induction false} LogOne(l: Log.LogState, e: Log.Event)
    ensures LogAll(l, [e]) == Log.Logged(l, e)
  {
    assert [e][..0] == [];
    assert LogAll(l, [e]) == Log.Logged(LogAll(l, []), e);
  }

  lemma {:induction false} LogMore(l: Log.LogState, a: seq<Log.Event>, b: seq<Log.Event>)
    ensures LogAll(LogAll(l, a), b) == LogAll(l, a + b)
    decreases |b|
  {
    if b == [] {
      assert a + b == a;
    } else {
      var n := |b| - 1;
      LogMore(l, a, b[..n]);
      assert (a + b)[..|a + b| - 1] == a + b[..n];
    }
  }
}
