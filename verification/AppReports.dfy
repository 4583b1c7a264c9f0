/** What every step of an application run hands out: telemetry, the verdict on the ground
    command, the reports of the monitors, and the attribution of the internal fault. */
module AppReports {
  import opened Words
  import opened FlightModes
  import opened CommandPackets
  import opened TelemetryPackets
  import opened Health
  import opened WatchdogTimer
  import opened FlightApp
  import opened AppRuns
  import opened AppHistory
  import Fdir
  import Auth = Authorizer
  import Guard = GroundGuard
  import CP = CommandProcessing

  // ---- Telemetry ----

  /** Number, identifier and status of the last ground command, zero before the first. */
  function LastGround(c: AppConfig, inputs: seq<StepInput>): LastCommand
    decreases |inputs|
  {
    if inputs == [] then LastCommand(0, 0, 0)
    else
      var n := |inputs| - 1;
      match inputs[n].command
      case None => LastGround(c, inputs[..n])
      case Some(p) =>
        LastCommand(p.sequenceNumber, IdNumber(p.commandId),
                    CP.StatusNumber(GroundStatus(c, Run(c, inputs[..n]), p, inputs[n].timestampMs)))
  }

  lemma {:induction false} LastCommandTold(c: AppConfig, inputs: seq<StepInput>)
    ensures Run(c, inputs).lastCommand == LastGround(c, inputs)
    decreases |inputs|
  {
    if inputs == [] {
    } else {
      var n := |inputs| - 1;
      LastCommandTold(c, inputs[..n]);
      UnfoldStep(c, Run(c, inputs[..n]), inputs[n]);
    }
  }

  /** The packet the last step of a run hands out: its number counts the steps, its mode and
      fault are those the event history tells, its measurements are those of the last input,
      and its echo is of the last ground command. */
  lemma {:induction false} TelemetryTells(c: AppConfig, inputs: seq<StepInput>)
    requires inputs != []
    ensures var last := inputs[|inputs| - 1];
            var told, echo := FollowAll(Followed(Boot, NoFault), History(c, inputs)), LastGround(c, inputs);
            TelemetryOf(Run(c, inputs), last) ==
            TelemetryPacket(|inputs| % U32_SPAN, last.timestampMs, told.mode, told.fault,
                            last.cpuLoad, last.memoryLoad, last.heartbeatCount, echo.sequence, echo.id, echo.status)
  {
    HistoryTellsState(c, inputs);
    TelemetryCountsSteps(c, inputs);
    LastCommandTold(c, inputs);
  }

  // ---- The ground command ----

  /** The policy lets the command through. */
  predicate Permitted(policy: Auth.Policy, p: CommandPacket) {
    p.commandId in Auth.Permitted(policy) && (Auth.AsksForTest(p) ==> policy.allowTestMode)
  }

  /** Every status a ground command can get, each by its own condition: first the guard's
      refusals, then the policy's, and then what the processor says. */
  lemma {:induction false} StatusExactly(c: AppConfig, s: AppState, p: CommandPacket, nowMs: u64)
    ensures var status, guard := GroundStatus(c, s, p, nowMs), c.guard;
            var bounded := guard.maximumAgeMs < U64_MAX && guard.maximumFutureSkewMs < U64_MAX;
            var known := bounded && Guard.InWindow(guard, p.timestampMs, nowMs) && s.guard.initialized;
            var admitted := Guard.Admits(guard, s.guard, p.sequenceNumber, p.timestampMs, nowMs);
            (status == CP.GuardConfiguration <==> !bounded) &&
            (status == CP.StaleTimestamp <==> bounded && p.timestampMs + guard.maximumAgeMs < nowMs) &&
            (status == CP.FutureTimestamp <==> bounded && p.timestampMs > nowMs + guard.maximumFutureSkewMs) &&
            (status == CP.DuplicateSequence <==> known && p.sequenceNumber == s.guard.highest) &&
            (status == CP.ReplayedSequence <==>
              known && p.sequenceNumber != s.guard.highest &&
              !Guard.SerialGreater(p.sequenceNumber, s.guard.highest)) &&
            (status == CP.Unauthorized <==> admitted && !Permitted(c.policy, p)) &&
            (admitted && Permitted(c.policy, p) ==> status == CP.StatusOf(c.maximumFailedAttempts, s.processor, p)) &&
            status != CP.UnknownCommand
  {
    Guard.VerdictsExactly(c.guard, s.guard, p.sequenceNumber, p.timestampMs, nowMs);
  }

  /** The default application: commands up to five seconds old and one second ahead, every
      command permitted, three recovery attempts and a log of 256 events. */
  lemma {:induction false} DefaultsTell(s: AppState, p: CommandPacket, nowMs: u64)
    ensures var status := GroundStatus(DEFAULT_APP, s, p, nowMs);
            (status == CP.StaleTimestamp <==> p.timestampMs + 5000 < nowMs) &&
            (status == CP.FutureTimestamp <==> p.timestampMs > nowMs + 1000) &&
            status != CP.GuardConfiguration && status != CP.Unauthorized
    ensures DEFAULT_APP.maximumFailedAttempts == 3 && InitialApp(DEFAULT_APP).log.capacity == 256
  {
    StatusExactly(DEFAULT_APP, s, p, nowMs);
  }

  /** The answer to the ground command of a step: it names the command, and mode and fault are
      those the command left; a command refused by guard or policy leaves both as they were. */
  lemma {:induction false} GroundAnswer(c: AppConfig, s: AppState, input: StepInput)
    ensures input.command.None? <==> GroundResult(c, s, input).None?
    ensures input.command.Some? ==>
              var p, r := input.command.value, GroundResult(c, s, input).value;
              var admitted := Guard.Admits(c.guard, s.guard, p.sequenceNumber, p.timestampMs, input.timestampMs) &&
                              Permitted(c.policy, p);
              var after := if admitted then CP.AfterCommand(c.maximumFailedAttempts, s.processor, p) else s.processor;
              r == CP.CommandResult(GroundStatus(c, s, p, input.timestampMs), p.commandId, p.sequenceNumber,
                                    after.mode, after.fault)
    ensures AuthorizationOf(c, s, input).Some? <==>
            input.command.Some? &&
            var p := input.command.value;
            Guard.Admits(c.guard, s.guard, p.sequenceNumber, p.timestampMs, input.timestampMs)
  {
    if input.command.Some? {
      var p := input.command.value;
      Guard.VerdictsExactly(c.guard, s.guard, p.sequenceNumber, p.timestampMs, input.timestampMs);
    }
  }

  // ---- The monitors ----

  /** The watchdog's report in the next step of any run. Time is measured from the timestamp
      of the step before, and the count is of loops of 250 ms or more. */
  lemma {:induction false} WatchdogTells(c: AppConfig, inputs: seq<StepInput>, input: StepInput)
    ensures var r, now := WatchdogReportOf(Run(c, inputs), input), input.timestampMs;
            var previous := if inputs == [] then now else inputs[|inputs| - 1].timestampMs;
            var elapsed := if now >= previous then now - previous else 0;
            var overlong := input.loopDurationMs >= 250;
            var missed := (OverlongLoops(inputs) + if overlong then 1 else 0) % U32_SPAN;
            var expired := missed >= 3 || elapsed >= 500;
            r == WatchdogReport(
                   if expired then WatchdogExpired
                   else if overlong || elapsed >= 400 then WatchdogWarning else WatchdogOk,
                   if expired then WatchdogDeadlineMiss else NoFault,
                   previous, elapsed, missed, elapsed < 500, !overlong && missed < 3)
  {
    WatchdogCountsLoops(c, inputs);
    MissedNext(OverlongLoops(inputs));
  }

  lemma {:induction false} MissedNext(count: nat)
    ensures (count % U32_SPAN + 1) % U32_SPAN == (count + 1) % U32_SPAN
  {
  }

  /** A load of at least `percent`. */
  predicate Reaches(load: Load, percent: real) {
    load.Number? && load.percent >= percent
  }

  /** The health report of a step, by the figures. */
  lemma {:induction false} HealthTells(input: StepInput)
    ensures var r := HealthReportOf(input);
            var loop, sensor := input.loopDurationMs >= 250, input.sensorAgeMs >= 1000;
            var memory, cpu := Reaches(input.memoryLoad, 95.0), Reaches(input.cpuLoad, 95.0);
            var payload := input.payloadAgeMs >= 1500;
            r == HealthReport(
                   if loop || sensor || memory || cpu then HealthCritical
                   else if Reaches(input.cpuLoad, 80.0) || Reaches(input.memoryLoad, 85.0) || payload then HealthWarning
                   else HealthOk,
                   if loop then WatchdogDeadlineMiss
                   else if sensor then SensorTimeout
                   else if memory then MemoryOverload
                   else if cpu || Reaches(input.cpuLoad, 80.0) then CpuOverload
                   else if Reaches(input.memoryLoad, 85.0) then MemoryOverload
                   else if payload then PayloadHeartbeatTimeout
                   else NoFault,
                   !Reaches(input.cpuLoad, 80.0), !Reaches(input.memoryLoad, 85.0), !sensor, !payload, !loop)
  {
    var s := SnapshotOf(input);
    LastCriticalIsPrimary(DEFAULT_THRESHOLDS, s);
    CriticalOrNot(DEFAULT_THRESHOLDS, s);
    WarningsInOrder(DEFAULT_THRESHOLDS, s);
  }

  // ---- The internal fault ----

  /** The fault of a step is put down to the watchdog exactly when the watchdog expired, and
      to the health monitor when that alone found something critical. */
  lemma {:induction false} AttributionTells(c: AppConfig, s: AppState, input: StepInput)
    ensures var d := DecisionOf(c, s, input);
            (d.watchdogFaultProcessed <==> d.watchdogReport.status == WatchdogExpired) &&
            (d.healthFaultProcessed <==>
              d.watchdogReport.status != WatchdogExpired && d.healthReport.status == HealthCritical) &&
            d.watchdogReport == WatchdogReportOf(s, input) && d.healthReport == HealthReportOf(input)
  {
    PrimaryFaultKinds(s, input);
    var start := WatchdogAtStart(s, input);
    if Expires(DEFAULT_WATCHDOG, start, input.timestampMs, input.loopDurationMs) {
      ExpiryIsPrimary(s, input);
    }
  }

  lemma {:induction false} InternalAnswer(maximum: u32, s: CP.ProcessorState, fault: FaultCode, nowMs: u64)
    ensures var after := CP.AfterCommand(maximum, s, InternalCommand(fault, nowMs));
            CP.ResultOf(maximum, s, InternalCommand(fault, nowMs)) ==
            CP.CommandResult(CP.Accepted, InjectFault, 0, after.mode, after.fault)
  {
    CP.InjectFaultLaw(maximum, s, InternalCommand(fault, nowMs), fault);
  }

  lemma {:induction false} ProcessorNext(c: AppConfig, s: AppState, input: StepInput)
    ensures AfterStep(c, s, input).processor == ProcessorAfter(c, s, input)
  {
    UnfoldStep(c, s, input);
  }

  /** The internal fault of a step, if there is one, is answered like an accepted command
      without a number, with the mode and fault the step ends in. */
  lemma {:induction false} FaultAnswer(c: AppConfig, s: AppState, input: StepInput)
    ensures var after := AfterStep(c, s, input).processor;
            FaultResult(c, s, input) ==
            if PrimaryFault(s, input).NoFault? then None
            else Some(CP.CommandResult(CP.Accepted, InjectFault, 0, after.mode, after.fault))
    ensures DecisionOf(c, s, input).faultResult == FaultResult(c, s, input)
    ensures DecisionOf(c, s, input).primaryFault == PrimaryFault(s, input)
  {
    ProcessorNext(c, s, input);
    InternalAnswer(c.maximumFailedAttempts, AfterGround(c, s, input), PrimaryFault(s, input), input.timestampMs);
  }

  /** The active fault of any application run is that of the last packet that set it. */
  lemma {:induction false} FaultTells(c: AppConfig, inputs: seq<StepInput>)
    ensures Run(c, inputs).processor.fault == CP.LastInjected(Trace(c, inputs))
  {
    ProcessorFollowsTrace(c, inputs);
    CP.FaultIsLastInjected(c.maximumFailedAttempts, Trace(c, inputs));
  }
}
