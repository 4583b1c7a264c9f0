/** What holds of the flight software over every run of steps, whatever their inputs. */
module AppRuns {
  import opened Words
  import opened FlightModes
  import opened CommandPackets
  import opened Health
  import opened WatchdogTimer
  import opened FlightApp
  import Fdir
  import Auth = Authorizer
  import Guard = GroundGuard
  import CP = CommandProcessing

  function Run(c: AppConfig, inputs: seq<StepInput>): AppState
    decreases |inputs|
  {
    if inputs == [] then InitialApp(c) else AfterStep(c, Run(c, inputs[..|inputs| - 1]), inputs[|inputs| - 1])
  }

  // ---- The internal fault of one step ----

  /** Every critical condition that holds in the step, from both monitors. */
  function ActiveConditions(s: AppState, input: StepInput): seq<FaultCode> {
    (if Expires(DEFAULT_WATCHDOG, WatchdogAtStart(s, input), input.timestampMs, input.loopDurationMs)
     then [WatchdogDeadlineMiss] else []) +
    CriticalFaults(DEFAULT_THRESHOLDS, SnapshotOf(input))
  }

  lemma {:induction false} PrimaryOfOne(fault: FaultCode)
    ensures Fdir.Primary([fault]) == fault
  {
    Fdir.PrimaryUnique(Fdir.Primary([fault]), fault, [fault], [fault]);
  }

  lemma {:induction false} PrimaryDropsNone(a: seq<FaultCode>, b: seq<FaultCode>)
    requires forall x :: x in b <==> x in a && !x.NoFault?
    ensures Fdir.Primary(a) == Fdir.Primary(b)
  {
    Fdir.PrimaryUnique(Fdir.Primary(b), Fdir.Primary(a), a, a);
  }

  lemma {:induction false} CandidatesAre(watchdog: WatchdogReport, health: HealthReport, two: seq<FaultCode>)
    requires two == [if watchdog.status.WatchdogExpired? then watchdog.fault else NoFault,
                     if health.status.HealthCritical? then health.fault else NoFault]
    ensures Fdir.Primary(Candidates(watchdog, health)) == Fdir.Primary(two)
  {
    assert forall x :: x in Candidates(watchdog, health) <==> x in two && !x.NoFault?;
    PrimaryDropsNone(two, Candidates(watchdog, health));
  }

  /** Choosing within the health monitor and then between the monitors gives the highest
      priority among all conditions at once. */
  lemma {:induction false} PrimaryFaultIsFlat(s: AppState, input: StepInput)
    ensures PrimaryFault(s, input) == Fdir.Primary(ActiveConditions(s, input))
  {
    var watchdog := if WatchdogReportOf(s, input).status.WatchdogExpired? then [WatchdogDeadlineMiss] else [];
    var criticals := CriticalFaults(DEFAULT_THRESHOLDS, SnapshotOf(input));
    PrimaryOfOne(WatchdogDeadlineMiss);
    Fdir.PrimaryOfPrimaries(watchdog, criticals);
    assert ActiveConditions(s, input) == watchdog + criticals;
    CandidatesAre(WatchdogReportOf(s, input), HealthReportOf(input), [Fdir.Primary(watchdog), Fdir.Primary(criticals)]);
    UnfoldPrimary(s, input);
  }

  predicate IsInternal(fault: FaultCode) {
    fault.CpuOverload? || fault.MemoryOverload? || fault.SensorTimeout? || fault.WatchdogDeadlineMiss?
  }

  lemma {:induction false} ActiveConditionKinds(s: AppState, input: StepInput)
    ensures forall fault :: fault in ActiveConditions(s, input) ==> IsInternal(fault)
  {
  }

  lemma {:induction false} PrimaryOfInternal(active: seq<FaultCode>)
    requires forall fault :: fault in active ==> IsInternal(fault)
    ensures Fdir.Primary(active).NoFault? || IsInternal(Fdir.Primary(active))
    ensures Fdir.Primary(active).NoFault? <==> active == []
  {
    if active != [] {
      assert active[0] in active;
      assert Fdir.Priority(active[0]) > 0;
    }
  }

  lemma {:induction false} PrimaryFaultKinds(s: AppState, input: StepInput)
    ensures PrimaryFault(s, input) in
            {NoFault, CpuOverload, MemoryOverload, SensorTimeout, WatchdogDeadlineMiss}
    ensures PrimaryFault(s, input).NoFault? <==> ActiveConditions(s, input) == []
  {
    PrimaryFaultIsFlat(s, input);
    ActiveConditionKinds(s, input);
    PrimaryOfInternal(ActiveConditions(s, input));
  }

  /** What injecting a fault does to the processor. */
  lemma {:induction false} InjectedFault(maximum: u32, s: CP.ProcessorState, fault: FaultCode, nowMs: u64)
    ensures CP.AfterCommand(maximum, s, InternalCommand(fault, nowMs)) ==
            s.(fault := fault, mode := Fdir.FaultedMode(s.mode, fault))
  {
  }

  /** Whatever ground command shared the step, it ends with the primary fault active: in
      SAFE, or for CPU overload in DEGRADED_PAYLOAD when the ground command left the
      vehicle there or in NOMINAL. */
  lemma {:induction false} FaultHasLastWord(c: AppConfig, s: AppState, input: StepInput)
    requires !PrimaryFault(s, input).NoFault?
    ensures var after, fault := AfterStep(c, s, input).processor, PrimaryFault(s, input);
            after.fault == fault &&
            after.mode ==
              if fault.CpuOverload? && AfterGround(c, s, input).mode in {Nominal, DegradedPayload}
              then DegradedPayload else Safe
  {
    UnfoldStep(c, s, input);
    InjectedFault(c.maximumFailedAttempts, AfterGround(c, s, input), PrimaryFault(s, input), input.timestampMs);
    PrimaryFaultKinds(s, input);
    Fdir.FaultReaches(AfterGround(c, s, input).mode, PrimaryFault(s, input));
  }

  /** A step in which no monitor reports anything critical does what the ground command says. */
  lemma {:induction false} QuietStep(c: AppConfig, s: AppState, input: StepInput)
    requires !Expires(DEFAULT_WATCHDOG, WatchdogAtStart(s, input), input.timestampMs, input.loopDurationMs)
    requires CriticalFaults(DEFAULT_THRESHOLDS, SnapshotOf(input)) == []
    ensures AfterStep(c, s, input).processor == AfterGround(c, s, input)
  {
    PrimaryFaultKinds(s, input);
    UnfoldStep(c, s, input);
  }

  // ---- The processor inside the application ----

  /** The packets one step hands to the command processor. */
  function Processed(c: AppConfig, s: AppState, input: StepInput): seq<CommandPacket> {
    (if input.command.Some? && Admitted(c, s.guard, input.command.value, input.timestampMs)
     then [input.command.value] else []) +
    (if PrimaryFault(s, input).NoFault? then []
     else [InternalCommand(PrimaryFault(s, input), input.timestampMs)])
  }

  function Trace(c: AppConfig, inputs: seq<StepInput>): seq<CommandPacket>
    decreases |inputs|
  {
    if inputs == [] then []
    else
      var n := |inputs| - 1;
      Trace(c, inputs[..n]) + Processed(c, Run(c, inputs[..n]), inputs[n])
  }

  lemma {:induction false} ProcessOne(maximum: u32, packets: seq<CommandPacket>, p: CommandPacket)
    ensures CP.Run(maximum, packets + [p]) == CP.AfterCommand(maximum, CP.Run(maximum, packets), p)
  {
    assert (packets + [p])[..|packets|] == packets;
  }

  lemma {:induction false} ProcessStep(c: AppConfig, s: AppState, input: StepInput, packets: seq<CommandPacket>)
    requires s.processor == CP.Run(c.maximumFailedAttempts, packets)
    ensures ProcessorAfter(c, s, input) == CP.Run(c.maximumFailedAttempts, packets + Processed(c, s, input))
  {
    var max, fault := c.maximumFailedAttempts, PrimaryFault(s, input);
    var middle := packets;
    if input.command.Some? && Admitted(c, s.guard, input.command.value, input.timestampMs) {
      ProcessOne(max, packets, input.command.value);
      middle := packets + [input.command.value];
    }
    assert AfterGround(c, s, input) == CP.Run(max, middle);
    if fault.NoFault? {
      assert packets + Processed(c, s, input) == middle;
    } else {
      ProcessOne(max, middle, InternalCommand(fault, input.timestampMs));
      assert packets + Processed(c, s, input) == middle + [InternalCommand(fault, input.timestampMs)];
    }
  }

  /** An application run is a run of its command processor. */
  lemma {:induction false} ProcessorFollowsTrace(c: AppConfig, inputs: seq<StepInput>)
    ensures Run(c, inputs).processor == CP.Run(c.maximumFailedAttempts, Trace(c, inputs))
    decreases |inputs|
  {
    if inputs == [] {
    } else {
      var n := |inputs| - 1;
      ProcessorFollowsTrace(c, inputs[..n]);
      UnfoldStep(c, Run(c, inputs[..n]), inputs[n]);
      ProcessStep(c, Run(c, inputs[..n]), inputs[n], Trace(c, inputs[..n]));
    }
  }

  /** The packet is the step's ground command, past guard and policy. */
  predicate IsAdmittedCommand(c: AppConfig, s: AppState, input: StepInput, p: CommandPacket) {
    input.command == Some(p) && Admitted(c, s.guard, p, input.timestampMs)
  }

  /** The packet injects the step's primary internal fault. */
  predicate IsInternalFault(s: AppState, input: StepInput, p: CommandPacket) {
    !PrimaryFault(s, input).NoFault? && p == InternalCommand(PrimaryFault(s, input), input.timestampMs)
  }

  /** Nothing reaches the processor but the commands that guard and policy let through and
      the internal faults: every packet processed comes from a step that made it one of them. */
  lemma {:induction false} ProcessedHasOrigin(c: AppConfig, inputs: seq<StepInput>, p: CommandPacket) returns (i: nat)
    requires p in Trace(c, inputs)
    ensures i < |inputs|
    ensures var s := Run(c, inputs[..i]);
            IsAdmittedCommand(c, s, inputs[i], p) || IsInternalFault(s, inputs[i], p)
    decreases |inputs|
  {
    var n := |inputs| - 1;
    if p in Trace(c, inputs[..n]) {
      i := ProcessedHasOrigin(c, inputs[..n], p);
      assert inputs[..n][..i] == inputs[..i];
    } else {
      i := n;
    }
  }

  /** Bounded recovery holds in every state the application reaches. */
  lemma {:induction false} AppRecoveryBounded(c: AppConfig, inputs: seq<StepInput>)
    ensures var s, max := Run(c, inputs).processor, c.maximumFailedAttempts;
            (s.failedAttempts != 0 ==> s.mode in {Safe, Recovery}) &&
            (s.mode == Recovery ==> s.failedAttempts < max || s.failedAttempts == max == 0)
  {
    ProcessorFollowsTrace(c, inputs);
    CP.RunIsBounded(c.maximumFailedAttempts, Trace(c, inputs));
  }

  lemma {:induction false} GroundLimit(c: AppConfig, s: AppState, input: StepInput)
    ensures GroundResult(c, s, input).Some? && GroundResult(c, s, input).value.status.RecoveryLimit? <==>
            input.command.Some? && Admitted(c, s.guard, input.command.value, input.timestampMs) &&
            CP.StatusOf(c.maximumFailedAttempts, s.processor, input.command.value).RecoveryLimit?
  {
  }

  /** In an application run a ground command meets REJECTED_RECOVERY_LIMIT exactly when it is
      admitted and is the prohibited exit that makes the count since entry to RECOVERY reach
      the maximum, and the step then ends in SAFE whatever else happens in it. */
  lemma {:induction false} AppLimitStrikesExactly(c: AppConfig, inputs: seq<StepInput>, input: StepInput)
    ensures var s, max := Run(c, inputs), c.maximumFailedAttempts;
            var struck := GroundResult(c, s, input).Some? && GroundResult(c, s, input).value.status.RecoveryLimit?;
            (struck <==>
             input.command.Some? && Admitted(c, s.guard, input.command.value, input.timestampMs) &&
             s.processor.mode == Recovery && CP.ProhibitedExit(input.command.value) &&
             CP.ExitsSinceEntry(max, Trace(c, inputs)) + 1 == max) &&
            (struck ==> AfterStep(c, s, input).processor.mode == Safe)
  {
    var s := Run(c, inputs);
    GroundLimit(c, s, input);
    if input.command.Some? && Admitted(c, s.guard, input.command.value, input.timestampMs) {
      ProcessorFollowsTrace(c, inputs);
      CP.LimitStrikesExactly(c.maximumFailedAttempts, Trace(c, inputs), input.command.value);
    }
    FaultKeepsSafe(c, s, input);
  }

  /** No internal fault leaves SAFE. */
  lemma {:induction false} FaultKeepsSafe(c: AppConfig, s: AppState, input: StepInput)
    ensures AfterGround(c, s, input).mode == Safe ==> AfterStep(c, s, input).processor.mode == Safe
  {
    UnfoldStep(c, s, input);
    if !PrimaryFault(s, input).NoFault? {
      FaultHasLastWord(c, s, input);
    }
  }

  // ---- Leaving SAFE ----

  /** The step carried a ground command, accepted, that set mode `m`. */
  predicate SetsMode(c: AppConfig, s: AppState, input: StepInput, m: Mode) {
    input.command.Some? && GroundStatus(c, s, input.command.value, input.timestampMs).Accepted? &&
    CP.RequestedMode(input.command.value) == Some(m)
  }

  lemma {:induction false} FaultStepMode(c: AppConfig, s: AppState, input: StepInput)
    ensures var ground, after := AfterGround(c, s, input).mode, AfterStep(c, s, input).processor.mode;
            (after == ground || after in {Safe, DegradedPayload}) &&
            (ground == Safe ==> after == Safe) &&
            (ground in {Recovery, Standby, Boot, Test} ==> after in {ground, Safe})
  {
    UnfoldStep(c, s, input);
    if !PrimaryFault(s, input).NoFault? {
      FaultHasLastWord(c, s, input);
    }
  }

  lemma {:induction false} GroundStepMode(c: AppConfig, s: AppState, input: StepInput)
    ensures var before, ground := s.processor.mode, AfterGround(c, s, input).mode;
            ground == before || ground in {Safe, DegradedPayload} || SetsMode(c, s, input, ground)
    ensures s.processor.mode == Safe && AfterGround(c, s, input).mode != Safe ==>
              AfterGround(c, s, input).mode == Recovery
    ensures s.processor.mode == Recovery && AfterGround(c, s, input).mode !in {Safe, Recovery} ==>
              AfterGround(c, s, input).mode in {Standby, Nominal}
  {
    if input.command.Some? {
      var p := input.command.value;
      if p.commandId.InjectFault? && ArgumentToFault(p.argument).Some? {
        Fdir.FaultReaches(s.processor.mode, ArgumentToFault(p.argument).value);
      }
    }
  }

  lemma {:induction false} StepFromSafe(c: AppConfig, s: AppState, input: StepInput)
    requires s.processor.mode == Safe
    ensures var after := AfterStep(c, s, input).processor.mode;
            after == Safe || (after == Recovery && SetsMode(c, s, input, Recovery))
  {
    GroundStepMode(c, s, input);
    FaultStepMode(c, s, input);
  }

  lemma {:induction false} StepFromRecovery(c: AppConfig, s: AppState, input: StepInput)
    requires s.processor.mode == Recovery
    ensures var after := AfterStep(c, s, input).processor.mode;
            after in {Safe, Recovery} || SetsMode(c, s, input, Standby) || SetsMode(c, s, input, Nominal)
  {
    GroundStepMode(c, s, input);
    FaultStepMode(c, s, input);
  }

  lemma {:induction false} LastEntryToRecovery(c: AppConfig, inputs: seq<StepInput>, i: nat, j: nat) returns (a: nat)
    requires i <= j <= |inputs| && Run(c, inputs[..i]).processor.mode == Safe
    requires Run(c, inputs[..j]).processor.mode == Recovery
    requires forall k :: i <= k <= j ==> Run(c, inputs[..k]).processor.mode in {Safe, Recovery}
    ensures i <= a < j && SetsMode(c, Run(c, inputs[..a]), inputs[a], Recovery)
    decreases j
  {
    assert inputs[..j][..j - 1] == inputs[..j - 1];
    if Run(c, inputs[..j - 1]).processor.mode == Safe {
      StepFromSafe(c, Run(c, inputs[..j - 1]), inputs[j - 1]);
      a := j - 1;
    } else {
      a := LastEntryToRecovery(c, inputs, i, j - 1);
    }
  }

  lemma {:induction false} FirstDeparture(c: AppConfig, inputs: seq<StepInput>, i: nat, j: nat) returns (b: nat)
    requires i <= j <= |inputs| && Run(c, inputs[..i]).processor.mode == Safe
    requires Run(c, inputs[..j]).processor.mode !in {Safe, Recovery}
    ensures i <= b < j && Run(c, inputs[..b + 1]).processor.mode !in {Safe, Recovery}
    ensures forall k :: i <= k <= b ==> Run(c, inputs[..k]).processor.mode in {Safe, Recovery}
    decreases j
  {
    if k :| i <= k < j && Run(c, inputs[..k]).processor.mode !in {Safe, Recovery} {
      b := FirstDeparture(c, inputs, i, k);
    } else {
      b := j - 1;
    }
  }

  /** Leaving SAFE for good takes two accepted ground commands in two different steps: one
      that sets RECOVERY and a later one that sets STANDBY or NOMINAL. */
  lemma {:induction false} SafeExitNeedsTwoCommands(c: AppConfig, inputs: seq<StepInput>, i: nat, j: nat)
    returns (a: nat, b: nat)
    requires i <= j <= |inputs| && Run(c, inputs[..i]).processor.mode == Safe
    requires Run(c, inputs[..j]).processor.mode !in {Safe, Recovery}
    ensures i <= a < b < j
    ensures SetsMode(c, Run(c, inputs[..a]), inputs[a], Recovery)
    ensures SetsMode(c, Run(c, inputs[..b]), inputs[b], Standby) || SetsMode(c, Run(c, inputs[..b]), inputs[b], Nominal)
  {
    b := FirstDeparture(c, inputs, i, j);
    assert inputs[..b + 1][..b] == inputs[..b];
    var s := Run(c, inputs[..b]);
    if s.processor.mode == Safe {
      StepFromSafe(c, s, inputs[b]);
    }
    StepFromRecovery(c, s, inputs[b]);
    a := LastEntryToRecovery(c, inputs, i, b);
  }

  /** BOOT is never entered again. */
  lemma {:induction false} BootOnlyAtStart(c: AppConfig, inputs: seq<StepInput>, i: nat)
    requires i <= |inputs| && Run(c, inputs).processor.mode == Boot
    ensures Run(c, inputs[..i]).processor.mode == Boot
    decreases |inputs|
  {
    if i == |inputs| {
      assert inputs[..i] == inputs;
    } else {
      var n := |inputs| - 1;
      GroundStepMode(c, Run(c, inputs[..n]), inputs[n]);
      FaultStepMode(c, Run(c, inputs[..n]), inputs[n]);
      assert Run(c, inputs[..n]).processor.mode == Boot;
      BootOnlyAtStart(c, inputs[..n], i);
      assert inputs[..n][..i] == inputs[..i];
    }
  }

  /** Without the policy's leave no run reaches TEST, however the argument is encoded. */
  lemma {:induction false} TestModeNeedsPermission(c: AppConfig, inputs: seq<StepInput>)
    requires !c.policy.allowTestMode
    ensures Run(c, inputs).processor.mode != Test
    decreases |inputs|
  {
    if inputs == [] {
    } else {
      var n := |inputs| - 1;
      TestModeNeedsPermission(c, inputs[..n]);
      GroundStepMode(c, Run(c, inputs[..n]), inputs[n]);
      FaultStepMode(c, Run(c, inputs[..n]), inputs[n]);
    }
  }

  // ---- Overlong loops ----

  function OverlongLoops(inputs: seq<StepInput>): nat
    decreases |inputs|
  {
    if inputs == [] then 0
    else
      var n := |inputs| - 1;
      OverlongLoops(inputs[..n]) + if LoopOverlong(DEFAULT_WATCHDOG, inputs[n].loopDurationMs) then 1 else 0
  }

  lemma {:induction false} WatchdogNext(c: AppConfig, s: AppState, input: StepInput)
    ensures AfterStep(c, s, input).watchdog == WatchdogAfter(s, input) && AfterStep(c, s, input).watchdogInitialized
  {
    UnfoldStep(c, s, input);
  }

  lemma {:induction false} WatchdogCountsLoops(c: AppConfig, inputs: seq<StepInput>)
    ensures var s := Run(c, inputs);
            (s.watchdogInitialized <==> inputs != []) &&
            (inputs != [] ==>
              s.watchdog == WatchdogState(inputs[|inputs| - 1].timestampMs, OverlongLoops(inputs) % U32_SPAN))
    decreases |inputs|
  {
    if inputs == [] {
    } else {
      var n := |inputs| - 1;
      WatchdogCountsLoops(c, inputs[..n]);
      WatchdogNext(c, Run(c, inputs[..n]), inputs[n]);
    }
  }

  lemma {:induction false} WatchdogOutranksAll(active: seq<FaultCode>)
    requires WatchdogDeadlineMiss in active
    ensures Fdir.Primary(active) == WatchdogDeadlineMiss
  {
    Fdir.PrimaryUnique(Fdir.Primary(active), WatchdogDeadlineMiss, active, active);
  }

  lemma {:induction false} ExpiryIsPrimary(s: AppState, input: StepInput)
    requires Expires(DEFAULT_WATCHDOG, WatchdogAtStart(s, input), input.timestampMs, input.loopDurationMs)
    ensures PrimaryFault(s, input) == WatchdogDeadlineMiss
  {
    PrimaryFaultIsFlat(s, input);
    assert ActiveConditions(s, input)[0] == WatchdogDeadlineMiss;
    WatchdogOutranksAll(ActiveConditions(s, input));
  }

  lemma {:induction false} ExpiryEndsInSafe(c: AppConfig, s: AppState, input: StepInput)
    requires Expires(DEFAULT_WATCHDOG, WatchdogAtStart(s, input), input.timestampMs, input.loopDurationMs)
    ensures AfterStep(c, s, input).processor.mode == Safe
    ensures AfterStep(c, s, input).processor.fault == WatchdogDeadlineMiss
  {
    ExpiryIsPrimary(s, input);
    FaultHasLastWord(c, s, input);
  }

  /** While the 32-bit count of overlong loops is three or more, every step ends in SAFE with
      the watchdog fault active, no matter what the ground commands. */
  lemma {:induction false} OverlongLoopsLatchSafe(c: AppConfig, inputs: seq<StepInput>)
    requires OverlongLoops(inputs) % U32_SPAN >= 3
    ensures Run(c, inputs).processor.mode == Safe && Run(c, inputs).processor.fault == WatchdogDeadlineMiss
  {
    var n := |inputs| - 1;
    WatchdogCountsLoops(c, inputs[..n]);
    ExpiryEndsInSafe(c, Run(c, inputs[..n]), inputs[n]);
  }

  /** Telemetry packets are numbered by the steps taken, modulo 2^32. */
  lemma {:induction false} TelemetryCountsSteps(c: AppConfig, inputs: seq<StepInput>)
    ensures Run(c, inputs).telemetrySequence == |inputs| % U32_SPAN
    decreases |inputs|
  {
    if inputs == [] {
    } else {
      var n := |inputs| - 1;
      TelemetryCountsSteps(c, inputs[..n]);
      UnfoldStep(c, Run(c, inputs[..n]), inputs[n]);
    }
  }

  // ---- Rejected commands do not interfere ----

  /** The state that decides what the vehicle does next: all but the log and the echo of
      the last command. */
  datatype Core = Core(
    processor: CP.ProcessorState, guard: Guard.GuardState, watchdog: WatchdogState, watchdogInitialized: bool,
    telemetrySequence: u32)

  function CoreOf(s: AppState): Core {
    Core(s.processor, s.guard, s.watchdog, s.watchdogInitialized, s.telemetrySequence)
  }

  /** The input with a command the guard refuses taken out, and a command the authorizer
      refuses replaced by a NOOP with the same sequence number and timestamp. */
  function Sanitized(c: AppConfig, s: AppState, input: StepInput): StepInput {
    match input.command
    case None => input
    case Some(p) =>
      if !GuardVerdict(c, s.guard, p, input.timestampMs).Accepted? then input.(command := None)
      else if !Auth.Authorize(c.policy, p).Authorized?
      then input.(command := Some(CommandPacket(p.sequenceNumber, p.timestampMs, Noop, 0)))
      else input
  }

  function SanitizedRun(c: AppConfig, inputs: seq<StepInput>): (clean: seq<StepInput>)
    ensures |clean| == |inputs|
    decreases |inputs|
  {
    if inputs == [] then []
    else
      var n := |inputs| - 1;
      SanitizedRun(c, inputs[..n]) + [Sanitized(c, Run(c, inputs[..n]), inputs[n])]
  }

  lemma {:induction false} SamePrimary(s: AppState, t: AppState, input: StepInput, clean: StepInput)
    requires s.watchdog == t.watchdog && s.watchdogInitialized == t.watchdogInitialized
    requires clean == input.(command := clean.command)
    ensures PrimaryFault(s, input) == PrimaryFault(t, clean) && WatchdogAfter(s, input) == WatchdogAfter(t, clean)
  {
    UnfoldPrimary(s, input);
    UnfoldPrimary(t, clean);
    assert WatchdogReportOf(s, input) == WatchdogReportOf(t, clean);
    assert HealthReportOf(input) == HealthReportOf(clean);
  }

  lemma {:induction false} SameGround(c: AppConfig, s: AppState, t: AppState, input: StepInput)
    requires s.processor == t.processor && s.guard == t.guard
    ensures AfterGround(c, s, input) == AfterGround(c, t, Sanitized(c, s, input))
    ensures GuardAfter(c, s, input) == GuardAfter(c, t, Sanitized(c, s, input))
  {
  }

  lemma {:induction false} SanitizedStep(c: AppConfig, s: AppState, t: AppState, input: StepInput)
    requires CoreOf(s) == CoreOf(t)
    ensures CoreOf(AfterStep(c, s, input)) == CoreOf(AfterStep(c, t, Sanitized(c, s, input)))
  {
    var clean := Sanitized(c, s, input);
    UnfoldStep(c, s, input);
    UnfoldStep(c, t, clean);
    SamePrimary(s, t, input, clean);
    SameGround(c, s, t, input);
  }

  lemma {:induction false} SanitizedSame(c: AppConfig, inputs: seq<StepInput>)
    ensures CoreOf(Run(c, inputs)) == CoreOf(Run(c, SanitizedRun(c, inputs)))
    decreases |inputs|
  {
    if inputs == [] {
    } else {
      var n := |inputs| - 1;
      SanitizedSame(c, inputs[..n]);
      var clean := SanitizedRun(c, inputs);
      assert clean[..n] == SanitizedRun(c, inputs[..n]);
      SanitizedStep(c, Run(c, inputs[..n]), Run(c, clean[..n]), inputs[n]);
    }
  }

  /** The cleaned prefix of a run is the prefix of the cleaned run. */
  lemma {:induction false} SanitizedPrefix(c: AppConfig, inputs: seq<StepInput>, k: nat)
    requires k <= |inputs|
    ensures SanitizedRun(c, inputs)[..k] == SanitizedRun(c, inputs[..k])
    decreases |inputs|
  {
    if k == |inputs| {
      assert inputs[..k] == inputs;
    } else {
      var n := |inputs| - 1;
      SanitizedPrefix(c, inputs[..n], k);
      assert inputs[..n][..k] == inputs[..k];
      assert SanitizedRun(c, inputs)[..k] == SanitizedRun(c, inputs[..n])[..k];
    }
  }

  /** Taking the refused commands out of a run changes neither mode, fault, recovery counter,
      guard, watchdog nor telemetry count, after any number `k` of its steps. */
  lemma {:induction false} RefusedCommandsDoNotInterfere(c: AppConfig, inputs: seq<StepInput>, k: nat)
    requires k <= |inputs|
    ensures CoreOf(Run(c, inputs[..k])) == CoreOf(Run(c, SanitizedRun(c, inputs)[..k]))
  {
    SanitizedPrefix(c, inputs, k);
    SanitizedSame(c, inputs[..k]);
  }

  // ---- The guard inside the application ----

  function AttemptOf(input: StepInput): Guard.Attempt
    requires input.command.Some?
  {
    Guard.Attempt(input.command.value.sequenceNumber, input.command.value.timestampMs, input.timestampMs)
  }

  /** The ground commands of a run, as the guard meets them. */
  function Attempts(inputs: seq<StepInput>): seq<Guard.Attempt>
    decreases |inputs|
  {
    if inputs == [] then []
    else
      var n := |inputs| - 1;
      match inputs[n].command
      case None => Attempts(inputs[..n])
      case Some(p) => Attempts(inputs[..n]) + [AttemptOf(inputs[n])]
  }

  lemma {:induction false} GuardNext(c: Guard.GuardConfig, attempts: seq<Guard.Attempt>, a: Guard.Attempt)
    ensures Guard.Run(c, attempts + [a]) == Guard.Next(c, Guard.Run(c, attempts), a)
  {
    assert (attempts + [a])[..|attempts|] == attempts;
  }

  /** An application run is a run of its guard on the ground commands. */
  lemma {:induction false} GuardFollowsAttempts(c: AppConfig, inputs: seq<StepInput>)
    ensures Run(c, inputs).guard == Guard.Run(c.guard, Attempts(inputs))
    decreases |inputs|
  {
    if inputs == [] {
    } else {
      var n := |inputs| - 1;
      GuardFollowsAttempts(c, inputs[..n]);
      UnfoldStep(c, Run(c, inputs[..n]), inputs[n]);
      if inputs[n].command.Some? {
        GuardNext(c.guard, Attempts(inputs[..n]), AttemptOf(inputs[n]));
      }
    }
  }

  lemma {:induction false} AttemptsPrefix(inputs: seq<StepInput>, k: nat)
    requires k <= |inputs|
    ensures Attempts(inputs[..k]) <= Attempts(inputs)
    decreases |inputs|
  {
    if k == |inputs| {
      assert inputs[..k] == inputs;
    } else {
      var n := |inputs| - 1;
      AttemptsPrefix(inputs[..n], k);
      assert inputs[..n][..k] == inputs[..k];
    }
  }

  /** The guard accepts the command of step `i`. */
  predicate GuardAccepts(c: AppConfig, inputs: seq<StepInput>, i: nat)
    requires i < |inputs| && inputs[i].command.Some?
  {
    GuardVerdict(c, Run(c, inputs[..i]).guard, inputs[i].command.value, inputs[i].timestampMs).Accepted?
  }

  lemma {:induction false} AttemptsNext(inputs: seq<StepInput>, i: nat)
    requires i < |inputs| && inputs[i].command.Some?
    ensures Attempts(inputs[..i + 1]) == Attempts(inputs[..i]) + [AttemptOf(inputs[i])]
  {
    assert inputs[..i + 1][..i] == inputs[..i];
  }

  /** The command of step `i` is the attempt of that place in the guard's run. */
  lemma {:induction false} AttemptOfStep(inputs: seq<StepInput>, i: nat)
    requires i < |inputs| && inputs[i].command.Some?
    ensures var all, k := Attempts(inputs), |Attempts(inputs[..i])|;
            k < |all| && all[..k] == Attempts(inputs[..i]) && all[..k + 1] == Attempts(inputs[..i + 1]) &&
            all[k] == AttemptOf(inputs[i])
  {
    AttemptsNext(inputs, i);
    AttemptsPrefix(inputs, i + 1);
    PrefixOfSnoc(Attempts(inputs), Attempts(inputs[..i]), AttemptOf(inputs[i]));
  }

  lemma {:induction false} PrefixOfSnoc<T>(all: seq<T>, part: seq<T>, next: T)
    requires part + [next] <= all
    ensures |part| < |all| && all[..|part|] == part && all[..|part| + 1] == part + [next] && all[|part|] == next
  {
    assert all[..|part| + 1] == part + [next];
    assert all[|part|] == (part + [next])[|part|];
    assert all[..|part|] == all[..|part| + 1][..|part|];
  }

  lemma {:induction false} AttemptAccepted(c: AppConfig, inputs: seq<StepInput>, i: nat)
    requires i < |inputs| && inputs[i].command.Some?
    ensures |Attempts(inputs[..i])| < |Attempts(inputs)|
    ensures Guard.AcceptedAt(c.guard, Attempts(inputs), |Attempts(inputs[..i])|) <==> GuardAccepts(c, inputs, i)
  {
    AttemptOfStep(inputs, i);
    GuardFollowsAttempts(c, inputs[..i]);
  }

  lemma {:induction false} PlacesIncrease(inputs: seq<StepInput>, i: nat, j: nat)
    requires i < j <= |inputs| && inputs[i].command.Some?
    ensures |Attempts(inputs[..i])| < |Attempts(inputs[..j])|
  {
    AttemptsNext(inputs, i);
    AttemptsPrefix(inputs[..j], i + 1);
    assert inputs[..j][..i + 1] == inputs[..i + 1];
  }

  /** The replay window in an application run: the command of step `j`, with a number the
      guard accepted at step `i`, is accepted exactly when its timestamp is in the window and the
      counter of accepted numbers has advanced since, over whole turns, by more than half
      the range. */
  lemma {:induction false} AppReplayWindow(c: AppConfig, inputs: seq<StepInput>, i: nat, j: nat)
    requires i < j < |inputs| && inputs[i].command.Some? && inputs[j].command.Some?
    requires GuardAccepts(c, inputs, i)
    requires inputs[j].command.value.sequenceNumber == inputs[i].command.value.sequenceNumber
    ensures var advance := Guard.Position(c.guard, Attempts(inputs[..j])) -
                           Guard.Position(c.guard, Attempts(inputs[..i + 1]));
            GuardAccepts(c, inputs, j) <==>
            Guard.InWindow(c.guard, inputs[j].command.value.timestampMs, inputs[j].timestampMs) &&
            advance % U32_SPAN > Guard.SERIAL_HALF_RANGE
  {
    AttemptOfStep(inputs, i);
    AttemptOfStep(inputs, j);
    AttemptAccepted(c, inputs, i);
    AttemptAccepted(c, inputs, j);
    PlacesIncrease(inputs, i, j);
    Guard.ReplayWindow(c.guard, Attempts(inputs), |Attempts(inputs[..i])|, |Attempts(inputs[..j])|);
  }
}
