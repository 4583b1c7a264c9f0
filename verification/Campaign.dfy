/** The timing campaign: the default executive driven tick by tick, with a completion delay of
    two ticks at a chosen cadence. */
module Campaign {
  import opened Words
  import opened Arithmetic
  import opened FlightModes
  import opened CommandPackets
  import opened Health
  import opened WatchdogTimer
  import opened Scheduler
  import opened FlightApp
  import opened Executive
  import ExecutiveRuns
  import AppRuns

  datatype Options = Options(ticks: u64, stepMs: u64, overloadEvery: u64)

  datatype Report = Report(misses: u64, mode: Mode, fault: FaultCode)

  /** `parse_options` refuses a campaign without ticks or without time. */
  predicate OptionsOk(o: Options) {
    o.ticks != 0 && o.stepMs != 0
  }

  // ---- The inputs ----

  /** Mission time at a tick, 64 bits wide. */
  function TimeAt(stepMs: u64, tick: u64): u64 {
    (tick * stepMs) % U64_SPAN
  }

  predicate Overloaded(overloadEvery: u64, tick: u64) {
    overloadEvery > 0 && tick > 0 && tick % overloadEvery == 0
  }

  function DelayAt(overloadEvery: u64, tick: u64): u32 {
    if Overloaded(overloadEvery, tick) then 2 else 0
  }

  const TO_NOMINAL := CommandPacket(1, 0, SetMode, ModeNumber(Nominal))

  function FlightInputAt(o: Options, tick: u64): StepInput {
    StepInput(if tick == 0 then Some(TO_NOMINAL) else None, TimeAt(o.stepMs, tick),
              Number(25.0), Number(30.0), tick % U32_SPAN, 0, 0, 1)
  }

  function InputAt(o: Options, tick: u64): ExecutiveInput {
    ExecutiveInput(tick, FlightInputAt(o, tick), DelayAt(o.overloadEvery, tick))
  }

  // ---- Mission time and the watchdog ----

  /** Time advances by one step, or drops when it wraps. */
  lemma {:induction false} TimeNext(stepMs: u64, tick: u64)
    requires tick < U64_MAX
    ensures var next, now := TimeAt(stepMs, tick + 1), TimeAt(stepMs, tick);
            if now + stepMs < U64_SPAN then next == now + stepMs else next < now
  {
    OneMoreTime(tick, stepMs);
    WrapAdd(tick * stepMs, stepMs);
  }

  lemma {:induction false} WrapAdd(n: nat, d: u64)
    ensures (n + d) % U64_SPAN ==
            if n % U64_SPAN + d < U64_SPAN then n % U64_SPAN + d else n % U64_SPAN + d - U64_SPAN
  {
  }

  // ---- Where the application stands ----

  /** Mode and fault after the tick `last`. */
  function ModeAt(stepMs: u64, last: u64): Mode {
    if stepMs < 500 || last == 0 then Nominal else Safe
  }

  function FaultAt(stepMs: u64, last: u64): FaultCode {
    if stepMs < 500 || last == 0 then NoFault else WatchdogDeadlineMiss
  }

  predicate Flying(stepMs: u64, last: u64, s: AppState) {
    s.watchdogInitialized && s.watchdog == WatchdogState(TimeAt(stepMs, last), 0) &&
    s.processor.mode == ModeAt(stepMs, last) && s.processor.fault == FaultAt(stepMs, last)
  }

  lemma {:induction false} FirstStep(o: Options)
    ensures Flying(o.stepMs, 0, AfterStep(DEFAULT_APP, InitialApp(DEFAULT_APP), FlightInputAt(o, 0)))
  {
    var s, input := InitialApp(DEFAULT_APP), FlightInputAt(o, 0);
    AppRuns.QuietStep(DEFAULT_APP, s, input);
    AppRuns.WatchdogNext(DEFAULT_APP, s, input);
    assert ArgumentToMode(TO_NOMINAL.argument) == Some(Nominal);
  }

  lemma {:induction false} NextStep(o: Options, s: AppState, last: u64)
    requires last < U64_MAX && Flying(o.stepMs, last, s)
    ensures Flying(o.stepMs, last + 1, AfterStep(DEFAULT_APP, s, FlightInputAt(o, last + 1)))
  {
    var input := FlightInputAt(o, last + 1);
    TimeNext(o.stepMs, last);
    AppRuns.WatchdogNext(DEFAULT_APP, s, input);
    if Expires(DEFAULT_WATCHDOG, s.watchdog, input.timestampMs, input.loopDurationMs) {
      AppRuns.ExpiryEndsInSafe(DEFAULT_APP, s, input);
    } else {
      AppRuns.QuietStep(DEFAULT_APP, s, input);
    }
  }

  // ---- Misses ----

  /** Misses after the first `done` ticks: one for each overloaded tick, except that a
      completion at the last 64-bit tick meets its deadline. */
  function MissesAfter(overloadEvery: u64, done: u64): nat {
    if overloadEvery == 0 || done == 0 then 0
    else
      var counted := if done < U64_MAX then done - 1 else U64_MAX - 2;
      DivideBack(counted, overloadEvery);
      counted / overloadEvery
  }

  lemma {:induction false} MissesNext(overloadEvery: u64, tick: u64)
    requires tick < U64_MAX
    ensures MissesAfter(overloadEvery, tick + 1) ==
            MissesAfter(overloadEvery, tick) +
            if Overloaded(overloadEvery, tick) && tick + 1 < U64_MAX then 1 else 0
  {
    if overloadEvery > 0 {
      if tick == 0 {
        SmallQuotient(0, overloadEvery);
      } else {
        DivideSuccessor(tick - 1, overloadEvery);
      }
    }
  }

  lemma {:induction false} MissesFit(overloadEvery: u64, done: u64)
    ensures MissesAfter(overloadEvery, done) <= done
  {
    if overloadEvery > 0 && done > 0 {
      var counted := if done < U64_MAX then done - 1 else U64_MAX - 2;
      DivideBack(counted, overloadEvery);
      Monotone(counted / overloadEvery, 1, overloadEvery);
    }
  }

  // ---- The campaign ----

  /** The executive after the first `done` ticks of the campaign. */
  ghost predicate Underway(o: Options, done: u64, e: ExecutiveState) {
    ExecutiveRuns.Settled(DEFAULT_EXECUTIVE, e.scheduler) &&
    e.scheduler.tasks[0].missCount == MissesAfter(o.overloadEvery, done) &&
    if done == 0 then !e.scheduler.started && e.app == InitialApp(DEFAULT_APP)
    else e.scheduler.started && e.scheduler.lastTick == done - 1 && Flying(o.stepMs, done - 1, e.app)
  }

  lemma {:induction false} Starts(o: Options)
    ensures Underway(o, 0, InitialExecutive(DEFAULT_EXECUTIVE))
  {
    assert ConfigurationOk(SchedulerConfiguration(DEFAULT_EXECUTIVE));
  }

  lemma {:induction false} AlwaysDue(tick: u64)
    ensures RateGroupOk(FlightGroup(DEFAULT_EXECUTIVE)) && Due(FlightGroup(DEFAULT_EXECUTIVE), tick)
  {
  }

  lemma {:induction false} FlightMissed(t: TaskState, tick: u64, delay: u32)
    requires t.config == FlightGroup(DEFAULT_EXECUTIVE) && !t.pending && tick < U64_MAX
    ensures RateGroupOk(t.config)
    ensures ExecutiveRuns.Served(t, tick, CompletionTick(tick, delay)).missCount ==
            if delay > 1 && tick + 1 < U64_MAX then Increment(t.missCount) else t.missCount
  {
    AlwaysDue(tick);
    ExecutiveRuns.LateCompletion(t, tick, delay);
  }

  lemma {:induction false} FlightMissNext(overloadEvery: u64, t: TaskState, tick: u64)
    requires t.config == FlightGroup(DEFAULT_EXECUTIVE) && !t.pending && tick < U64_MAX
    requires t.missCount == MissesAfter(overloadEvery, tick)
    ensures RateGroupOk(t.config)
    ensures ExecutiveRuns.Served(t, tick, CompletionTick(tick, DelayAt(overloadEvery, tick))).missCount ==
            MissesAfter(overloadEvery, tick + 1)
  {
    var delay := DelayAt(overloadEvery, tick);
    FlightMissed(t, tick, delay);
    MissesNext(overloadEvery, tick);
    MissesFit(overloadEvery, tick);
  }

  lemma {:induction false} GoesOn(o: Options, tick: u64, e: ExecutiveState)
    requires tick < U64_MAX && Underway(o, tick, e)
    ensures Underway(o, tick + 1, AfterExecutiveStep(DEFAULT_EXECUTIVE, e, InputAt(o, tick)))
    ensures TickResult(e.scheduler, tick).status == Ok
  {
    var input := InputAt(o, tick);
    ExecutiveRuns.StepInClosedForm(DEFAULT_EXECUTIVE, e, input);
    ExecutiveRuns.StepKeepsOrder(DEFAULT_EXECUTIVE, e, input);
    FlightMissNext(o.overloadEvery, e.scheduler.tasks[0], tick);
    AlwaysDue(tick);
    if tick == 0 {
      FirstStep(o);
    } else {
      NextStep(o, e.app, tick - 1);
    }
  }

  method BuildInput(o: Options, tick: u64) returns (input: ExecutiveInput)
    ensures input == InputAt(o, tick)
  {
    var flight := StepInput(None, (tick * o.stepMs) % U64_SPAN, Number(25.0), Number(30.0), tick % U32_SPAN, 0, 0, 1);
    input := ExecutiveInput(tick, flight, 0);
    if tick == 0 {
      var command := CommandPacket(1, 0, SetMode, ModeNumber(Nominal));
      input := input.(flight := flight.(command := Some(command)));
    }
    if o.overloadEvery > 0 && tick > 0 && tick % o.overloadEvery == 0 {
      input := input.(delayTicks := 2);
    }
  }

  /** One turn of the tick loop. The step cannot fail and its statistics are never empty. */
  method DriveTick(executive: FlightSoftwareExecutive, o: Options, tick: u64) returns (misses: u64)
    requires tick < o.ticks && executive.Valid() && executive.configuration == DEFAULT_EXECUTIVE
    requires Underway(o, tick, executive.View())
    modifies executive.Repr()
    ensures executive.Valid() && Underway(o, tick + 1, executive.View())
    ensures misses == MissesAfter(o.overloadEvery, tick + 1)
  {
    GoesOn(o, tick, executive.View());
    var input := BuildInput(o, tick);
    var output := executive.Step(input);
    assert output.status == Ok;
    misses := output.statistics[0].missCount;
  }

  /** The tick loop of the campaign's `main`. No scheduler error stops it, the misses are the
      overloaded ticks, and the vehicle stays in NOMINAL unless one mission step outlasts the
      watchdog. */
  method RunCampaign(o: Options) returns (report: Option<Report>)
    ensures report.Some? <==> OptionsOk(o)
    ensures report.Some? ==> report.value.misses == MissesAfter(o.overloadEvery, o.ticks)
    ensures report.Some? ==>
              if o.stepMs < 500 || o.ticks == 1
              then report.value.mode == Nominal && report.value.fault == NoFault
              else report.value.mode == Safe && report.value.fault == WatchdogDeadlineMiss
  {
    if o.ticks == 0 || o.stepMs == 0 {
      return None;
    }
    var executive := new FlightSoftwareExecutive(DEFAULT_EXECUTIVE);
    Starts(o);
    var valid := executive.IsValid();
    assert valid;
    var misses: u64 := 0;
    var tick: u64 := 0;
    while tick < o.ticks
      invariant tick <= o.ticks && executive.Valid() && executive.configuration == DEFAULT_EXECUTIVE
      invariant fresh(executive.Repr())
      invariant Underway(o, tick, executive.View())
      invariant misses == MissesAfter(o.overloadEvery, tick)
    {
      misses := DriveTick(executive, o, tick);
      tick := tick + 1;
    }
    report := Some(Report(misses, executive.app.modes.mode, executive.app.processor.lastFault));
  }
}
