/** The executive: one scheduler with a flight task and a housekeeping task, and the
    application that the flight task steps. */
module Executive {
  import opened Words
  import opened FlightApp
  import opened Scheduler

  datatype ExecutiveConfig = ExecutiveConfig(
    app: AppConfig,
    flightPeriod: u32, flightPhase: u32, flightDeadline: u32,
    housekeepingPeriod: u32, housekeepingPhase: u32, housekeepingDeadline: u32)

  const DEFAULT_EXECUTIVE := ExecutiveConfig(DEFAULT_APP, 1, 0, 1, 10, 0, 2)

  const FLIGHT_TASK: u16 := 1
  const HOUSEKEEPING_TASK: u16 := 2

  function FlightGroup(c: ExecutiveConfig): RateGroupConfig {
    RateGroupConfig(FLIGHT_TASK, "flight_software_step", c.flightPeriod, c.flightPhase, c.flightDeadline)
  }

  function HousekeepingGroup(c: ExecutiveConfig): RateGroupConfig {
    RateGroupConfig(HOUSEKEEPING_TASK, "housekeeping_snapshot",
                    c.housekeepingPeriod, c.housekeepingPhase, c.housekeepingDeadline)
  }

  /** `make_scheduler_configuration`. */
  function SchedulerConfiguration(c: ExecutiveConfig): seq<RateGroupConfig> {
    [FlightGroup(c), HousekeepingGroup(c)]
  }

  predicate ExecutiveConfigOk(c: ExecutiveConfig) {
    ConfigurationOk(SchedulerConfiguration(c)) && AppConfigOk(c.app)
  }

  datatype ExecutiveInput = ExecutiveInput(tick: u64, flight: StepInput, delayTicks: u32)

  datatype ExecutiveState = ExecutiveState(scheduler: SchedulerState, app: AppState)

  datatype ExecutiveOutput = ExecutiveOutput(
    status: SchedulerStatus, releases: seq<Release>, misses: seq<DeadlineMiss>,
    flight: Option<StepOutput>, flightCompletion: Option<CompletionResult>,
    housekeepingCompletion: Option<CompletionResult>, statistics: seq<Statistics>)

  function InitialExecutive(c: ExecutiveConfig): ExecutiveState {
    ExecutiveState(Initial(SchedulerConfiguration(c)), InitialApp(c.app))
  }

  /** The completion tick of a flight step: the simulated delay, stopping at the last tick. */
  function CompletionTick(tick: u64, delay: u32): u64 {
    if tick > U64_MAX - delay then U64_MAX else tick + delay
  }

  // ---- One step ----

  function Dispatch(c: ExecutiveConfig, e: ExecutiveState, input: ExecutiveInput, taskId: u16): ExecutiveState {
    if taskId == FLIGHT_TASK
    then ExecutiveState(AfterCompletion(e.scheduler, taskId, CompletionTick(input.tick, input.delayTicks)),
                        AfterStep(c.app, e.app, input.flight))
    else if taskId == HOUSEKEEPING_TASK
    then e.(scheduler := AfterCompletion(e.scheduler, taskId, input.tick))
    else e
  }

  function DispatchAll(c: ExecutiveConfig, e: ExecutiveState, input: ExecutiveInput, releases: seq<Release>)
    : ExecutiveState
    decreases |releases|
  {
    if releases == [] then e
    else
      var n := |releases| - 1;
      Dispatch(c, DispatchAll(c, e, input, releases[..n]), input, releases[n].taskId)
  }

  /** The state after one step, kept folded as `Bits.Xor` is. */
  ghost function AfterExecutiveStep(c: ExecutiveConfig, e: ExecutiveState, input: ExecutiveInput): ExecutiveState
    requires WellFormed(e.scheduler)
  {
    DelayedExecutiveStep(c, e, input, 2)
  }

  ghost function DelayedExecutiveStep(c: ExecutiveConfig, e: ExecutiveState, input: ExecutiveInput, delay: nat)
    : ExecutiveState
    requires WellFormed(e.scheduler)
    decreases e, delay
  {
    if delay > 0 then DelayedExecutiveStep(c, e, input, delay - 1)
    else
      var released := e.(scheduler := AfterTick(e.scheduler, input.tick));
      if TickAccepted(e.scheduler, input.tick)
      then DispatchAll(c, released, input, TickResult(e.scheduler, input.tick).releases)
      else released
  }

  lemma {:induction false} UnfoldExecutiveStep(c: ExecutiveConfig, e: ExecutiveState, input: ExecutiveInput)
    requires WellFormed(e.scheduler)
    ensures var released := e.(scheduler := AfterTick(e.scheduler, input.tick));
            AfterExecutiveStep(c, e, input) ==
            if TickAccepted(e.scheduler, input.tick)
            then DispatchAll(c, released, input, TickResult(e.scheduler, input.tick).releases)
            else released
  {
    assert DelayedExecutiveStep(c, e, input, 2) == DelayedExecutiveStep(c, e, input, 1) ==
           DelayedExecutiveStep(c, e, input, 0);
  }

  /** What a step hands back about the tasks it ran. */
  datatype Outcomes = Outcomes(
    flight: Option<StepOutput>, flightCompletion: Option<CompletionResult>,
    housekeepingCompletion: Option<CompletionResult>)

  /** The outcome of running one task in state `e`, added to those of the tasks before it. */
  function OutcomesNext(c: ExecutiveConfig, e: ExecutiveState, input: ExecutiveInput, taskId: u16, o: Outcomes)
    : Outcomes
  {
    if taskId == FLIGHT_TASK
    then o.(flight := Some(StepOutput(DecisionOf(c.app, e.app, input.flight),
                                      TelemetryOf(AfterStep(c.app, e.app, input.flight), input.flight))),
            flightCompletion := Some(CompletionOf(e.scheduler, taskId, CompletionTick(input.tick, input.delayTicks))))
    else if taskId == HOUSEKEEPING_TASK
    then o.(housekeepingCompletion := Some(CompletionOf(e.scheduler, taskId, input.tick)))
    else o
  }

  function OutcomesAll(c: ExecutiveConfig, e: ExecutiveState, input: ExecutiveInput, releases: seq<Release>): Outcomes
    decreases |releases|
  {
    if releases == [] then Outcomes(None, None, None)
    else
      var n := |releases| - 1;
      OutcomesNext(c, DispatchAll(c, e, input, releases[..n]), input, releases[n].taskId,
                   OutcomesAll(c, e, input, releases[..n]))
  }

  ghost function OutputOf(c: ExecutiveConfig, e: ExecutiveState, input: ExecutiveInput): ExecutiveOutput
    requires WellFormed(e.scheduler)
  {
    var result := TickResult(e.scheduler, input.tick);
    var released := e.(scheduler := AfterTick(e.scheduler, input.tick));
    var outcomes := OutcomesAll(c, released, input, result.releases);
    var after := AfterExecutiveStep(c, e, input).scheduler.tasks;
    ExecutiveOutput(result.status, result.releases, result.misses, outcomes.flight, outcomes.flightCompletion,
                    outcomes.housekeepingCompletion,
                    seq(|after|, i requires 0 <= i < |after| => StatisticsOf(after[i])))
  }

  class FlightSoftwareExecutive {
    ghost const configuration: ExecutiveConfig
    const scheduler: RateGroupScheduler
    const app: FlightSoftwareApp

    /** The objects a step may change. */
    ghost function Repr(): set<object> {
      {scheduler, app, app.modes, app.processor, app.processor.supervisor, app.guard, app.watchdog, app.logger}
    }

    ghost predicate Valid()
      reads this, scheduler, app, app.logger
    {
      scheduler.Valid() && app.Valid() && app.configuration == configuration.app
    }

    ghost function View(): ExecutiveState
      reads this, scheduler, app, app.modes, app.processor, app.processor.modes, app.processor.supervisor,
            app.guard, app.watchdog, app.logger
    {
      ExecutiveState(scheduler.View(), app.View())
    }

    constructor (configuration: ExecutiveConfig)
      ensures Valid() && this.configuration == configuration && View() == InitialExecutive(configuration)
      ensures fresh(Repr())
    {
      this.configuration := configuration;
      scheduler := new RateGroupScheduler(SchedulerConfiguration(configuration));
      app := new FlightSoftwareApp(configuration.app);
    }

    method IsValid() returns (ok: bool)
      requires Valid()
      ensures ok <==> scheduler.valid && AppConfigOk(configuration.app)
    {
      ok := scheduler.valid && app.valid;
    }

    method Step(input: ExecutiveInput) returns (output: ExecutiveOutput)
      requires Valid()
      modifies Repr()
      ensures Valid() && View() == AfterExecutiveStep(configuration, old(View()), input)
      ensures output == OutputOf(configuration, old(View()), input)
    {
      UnfoldExecutiveStep(configuration, View(), input);
      var result := scheduler.Step(input.tick);
      output := ExecutiveOutput(result.status, result.releases, result.misses, None, None, None, []);
      if result.status == Ok {
        var outcomes := RunReleases(input, result.releases);
        output := output.(flight := outcomes.flight, flightCompletion := outcomes.flightCompletion,
                          housekeepingCompletion := outcomes.housekeepingCompletion);
      }
      var statistics := scheduler.ReadStatistics();
      output := output.(statistics := statistics);
    }

    /** The loop over the released tasks. */
    method RunReleases(input: ExecutiveInput, releases: seq<Release>) returns (outcomes: Outcomes)
      requires Valid()
      modifies Repr()
      ensures Valid() && View() == DispatchAll(configuration, old(View()), input, releases)
      ensures outcomes == OutcomesAll(configuration, old(View()), input, releases)
    {
      outcomes := Outcomes(None, None, None);
      for i := 0 to |releases|
        invariant Valid() && View() == DispatchAll(configuration, old(View()), input, releases[..i])
        invariant outcomes == OutcomesAll(configuration, old(View()), input, releases[..i])
      {
        assert releases[..i + 1][..i] == releases[..i];
        var taskId := releases[i].taskId;
        if taskId == FLIGHT_TASK {
          var output, completion := RunFlight(input);
          outcomes := outcomes.(flight := Some(output), flightCompletion := Some(completion));
        } else if taskId == HOUSEKEEPING_TASK {
          var completion := scheduler.Complete(taskId, input.tick);
          outcomes := outcomes.(housekeepingCompletion := Some(completion));
        }
      }
      assert releases[..|releases|] == releases;
    }

    method RunFlight(input: ExecutiveInput) returns (output: StepOutput, completion: CompletionResult)
      requires Valid()
      modifies Repr()
      ensures Valid() && View() == Dispatch(configuration, old(View()), input, FLIGHT_TASK)
      ensures output.decision == DecisionOf(configuration.app, old(app.View()), input.flight)
      ensures output.telemetry == TelemetryOf(app.View(), input.flight)
      ensures completion ==
              CompletionOf(old(scheduler.View()), FLIGHT_TASK, CompletionTick(input.tick, input.delayTicks))
    {
      output := app.Step(input.flight);
      var tick := input.tick;
      if input.delayTicks > 0 {
        if tick > U64_MAX - input.delayTicks {
          tick := U64_MAX;
        } else {
          tick := tick + input.delayTicks;
        }
      }
      completion := scheduler.Complete(FLIGHT_TASK, tick);
    }
  }
}
