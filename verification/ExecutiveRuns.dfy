/** What holds of the executive over every run of inputs, accepted ticks or not. */
module ExecutiveRuns {
  import opened Words
  import opened Scheduler
  import opened FlightApp
  import opened Executive
  import AppRuns
  import SchedulerRuns
  import SchedulerReports

  // ---- Two tasks that never stay pending ----

  /** A valid scheduler with the executive's two tasks, neither of them pending. */
  ghost predicate Settled(c: ExecutiveConfig, s: SchedulerState) {
    s.valid && |s.tasks| == 2 && WellFormed(s) &&
    s.tasks[0].config == FlightGroup(c) && s.tasks[1].config == HousekeepingGroup(c) &&
    !s.tasks[0].pending && !s.tasks[1].pending
  }

  /** One task through one tick: released if due, and then completed at once. */
  function Served(t: TaskState, tick: u64, completion: u64): TaskState
    requires RateGroupOk(t.config)
  {
    if Due(t.config, tick) then TaskCompleted(TaskAfter(t, tick), completion) else t
  }

  lemma {:induction false} TwoReleases(tasks: seq<TaskState>, tick: u64)
    requires |tasks| == 2 && RateGroupOk(tasks[0].config) && RateGroupOk(tasks[1].config)
    ensures AllReleases(tasks, tick) == TaskReleases(tasks[0], tick) + TaskReleases(tasks[1], tick)
    ensures AllMisses(tasks, tick) == TaskMisses(tasks[0], tick) + TaskMisses(tasks[1], tick)
  {
    assert tasks[..1] == [tasks[0]] && tasks[..1][..0] == [];
    assert AllReleases(tasks[..1], tick) == AllReleases([], tick) + TaskReleases(tasks[0], tick);
    assert AllMisses(tasks[..1], tick) == AllMisses([], tick) + TaskMisses(tasks[0], tick);
  }

  lemma {:induction false} DispatchTwo(
    c: ExecutiveConfig, e: ExecutiveState, input: ExecutiveInput, releases: seq<Release>)
    requires |releases| <= 2
    ensures DispatchAll(c, e, input, releases) ==
            if |releases| == 0 then e
            else if |releases| == 1 then Dispatch(c, e, input, releases[0].taskId)
            else Dispatch(c, Dispatch(c, e, input, releases[0].taskId), input, releases[1].taskId)
  {
    if |releases| == 0 {
    } else {
      assert DispatchAll(c, e, input, releases) ==
             Dispatch(c, DispatchAll(c, e, input, releases[..|releases| - 1]), input, releases[|releases| - 1].taskId);
      DispatchTwo(c, e, input, releases[..|releases| - 1]);
    }
  }

  lemma {:induction false} CompletePair(s: SchedulerState, taskId: u16, tick: u64)
    requires s.valid && |s.tasks| == 2
    requires s.tasks[0].config.taskId == FLIGHT_TASK && s.tasks[1].config.taskId == HOUSEKEEPING_TASK
    requires taskId == FLIGHT_TASK || taskId == HOUSEKEEPING_TASK
    ensures var k := if taskId == FLIGHT_TASK then 0 else 1;
            AfterCompletion(s, taskId, tick) ==
            if s.tasks[k].pending then s.(tasks := s.tasks[k := TaskCompleted(s.tasks[k], tick)]) else s
  {
  }

  /** The whole executive step in closed form. */
  ghost function Stepped(c: ExecutiveConfig, e: ExecutiveState, input: ExecutiveInput): ExecutiveState
    requires Settled(c, e.scheduler)
  {
    var flight, housekeeping := e.scheduler.tasks[0], e.scheduler.tasks[1];
    ExecutiveState(
      SchedulerState(true, [Served(flight, input.tick, CompletionTick(input.tick, input.delayTicks)),
                            Served(housekeeping, input.tick, input.tick)], true, input.tick),
      if Due(flight.config, input.tick) then AfterStep(c.app, e.app, input.flight) else e.app)
  }

  lemma {:induction false} IdleTaskAfter(t: TaskState, tick: u64)
    requires RateGroupOk(t.config) && !t.pending
    ensures TaskMisses(t, tick) == []
    ensures !Due(t.config, tick) ==> TaskAfter(t, tick) == t && TaskReleases(t, tick) == []
    ensures Due(t.config, tick) ==>
              TaskAfter(t, tick) == ReleaseJob(t, tick) && TaskAfter(t, tick).pending &&
              |TaskReleases(t, tick)| == 1 && TaskReleases(t, tick)[0].taskId == t.config.taskId
  {
  }

  lemma {:induction false} ReleasedPair(c: ExecutiveConfig, s: SchedulerState, tick: u64)
    requires Settled(c, s) && TickAccepted(s, tick)
    ensures AfterTick(s, tick) ==
            SchedulerState(true, [TaskAfter(s.tasks[0], tick), TaskAfter(s.tasks[1], tick)], true, tick)
    ensures TickResult(s, tick) ==
            StepResult(Ok, tick, TaskReleases(s.tasks[0], tick) + TaskReleases(s.tasks[1], tick), [])
  {
    TwoReleases(s.tasks, tick);
    IdleTaskAfter(s.tasks[0], tick);
    IdleTaskAfter(s.tasks[1], tick);
    assert AllAfter(s.tasks, tick) == [TaskAfter(s.tasks[0], tick), TaskAfter(s.tasks[1], tick)];
  }

  /** Both tasks are the executive's, and task `k` is pending. */
  ghost predicate PairPending(c: ExecutiveConfig, s: SchedulerState, k: nat) {
    s.valid && |s.tasks| == 2 && k < 2 && s.tasks[k].pending &&
    s.tasks[0].config == FlightGroup(c) && s.tasks[1].config == HousekeepingGroup(c)
  }

  lemma {:induction false} DispatchFlight(c: ExecutiveConfig, e: ExecutiveState, input: ExecutiveInput)
    requires PairPending(c, e.scheduler, 0)
    ensures var tasks := e.scheduler.tasks;
            Dispatch(c, e, input, FLIGHT_TASK) ==
            ExecutiveState(
              e.scheduler.(tasks := [TaskCompleted(tasks[0], CompletionTick(input.tick, input.delayTicks)), tasks[1]]),
              AfterStep(c.app, e.app, input.flight))
  {
    CompletePair(e.scheduler, FLIGHT_TASK, CompletionTick(input.tick, input.delayTicks));
  }

  lemma {:induction false} DispatchHousekeeping(c: ExecutiveConfig, e: ExecutiveState, input: ExecutiveInput)
    requires PairPending(c, e.scheduler, 1)
    ensures var tasks := e.scheduler.tasks;
            Dispatch(c, e, input, HOUSEKEEPING_TASK) ==
            e.(scheduler := e.scheduler.(tasks := [tasks[0], TaskCompleted(tasks[1], input.tick)]))
  {
    CompletePair(e.scheduler, HOUSEKEEPING_TASK, input.tick);
  }

  /** The releases are those of the flight task if `flight`, then of housekeeping if
      `housekeeping`, and the tasks released are pending. */
  ghost predicate PairReleased(
    c: ExecutiveConfig, s: SchedulerState, releases: seq<Release>, flight: bool, housekeeping: bool)
  {
    s.valid && |s.tasks| == 2 && s.tasks[0].config == FlightGroup(c) && s.tasks[1].config == HousekeepingGroup(c) &&
    |releases| == SchedulerRuns.Flag(flight) + SchedulerRuns.Flag(housekeeping) &&
    (flight ==> s.tasks[0].pending && releases[0].taskId == FLIGHT_TASK) &&
    (housekeeping ==> s.tasks[1].pending && releases[|releases| - 1].taskId == HOUSEKEEPING_TASK)
  }

  lemma {:induction false} TickReleasesPair(c: ExecutiveConfig, s: SchedulerState, tick: u64)
    requires Settled(c, s) && TickAccepted(s, tick)
    ensures PairReleased(c, AfterTick(s, tick), TickResult(s, tick).releases,
                         Due(s.tasks[0].config, tick), Due(s.tasks[1].config, tick))
  {
    ReleasedPair(c, s, tick);
    IdleTaskAfter(s.tasks[0], tick);
    IdleTaskAfter(s.tasks[1], tick);
  }

  lemma {:induction false} DispatchPair(
    c: ExecutiveConfig, e: ExecutiveState, input: ExecutiveInput, releases: seq<Release>,
    flight: bool, housekeeping: bool)
    requires PairReleased(c, e.scheduler, releases, flight, housekeeping)
    ensures var tasks, completion := e.scheduler.tasks, CompletionTick(input.tick, input.delayTicks);
            DispatchAll(c, e, input, releases) ==
            ExecutiveState(
              e.scheduler.(tasks := [if flight then TaskCompleted(tasks[0], completion) else tasks[0],
                                     if housekeeping then TaskCompleted(tasks[1], input.tick) else tasks[1]]),
              if flight then AfterStep(c.app, e.app, input.flight) else e.app)
  {
    DispatchTwo(c, e, input, releases);
    assert e.scheduler.tasks == [e.scheduler.tasks[0], e.scheduler.tasks[1]];
    var middle := e;
    if flight {
      DispatchFlight(c, e, input);
      middle := Dispatch(c, e, input, FLIGHT_TASK);
    }
    if housekeeping {
      DispatchHousekeeping(c, middle, input);
    }
  }

  lemma {:induction false} ServedIs(t: TaskState, tick: u64, completion: u64)
    requires RateGroupOk(t.config) && !t.pending
    ensures Served(t, tick, completion) ==
            if Due(t.config, tick) then TaskCompleted(TaskAfter(t, tick), completion) else TaskAfter(t, tick)
  {
    IdleTaskAfter(t, tick);
  }

  lemma {:induction false} StepInClosedForm(c: ExecutiveConfig, e: ExecutiveState, input: ExecutiveInput)
    requires Settled(c, e.scheduler) && TickAccepted(e.scheduler, input.tick)
    ensures AfterExecutiveStep(c, e, input) == Stepped(c, e, input)
    ensures TickResult(e.scheduler, input.tick).misses == []
  {
    var s, tick := e.scheduler, input.tick;
    UnfoldExecutiveStep(c, e, input);
    ReleasedPair(c, s, tick);
    TickReleasesPair(c, s, tick);
    ServedIs(s.tasks[0], tick, CompletionTick(tick, input.delayTicks));
    ServedIs(s.tasks[1], tick, tick);
    DispatchPair(c, e.(scheduler := AfterTick(s, tick)), input, TickResult(s, tick).releases,
                 Due(s.tasks[0].config, tick), Due(s.tasks[1].config, tick));
  }

  // ---- Runs ----

  /** An invalid scheduler accepts no tick and the executive does nothing; a valid one has
      no task pending between steps. */
  ghost predicate InOrder(c: ExecutiveConfig, s: SchedulerState) {
    WellFormed(s) && if ConfigurationOk(SchedulerConfiguration(c)) then Settled(c, s) else !s.valid
  }

  lemma {:induction false} ServedSettles(t: TaskState, tick: u64, completion: u64)
    requires RateGroupOk(t.config) && !t.pending
    ensures Served(t, tick, completion).config == t.config && !Served(t, tick, completion).pending
  {
  }

  lemma {:induction false} StepKeepsOrder(c: ExecutiveConfig, e: ExecutiveState, input: ExecutiveInput)
    requires InOrder(c, e.scheduler)
    ensures InOrder(c, AfterExecutiveStep(c, e, input).scheduler)
    ensures !TickAccepted(e.scheduler, input.tick) ==> AfterExecutiveStep(c, e, input) == e
  {
    UnfoldExecutiveStep(c, e, input);
    if TickAccepted(e.scheduler, input.tick) {
      StepInClosedForm(c, e, input);
      ServedSettles(e.scheduler.tasks[0], input.tick, CompletionTick(input.tick, input.delayTicks));
      ServedSettles(e.scheduler.tasks[1], input.tick, input.tick);
    }
  }

  /** The executive after a run of inputs. */
  ghost function Run(c: ExecutiveConfig, inputs: seq<ExecutiveInput>): (e: ExecutiveState)
    ensures InOrder(c, e.scheduler)
    decreases |inputs|
  {
    if inputs == [] then InitialExecutive(c)
    else
      var before := Run(c, inputs[..|inputs| - 1]);
      StepKeepsOrder(c, before, inputs[|inputs| - 1]);
      AfterExecutiveStep(c, before, inputs[|inputs| - 1])
  }

  lemma {:induction false} RunNext(c: ExecutiveConfig, inputs: seq<ExecutiveInput>)
    requires inputs != []
    ensures var n := |inputs| - 1;
            var e := Run(c, inputs[..n]);
            Run(c, inputs) == if TickAccepted(e.scheduler, inputs[n].tick) then Stepped(c, e, inputs[n]) else e
  {
    var n := |inputs| - 1;
    var e := Run(c, inputs[..n]);
    StepKeepsOrder(c, e, inputs[n]);
    if TickAccepted(e.scheduler, inputs[n].tick) {
      StepInClosedForm(c, e, inputs[n]);
    }
  }

  /** Whatever the inputs before it, a step reports no deadline miss: every job it releases
      is completed before it returns. */
  lemma {:induction false} NothingStaysPending(c: ExecutiveConfig, inputs: seq<ExecutiveInput>, tick: u64)
    ensures TickResult(Run(c, inputs).scheduler, tick).misses == []
    ensures forall t :: t in Run(c, inputs).scheduler.tasks ==> !t.pending && t.completionCount == t.releaseCount
  {
    var e := Run(c, inputs);
    if TickAccepted(e.scheduler, tick) {
      TwoReleases(e.scheduler.tasks, tick);
      IdleTaskAfter(e.scheduler.tasks[0], tick);
      IdleTaskAfter(e.scheduler.tasks[1], tick);
    }
    CompletionsMatch(c, inputs);
  }

  lemma {:induction false} CompletionsMatch(c: ExecutiveConfig, inputs: seq<ExecutiveInput>)
    ensures forall t :: t in Run(c, inputs).scheduler.tasks ==> !t.pending && t.completionCount == t.releaseCount
    decreases |inputs|
  {
    if inputs != [] {
      var n := |inputs| - 1;
      CompletionsMatch(c, inputs[..n]);
      var e := Run(c, inputs[..n]);
      RunNext(c, inputs);
      if TickAccepted(e.scheduler, inputs[n].tick) {
        assert e.scheduler.tasks[0] in e.scheduler.tasks && e.scheduler.tasks[1] in e.scheduler.tasks;
      }
    } else {
      assert forall t :: t in InitialExecutive(c).scheduler.tasks ==>
               !t.pending && t.completionCount == 0 == t.releaseCount;
    }
  }

  // ---- Misses ----

  /** A job released at `tick` and completed `delay` ticks later is late: its deadline lies
      beyond the last tick and wraps, or the delay exceeds it. A deadline that falls on the
      last tick itself is always met, since completions stop there. */
  predicate IsLate(deadline: u32, tick: u64, delay: u32) {
    tick + deadline > U64_MAX || (delay > deadline && tick + deadline < U64_MAX)
  }

  function Verdict(deadline: u32, tick: u64, delay: u32): CompletionStatus {
    if IsLate(deadline, tick, delay) then CompletedLate else CompletedOnTime
  }

  lemma {:induction false} CompletionVerdict(t: TaskState, tick: u64, delay: u32)
    requires RateGroupOk(t.config) && Due(t.config, tick) && !t.pending
    ensures OnTime(TaskAfter(t, tick), CompletionTick(tick, delay)) <==> !IsLate(t.config.deadline, tick, delay)
  {
    IdleTaskAfter(t, tick);
    if tick + t.config.deadline > U64_MAX {
      assert TaskAfter(t, tick).deadlineTick == tick + t.config.deadline - U64_SPAN;
    }
  }

  lemma {:induction false} LateCompletion(t: TaskState, tick: u64, delay: u32)
    requires RateGroupOk(t.config) && !t.pending
    ensures Served(t, tick, CompletionTick(tick, delay)).missCount ==
            if Due(t.config, tick) && IsLate(t.config.deadline, tick, delay)
            then Increment(t.missCount) else t.missCount
  {
    IdleTaskAfter(t, tick);
    if Due(t.config, tick) {
      CompletionVerdict(t, tick, delay);
    }
  }

  lemma {:induction false} LateCompletionCounted(t: TaskState, tick: u64, delay: u32, count: nat)
    requires RateGroupOk(t.config) && !t.pending && t.missCount == count % U64_SPAN
    ensures Served(t, tick, CompletionTick(tick, delay)).missCount ==
            (count + SchedulerRuns.Flag(FinishesLate(t.config, tick, delay))) % U64_SPAN
  {
    LateCompletion(t, tick, delay);
    IncrementCounts(t.missCount, count);
  }

  /** The task is released at `tick` and its job finishes late. */
  predicate FinishesLate(group: RateGroupConfig, tick: u64, delay: u32) {
    RateGroupOk(group) && Due(group, tick) && IsLate(group.deadline, tick, delay)
  }

  /** The completion delay of the flight task, 0, is an input; that of housekeeping, 1, is nil. */
  function DelayOf(input: ExecutiveInput, k: nat): u32 {
    if k == 0 then input.delayTicks else 0
  }

  /** The last input of a run is accepted, releases task `k`, and the job finishes late. */
  ghost predicate LastIsLate(c: ExecutiveConfig, inputs: seq<ExecutiveInput>, k: nat)
    requires k < 2 && inputs != []
  {
    var n := |inputs| - 1;
    TickAccepted(Run(c, inputs[..n]).scheduler, inputs[n].tick) &&
    FinishesLate(SchedulerConfiguration(c)[k], inputs[n].tick, DelayOf(inputs[n], k))
  }

  /** Number of jobs of task `k` that were released and finished late. */
  ghost function LateJobs(c: ExecutiveConfig, inputs: seq<ExecutiveInput>, k: nat): nat
    requires k < 2
    decreases |inputs|
  {
    if inputs == [] then 0
    else
      var n := |inputs| - 1;
      LateJobs(c, inputs[..n], k) + SchedulerRuns.Flag(LastIsLate(c, inputs, k))
  }

  lemma {:induction false} StepCountsLate(
    c: ExecutiveConfig, e: ExecutiveState, input: ExecutiveInput, k: nat, count: nat)
    requires Settled(c, e.scheduler) && k < 2 && e.scheduler.tasks[k].missCount == count % U64_SPAN
    ensures var late := FinishesLate(SchedulerConfiguration(c)[k], input.tick, DelayOf(input, k));
            Stepped(c, e, input).scheduler.tasks[k].missCount == (count + SchedulerRuns.Flag(late)) % U64_SPAN
  {
    LateCompletionCounted(e.scheduler.tasks[k], input.tick, DelayOf(input, k), count);
  }

  lemma {:induction false} ExecutiveCountsLate(
    c: ExecutiveConfig, e: ExecutiveState, input: ExecutiveInput, k: nat, count: nat)
    requires Settled(c, e.scheduler) && k < 2 && e.scheduler.tasks[k].missCount == count % U64_SPAN
    ensures var late := TickAccepted(e.scheduler, input.tick) &&
                        FinishesLate(SchedulerConfiguration(c)[k], input.tick, DelayOf(input, k));
            var tasks := AfterExecutiveStep(c, e, input).scheduler.tasks;
            |tasks| == 2 && tasks[k].missCount == (count + SchedulerRuns.Flag(late)) % U64_SPAN
  {
    if TickAccepted(e.scheduler, input.tick) {
      StepInClosedForm(c, e, input);
      StepCountsLate(c, e, input, k, count);
    } else {
      UnfoldExecutiveStep(c, e, input);
    }
  }

  /** Over every run the miss counters count exactly the late jobs. */
  lemma {:induction false} MissesAreLateJobs(c: ExecutiveConfig, inputs: seq<ExecutiveInput>, k: nat)
    requires ConfigurationOk(SchedulerConfiguration(c)) && k < 2
    ensures Run(c, inputs).scheduler.tasks[k].missCount == LateJobs(c, inputs, k) % U64_SPAN
    decreases |inputs|
  {
    if inputs == [] {
    } else {
      var n := |inputs| - 1;
      MissesAreLateJobs(c, inputs[..n], k);
      ExecutiveCountsLate(c, Run(c, inputs[..n]), inputs[n], k, LateJobs(c, inputs[..n], k));
    }
  }

  lemma {:induction false} NotStartedAtZero(c: ExecutiveConfig, inputs: seq<ExecutiveInput>)
    ensures !Run(c, inputs).scheduler.started ==> Run(c, inputs).scheduler.lastTick == 0
    decreases |inputs|
  {
    if inputs == [] {
    } else {
      var n := |inputs| - 1;
      NotStartedAtZero(c, inputs[..n]);
      RunNext(c, inputs);
    }
  }

  /** The flight task is released at `tick` and delayed beyond its deadline, which lies
      before the last tick. */
  predicate DelayedTooLong(group: RateGroupConfig, tick: u64, delay: u32) {
    RateGroupOk(group) && Due(group, tick) && delay > group.deadline && tick + group.deadline < U64_MAX
  }

  /** Number of flight releases whose delay exceeded the flight deadline, not counting those
      whose deadline is the last tick, which no completion can exceed. */
  ghost function OverlongFlights(c: ExecutiveConfig, inputs: seq<ExecutiveInput>): nat
    decreases |inputs|
  {
    if inputs == [] then 0
    else
      var n := |inputs| - 1;
      OverlongFlights(c, inputs[..n]) +
      SchedulerRuns.Flag(TickAccepted(Run(c, inputs[..n]).scheduler, inputs[n].tick) &&
                         DelayedTooLong(FlightGroup(c), inputs[n].tick, inputs[n].delayTicks))
  }

  /** Number of releases up to tick `last` whose deadline lies past the last tick. */
  function WrappedReleases(group: RateGroupConfig, last: u64): int
    requires RateGroupOk(group)
  {
    if last + group.deadline <= U64_MAX then 0
    else SchedulerRuns.ReleasesUpTo(group, last) - SchedulerRuns.ReleasesUpTo(group, U64_MAX - group.deadline)
  }

  lemma {:induction false} WrappedNext(group: RateGroupConfig, last: u64)
    requires RateGroupOk(group) && last < U64_MAX
    ensures WrappedReleases(group, last + 1) ==
            WrappedReleases(group, last) +
            SchedulerRuns.Flag(last + 1 + group.deadline > U64_MAX && Due(group, last + 1))
  {
    SchedulerRuns.ReleasesUpToNext(group, last);
  }

  /** One more tick: a late job is one delayed too long or one whose deadline wraps. */
  lemma {:induction false} LateNext(group: RateGroupConfig, started: bool, last: u64, tick: u64, delay: u32)
    requires RateGroupOk(group) && if started then last < U64_MAX && tick == last + 1 else tick == 0 == last
    ensures SchedulerRuns.Flag(FinishesLate(group, tick, delay)) ==
            SchedulerRuns.Flag(DelayedTooLong(group, tick, delay)) +
            WrappedReleases(group, tick) - WrappedReleases(group, last)
  {
    if started {
      WrappedNext(group, last);
    }
  }

  /** In every run the late flight jobs are those whose delay exceeds a deadline before the
      last tick, and those whose deadline lies past the last tick. */
  lemma {:induction false} LateFlights(c: ExecutiveConfig, inputs: seq<ExecutiveInput>)
    requires RateGroupOk(FlightGroup(c))
    ensures LateJobs(c, inputs, 0) ==
            OverlongFlights(c, inputs) + WrappedReleases(FlightGroup(c), Run(c, inputs).scheduler.lastTick)
    decreases |inputs|
  {
    if inputs == [] {
    } else {
      var n := |inputs| - 1;
      var s := Run(c, inputs[..n]).scheduler;
      LateFlights(c, inputs[..n]);
      RunNext(c, inputs);
      NotStartedAtZero(c, inputs[..n]);
      if TickAccepted(s, inputs[n].tick) {
        LateNext(FlightGroup(c), s.started, s.lastTick, inputs[n].tick, inputs[n].delayTicks);
      }
    }
  }

  /** In every run the late housekeeping jobs are those whose deadline lies past the last
      tick, so none at all while deadlines stay within 64 bits. */
  lemma {:induction false} LateHousekeeping(c: ExecutiveConfig, inputs: seq<ExecutiveInput>)
    requires RateGroupOk(HousekeepingGroup(c))
    ensures LateJobs(c, inputs, 1) == WrappedReleases(HousekeepingGroup(c), Run(c, inputs).scheduler.lastTick)
    decreases |inputs|
  {
    if inputs == [] {
    } else {
      var n := |inputs| - 1;
      var s := Run(c, inputs[..n]).scheduler;
      LateHousekeeping(c, inputs[..n]);
      RunNext(c, inputs);
      NotStartedAtZero(c, inputs[..n]);
      if TickAccepted(s, inputs[n].tick) {
        LateNext(HousekeepingGroup(c), s.started, s.lastTick, inputs[n].tick, 0);
      }
    }
  }

  /** In every run the flight task misses once for every release whose delay exceeds the
      flight deadline, unless that deadline is the last tick, and housekeeping never; to both
      come the releases whose deadline lies past the last tick, of which there are none while
      deadlines stay within 64 bits. */
  lemma {:induction false} MissesAreOverlongFlights(c: ExecutiveConfig, inputs: seq<ExecutiveInput>)
    requires ConfigurationOk(SchedulerConfiguration(c))
    ensures RateGroupOk(FlightGroup(c)) && RateGroupOk(HousekeepingGroup(c))
    ensures var s := Run(c, inputs).scheduler;
            s.tasks[0].missCount ==
              (OverlongFlights(c, inputs) + WrappedReleases(FlightGroup(c), s.lastTick)) % U64_SPAN &&
            s.tasks[1].missCount == WrappedReleases(HousekeepingGroup(c), s.lastTick) % U64_SPAN
  {
    assert RateGroupOk(SchedulerConfiguration(c)[0]) && RateGroupOk(SchedulerConfiguration(c)[1]);
    MissesAreLateJobs(c, inputs, 0);
    MissesAreLateJobs(c, inputs, 1);
    LateFlights(c, inputs);
    LateHousekeeping(c, inputs);
  }

  lemma {:induction false} OutcomesTwo(
    c: ExecutiveConfig, e: ExecutiveState, input: ExecutiveInput, releases: seq<Release>)
    requires |releases| <= 2
    ensures var none := Outcomes(None, None, None);
            OutcomesAll(c, e, input, releases) ==
            if |releases| == 0 then none
            else
              var first := OutcomesNext(c, e, input, releases[0].taskId, none);
              if |releases| == 1 then first
              else OutcomesNext(c, Dispatch(c, e, input, releases[0].taskId), input, releases[1].taskId, first)
  {
    if |releases| == 0 {
    } else {
      var n := |releases| - 1;
      DispatchTwo(c, e, input, releases[..n]);
      OutcomesTwo(c, e, input, releases[..n]);
    }
  }

  /** The answer to a completion of a pending task. */
  function AnswerOf(t: TaskState, tick: u64): CompletionResult {
    CompletionResult(if OnTime(t, tick) then CompletedOnTime else CompletedLate,
                     t.config.taskId, t.releaseTick, t.deadlineTick, tick)
  }

  lemma {:induction false} PairCompletions(c: ExecutiveConfig, s: SchedulerState, k: nat, tick: u64)
    requires PairPending(c, s, k)
    ensures CompletionOf(s, s.tasks[k].config.taskId, tick) == AnswerOf(s.tasks[k], tick)
  {
  }

  /** What the executive's loop hands back when tick `input.tick` is accepted in state `e`. */
  ghost function OutcomesOf(c: ExecutiveConfig, e: ExecutiveState, input: ExecutiveInput): Outcomes
    requires WellFormed(e.scheduler)
  {
    OutcomesAll(c, e.(scheduler := AfterTick(e.scheduler, input.tick)), input,
                TickResult(e.scheduler, input.tick).releases)
  }

  lemma {:induction false} PairOutput(
    c: ExecutiveConfig, e: ExecutiveState, input: ExecutiveInput, releases: seq<Release>,
    flight: bool, housekeeping: bool)
    requires PairReleased(c, e.scheduler, releases, flight, housekeeping)
    ensures OutcomesAll(c, e, input, releases).flight ==
            if flight then Some(StepOutput(DecisionOf(c.app, e.app, input.flight),
                                           TelemetryOf(AfterStep(c.app, e.app, input.flight), input.flight)))
            else None
  {
    OutcomesTwo(c, e, input, releases);
  }

  lemma {:induction false} PairOutcomes(
    c: ExecutiveConfig, e: ExecutiveState, input: ExecutiveInput, releases: seq<Release>,
    flight: bool, housekeeping: bool)
    requires PairReleased(c, e.scheduler, releases, flight, housekeeping)
    ensures var o, tasks := OutcomesAll(c, e, input, releases), e.scheduler.tasks;
            var completion := CompletionTick(input.tick, input.delayTicks);
            o.flightCompletion == (if flight then Some(AnswerOf(tasks[0], completion)) else None) &&
            o.housekeepingCompletion == (if housekeeping then Some(AnswerOf(tasks[1], input.tick)) else None)
  {
    OutcomesTwo(c, e, input, releases);
    if flight {
      PairCompletions(c, e.scheduler, 0, CompletionTick(input.tick, input.delayTicks));
      DispatchFlight(c, e, input);
    }
    if housekeeping {
      PairCompletions(c, if flight then Dispatch(c, e, input, FLIGHT_TASK).scheduler else e.scheduler, 1, input.tick);
    }
  }

  /** The completion the executive reports for a task released at `tick`. */
  function CompletionAfter(taskId: u16, deadline: u32, tick: u64, delay: u32): CompletionResult {
    CompletionResult(Verdict(deadline, tick, delay), taskId, tick, (tick + deadline) % U64_SPAN,
                     CompletionTick(tick, delay))
  }

  lemma {:induction false} AnswerIs(t: TaskState, tick: u64, delay: u32)
    requires RateGroupOk(t.config) && Due(t.config, tick) && !t.pending
    ensures AnswerOf(TaskAfter(t, tick), CompletionTick(tick, delay)) ==
            CompletionAfter(t.config.taskId, t.config.deadline, tick, delay)
  {
    CompletionVerdict(t, tick, delay);
    IdleTaskAfter(t, tick);
  }

  lemma {:induction false} StepOutcomes(c: ExecutiveConfig, e: ExecutiveState, input: ExecutiveInput)
    requires Settled(c, e.scheduler) && TickAccepted(e.scheduler, input.tick)
    ensures var o, tasks, tick := OutcomesOf(c, e, input), e.scheduler.tasks, input.tick;
            o.flightCompletion ==
              (if Due(tasks[0].config, tick)
               then Some(CompletionAfter(FLIGHT_TASK, c.flightDeadline, tick, input.delayTicks)) else None) &&
            o.housekeepingCompletion ==
              (if Due(tasks[1].config, tick)
               then Some(CompletionAfter(HOUSEKEEPING_TASK, c.housekeepingDeadline, tick, 0)) else None)
  {
    var s, tick := e.scheduler, input.tick;
    ReleasedPair(c, s, tick);
    TickReleasesPair(c, s, tick);
    PairOutcomes(c, e.(scheduler := AfterTick(s, tick)), input, TickResult(s, tick).releases,
                 Due(s.tasks[0].config, tick), Due(s.tasks[1].config, tick));
    if Due(s.tasks[0].config, tick) {
      AnswerIs(s.tasks[0], tick, input.delayTicks);
    }
    if Due(s.tasks[1].config, tick) {
      AnswerIs(s.tasks[1], tick, 0);
    }
  }

  /** What an accepted step reports, in any run: each task runs exactly when it is due, and its
      completion is reported in full, late exactly when it is. */
  lemma {:induction false} StepReportsLateness(c: ExecutiveConfig, inputs: seq<ExecutiveInput>, input: ExecutiveInput)
    requires ConfigurationOk(SchedulerConfiguration(c)) && TickAccepted(Run(c, inputs).scheduler, input.tick)
    ensures RateGroupOk(FlightGroup(c)) && RateGroupOk(HousekeepingGroup(c))
    ensures var e, output, tick := Run(c, inputs), OutputOf(c, Run(c, inputs), input), input.tick;
            output.flight ==
              (if Due(FlightGroup(c), tick)
               then Some(StepOutput(DecisionOf(c.app, e.app, input.flight),
                                    TelemetryOf(AfterStep(c.app, e.app, input.flight), input.flight)))
               else None) &&
            output.flightCompletion ==
              (if Due(FlightGroup(c), tick)
               then Some(CompletionAfter(FLIGHT_TASK, c.flightDeadline, tick, input.delayTicks)) else None) &&
            output.housekeepingCompletion ==
              (if Due(HousekeepingGroup(c), tick)
               then Some(CompletionAfter(HOUSEKEEPING_TASK, c.housekeepingDeadline, tick, 0)) else None)
  {
    var e := Run(c, inputs);
    assert e.scheduler.tasks[0].config == FlightGroup(c) && e.scheduler.tasks[1].config == HousekeepingGroup(c);
    TickReleasesPair(c, e.scheduler, input.tick);
    PairOutput(c, e.(scheduler := AfterTick(e.scheduler, input.tick)), input,
               TickResult(e.scheduler, input.tick).releases,
               Due(FlightGroup(c), input.tick), Due(HousekeepingGroup(c), input.tick));
    StepOutcomes(c, e, input);
  }

  // ---- The scheduler under the executive ----

  /** The calls of one accepted step: the tick, then the completion of each released task. */
  function StepOps(c: ExecutiveConfig, input: ExecutiveInput): seq<SchedulerRuns.Op> {
    [SchedulerRuns.Tick(input.tick)] +
    (if SchedulerReports.Falls(FlightGroup(c), input.tick)
     then [SchedulerRuns.Complete(FLIGHT_TASK, CompletionTick(input.tick, input.delayTicks))] else []) +
    (if SchedulerReports.Falls(HousekeepingGroup(c), input.tick)
     then [SchedulerRuns.Complete(HOUSEKEEPING_TASK, input.tick)] else [])
  }

  /** The calls the executive makes to its scheduler in a run. */
  function OpsOf(c: ExecutiveConfig, inputs: seq<ExecutiveInput>): seq<SchedulerRuns.Op>
    decreases |inputs|
  {
    if inputs == [] then []
    else
      var n := |inputs| - 1;
      var earlier := OpsOf(c, inputs[..n]);
      earlier + if inputs[n].tick == SchedulerReports.TicksTaken(earlier) then StepOps(c, inputs[n])
                else [SchedulerRuns.Tick(inputs[n].tick)]
  }

  lemma {:induction false} OneMoreOp(
    configuration: seq<RateGroupConfig>, ops: seq<SchedulerRuns.Op>, op: SchedulerRuns.Op)
    ensures SchedulerRuns.Run(configuration, ops + [op]) ==
            SchedulerRuns.Apply(SchedulerRuns.Run(configuration, ops), op)
  {
    assert (ops + [op])[..|ops|] == ops;
  }

  lemma {:induction false} CompleteOp(c: ExecutiveConfig, s: SchedulerState, k: nat, tick: u64)
    requires PairPending(c, s, k) && WellFormed(s)
    ensures SchedulerRuns.Apply(s, SchedulerRuns.Complete(s.tasks[k].config.taskId, tick)) ==
            s.(tasks := s.tasks[k := TaskCompleted(s.tasks[k], tick)])
  {
    SchedulerRuns.UnfoldApply(s, SchedulerRuns.Complete(s.tasks[k].config.taskId, tick));
    CompletePair(s, s.tasks[k].config.taskId, tick);
  }

  lemma {:induction false} PairOps(
    c: ExecutiveConfig, s: SchedulerState, input: ExecutiveInput, flight: bool, housekeeping: bool)
    requires WellFormed(s) && (flight ==> PairPending(c, s, 0)) && (housekeeping ==> PairPending(c, s, 1))
    requires |s.tasks| == 2
    ensures var ct := CompletionTick(input.tick, input.delayTicks);
            var first := if flight then SchedulerRuns.Apply(s, SchedulerRuns.Complete(FLIGHT_TASK, ct)) else s;
            WellFormed(first) &&
            var second :=
              if housekeeping then SchedulerRuns.Apply(first, SchedulerRuns.Complete(HOUSEKEEPING_TASK, input.tick))
              else first;
            second == s.(tasks := [if flight then TaskCompleted(s.tasks[0], ct) else s.tasks[0],
                                   if housekeeping then TaskCompleted(s.tasks[1], input.tick) else s.tasks[1]])
  {
    var ct := CompletionTick(input.tick, input.delayTicks);
    assert s.tasks == [s.tasks[0], s.tasks[1]];
    var first := s;
    if flight {
      SchedulerRuns.ApplyKeepsShape(s, SchedulerRuns.Complete(FLIGHT_TASK, ct));
      CompleteOp(c, s, 0, ct);
      first := SchedulerRuns.Apply(s, SchedulerRuns.Complete(FLIGHT_TASK, ct));
    }
    if housekeeping {
      CompleteOp(c, first, 1, input.tick);
    }
  }

  lemma {:induction false} OptionalOp(
    configuration: seq<RateGroupConfig>, ops: seq<SchedulerRuns.Op>, op: SchedulerRuns.Op, taken: bool)
    ensures SchedulerRuns.Run(configuration, ops + if taken then [op] else []) ==
            if taken then SchedulerRuns.Apply(SchedulerRuns.Run(configuration, ops), op)
            else SchedulerRuns.Run(configuration, ops)
  {
    if taken {
      OneMoreOp(configuration, ops, op);
    } else {
      assert ops + [] == ops;
    }
  }

  lemma {:induction false} RunOfThree(
    configuration: seq<RateGroupConfig>, ops: seq<SchedulerRuns.Op>, tick: SchedulerRuns.Op,
    a: SchedulerRuns.Op, takeA: bool, b: SchedulerRuns.Op, takeB: bool)
    ensures var s := SchedulerRuns.Apply(SchedulerRuns.Run(configuration, ops), tick);
            WellFormed(s) &&
            var first := if takeA then SchedulerRuns.Apply(s, a) else s;
            WellFormed(first) &&
            SchedulerRuns.Run(configuration,
                              ops + ([tick] + (if takeA then [a] else []) + (if takeB then [b] else []))) ==
            if takeB then SchedulerRuns.Apply(first, b) else first
  {
    var one := ops + [tick];
    var two := one + if takeA then [a] else [];
    OneMoreOp(configuration, ops, tick);
    OptionalOp(configuration, one, a, takeA);
    OptionalOp(configuration, two, b, takeB);
    assert ops + ([tick] + (if takeA then [a] else []) + (if takeB then [b] else [])) ==
           two + if takeB then [b] else [];
  }

  lemma {:induction false} StepIsOps(
    c: ExecutiveConfig, e: ExecutiveState, input: ExecutiveInput, ops: seq<SchedulerRuns.Op>)
    requires ConfigurationOk(SchedulerConfiguration(c)) && Settled(c, e.scheduler)
    requires e.scheduler == SchedulerRuns.Run(SchedulerConfiguration(c), ops) && TickAccepted(e.scheduler, input.tick)
    ensures AfterExecutiveStep(c, e, input).scheduler ==
            SchedulerRuns.Run(SchedulerConfiguration(c), ops + StepOps(c, input))
  {
    var s, tick := e.scheduler, input.tick;
    var flight, housekeeping := Due(s.tasks[0].config, tick), Due(s.tasks[1].config, tick);
    SchedulerRuns.DueIffResidue(s.tasks[0].config, tick);
    SchedulerRuns.DueIffResidue(s.tasks[1].config, tick);
    UnfoldExecutiveStep(c, e, input);
    TickReleasesPair(c, s, tick);
    DispatchPair(c, e.(scheduler := AfterTick(s, tick)), input, TickResult(s, tick).releases, flight, housekeeping);
    SchedulerRuns.UnfoldApply(s, SchedulerRuns.Tick(tick));
    AfterTickWellFormed(s, tick);
    PairOps(c, AfterTick(s, tick), input, flight, housekeeping);
    RunOfThree(SchedulerConfiguration(c), ops, SchedulerRuns.Tick(tick),
               SchedulerRuns.Complete(FLIGHT_TASK, CompletionTick(tick, input.delayTicks)), flight,
               SchedulerRuns.Complete(HOUSEKEEPING_TASK, tick), housekeeping);
  }

  /** Under the executive the scheduler makes a scheduler run of its own, so that what holds of
      every scheduler run holds here. */
  lemma {:induction false} SchedulerRunsOnInputs(c: ExecutiveConfig, inputs: seq<ExecutiveInput>)
    requires ConfigurationOk(SchedulerConfiguration(c))
    ensures Run(c, inputs).scheduler == SchedulerRuns.Run(SchedulerConfiguration(c), OpsOf(c, inputs))
    decreases |inputs|
  {
    if inputs == [] {
    } else {
      var n := |inputs| - 1;
      var e, ops, tick := Run(c, inputs[..n]), OpsOf(c, inputs[..n]), inputs[n].tick;
      SchedulerRunsOnInputs(c, inputs[..n]);
      SchedulerReports.AcceptedIffNext(SchedulerConfiguration(c), ops, tick);
      if TickAccepted(e.scheduler, tick) {
        StepIsOps(c, e, inputs[n], ops);
      } else {
        StepKeepsOrder(c, e, inputs[n]);
        OneMoreOp(SchedulerConfiguration(c), ops, SchedulerRuns.Tick(tick));
        SchedulerRuns.UnfoldApply(e.scheduler, SchedulerRuns.Tick(tick));
      }
    }
  }

  /** The statistics the executive publishes after any run. */
  lemma {:induction false} StatisticsTell(c: ExecutiveConfig, inputs: seq<ExecutiveInput>, k: nat)
    requires ConfigurationOk(SchedulerConfiguration(c)) && k < 2
    ensures var conf, taken := SchedulerConfiguration(c), SchedulerReports.TicksTaken(OpsOf(c, inputs));
            taken <= U64_SPAN &&
            var releases := (if taken == 0 then 0 else SchedulerRuns.ReleasesUpTo(conf[k], taken - 1)) % U64_SPAN;
            StatisticsOf(Run(c, inputs).scheduler.tasks[k]) ==
            Statistics(if k == 0 then 1 else 2, releases, releases, LateJobs(c, inputs, k) % U64_SPAN, false)
  {
    var t := Run(c, inputs).scheduler.tasks[k];
    SchedulerRunsOnInputs(c, inputs);
    SchedulerReports.ReleasesTell(SchedulerConfiguration(c), OpsOf(c, inputs), k);
    CompletionsMatch(c, inputs);
    assert t in Run(c, inputs).scheduler.tasks;
    MissesAreLateJobs(c, inputs, k);
  }

  // ---- The application under the executive ----

  /** The flight inputs that reach the application: those of accepted ticks at which the
      flight task is due. */
  ghost function Delivered(c: ExecutiveConfig, inputs: seq<ExecutiveInput>): seq<StepInput>
    decreases |inputs|
  {
    if inputs == [] then []
    else
      var n := |inputs| - 1;
      var s := Run(c, inputs[..n]).scheduler;
      var earlier := Delivered(c, inputs[..n]);
      if TickAccepted(s, inputs[n].tick) && Due(s.tasks[0].config, inputs[n].tick)
      then earlier + [inputs[n].flight] else earlier
  }

  lemma {:induction false} AppNext(c: AppConfig, inputs: seq<StepInput>, input: StepInput)
    ensures AppRuns.Run(c, inputs + [input]) == AfterStep(c, AppRuns.Run(c, inputs), input)
  {
    assert (inputs + [input])[..|inputs|] == inputs;
  }

  /** Under the executive the application makes an application run of its own, with one step
      for each release of the flight task and in that order. */
  lemma {:induction false} AppRunsOnReleases(c: ExecutiveConfig, inputs: seq<ExecutiveInput>)
    ensures Run(c, inputs).app == AppRuns.Run(c.app, Delivered(c, inputs))
    decreases |inputs|
  {
    if inputs == [] {
    } else {
      var n := |inputs| - 1;
      AppRunsOnReleases(c, inputs[..n]);
      RunNext(c, inputs);
      AppNext(c.app, Delivered(c, inputs[..n]), inputs[n].flight);
    }
  }

  lemma {:induction false} StepCountsRelease(c: ExecutiveConfig, e: ExecutiveState, input: ExecutiveInput, count: nat)
    requires Settled(c, e.scheduler) && e.scheduler.tasks[0].releaseCount == count % U64_SPAN
    ensures Stepped(c, e, input).scheduler.tasks[0].releaseCount ==
            (if Due(e.scheduler.tasks[0].config, input.tick) then count + 1 else count) % U64_SPAN
  {
    IncrementCounts(e.scheduler.tasks[0].releaseCount, count);
  }

  lemma {:induction false} ReleasesAreDelivered(c: ExecutiveConfig, inputs: seq<ExecutiveInput>)
    requires ConfigurationOk(SchedulerConfiguration(c))
    ensures Run(c, inputs).scheduler.tasks[0].releaseCount == |Delivered(c, inputs)| % U64_SPAN
    decreases |inputs|
  {
    if inputs == [] {
    } else {
      var n := |inputs| - 1;
      ReleasesAreDelivered(c, inputs[..n]);
      RunNext(c, inputs);
      var e, earlier := Run(c, inputs[..n]), Delivered(c, inputs[..n]);
      if TickAccepted(e.scheduler, inputs[n].tick) {
        StepCountsRelease(c, e, inputs[n], |earlier|);
        assert |Delivered(c, inputs)| ==
               if Due(e.scheduler.tasks[0].config, inputs[n].tick) then |earlier| + 1 else |earlier|;
      } else {
        assert Delivered(c, inputs) == earlier;
      }
    }
  }

  lemma {:induction false} LowerHalf(n: nat)
    ensures (n % U64_SPAN) % U32_SPAN == n % U32_SPAN
  {
    var q := n / U64_SPAN;
    assert n == U32_SPAN * (U32_SPAN * q) + n % U64_SPAN;
  }

  /** Telemetry packets are numbered by the flight task's release counter, modulo 2^32. */
  lemma {:induction false} TelemetryCountsReleases(c: ExecutiveConfig, inputs: seq<ExecutiveInput>)
    requires ConfigurationOk(SchedulerConfiguration(c))
    ensures Run(c, inputs).app.telemetrySequence == Run(c, inputs).scheduler.tasks[0].releaseCount % U32_SPAN
  {
    AppRunsOnReleases(c, inputs);
    ReleasesAreDelivered(c, inputs);
    AppRuns.TelemetryCountsSteps(c.app, Delivered(c, inputs));
    LowerHalf(|Delivered(c, inputs)|);
  }

  /** The flight release counter, and so the telemetry number, in closed form. */
  lemma {:induction false} ReleasesFromLastTick(c: ExecutiveConfig, inputs: seq<ExecutiveInput>)
    requires ConfigurationOk(SchedulerConfiguration(c))
    ensures RateGroupOk(FlightGroup(c))
    ensures var s := Run(c, inputs).scheduler;
            s.tasks[0].releaseCount ==
            SchedulerRuns.ReleasesSoFar(FlightGroup(c), s.started, s.lastTick) % U64_SPAN
    decreases |inputs|
  {
    assert RateGroupOk(SchedulerConfiguration(c)[0]);
    if inputs == [] {
    } else {
      var n := |inputs| - 1;
      var s, tick := Run(c, inputs[..n]).scheduler, inputs[n].tick;
      ReleasesFromLastTick(c, inputs[..n]);
      RunNext(c, inputs);
      if TickAccepted(s, tick) {
        SchedulerRuns.ReleasesNext(FlightGroup(c), s.started, s.lastTick, tick, s.tasks[0].releaseCount);
      }
    }
  }
}
