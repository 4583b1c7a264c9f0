/** The rate-group scheduler: periodic releases, deadlines and overruns on a tick count
    that the caller supplies. */
module Scheduler {
  import opened Words

  datatype RateGroupConfig = RateGroupConfig(taskId: u16, name: string, period: u32, phase: u32, deadline: u32)

  datatype TaskState = TaskState(
    config: RateGroupConfig, pending: bool, missRecorded: bool, releaseTick: u64, deadlineTick: u64,
    releaseCount: u64, completionCount: u64, missCount: u64)

  datatype SchedulerState = SchedulerState(valid: bool, tasks: seq<TaskState>, started: bool, lastTick: u64)

  datatype SchedulerStatus = Ok | InvalidConfiguration | TickDiscontinuity

  datatype Release = Release(taskId: u16, releaseTick: u64, deadlineTick: u64, releaseCount: u64)

  datatype DeadlineMiss = DeadlineMiss(taskId: u16, releaseTick: u64, deadlineTick: u64, observedTick: u64)

  datatype StepResult = StepResult(
    status: SchedulerStatus, tick: u64, releases: seq<Release>, misses: seq<DeadlineMiss>)

  datatype CompletionStatus = CompletedOnTime | CompletedLate | UnknownTask | NotPending | SchedulerInvalid

  datatype CompletionResult = CompletionResult(
    status: CompletionStatus, taskId: u16, releaseTick: u64, deadlineTick: u64, completionTick: u64)

  datatype Statistics = Statistics(
    taskId: u16, releaseCount: u64, completionCount: u64, missCount: u64, pending: bool)

  // ---- Configuration ----

  predicate RateGroupOk(c: RateGroupConfig) {
    c.name != "" && c.period != 0 && c.phase < c.period && 1 <= c.deadline <= c.period
  }

  predicate ConfigurationOk(configuration: seq<RateGroupConfig>) {
    configuration != [] &&
    (forall i :: 0 <= i < |configuration| ==> RateGroupOk(configuration[i])) &&
    (forall i, j :: 0 <= i < j < |configuration| ==> configuration[i].taskId != configuration[j].taskId)
  }

  function Idle(c: RateGroupConfig): TaskState {
    TaskState(c, false, false, 0, 0, 0, 0, 0)
  }

  function Initial(configuration: seq<RateGroupConfig>): SchedulerState {
    if ConfigurationOk(configuration)
    then
      var n := |configuration|;
      SchedulerState(true, seq(n, i requires 0 <= i < n => Idle(configuration[i])), false, 0)
    else SchedulerState(false, [], false, 0)
  }

  ghost predicate WellFormed(s: SchedulerState) {
    (forall i :: 0 <= i < |s.tasks| ==> RateGroupOk(s.tasks[i].config)) &&
    (forall i, j :: 0 <= i < j < |s.tasks| ==> s.tasks[i].config.taskId != s.tasks[j].config.taskId)
  }

  // ---- One task at one tick ----

  predicate Due(c: RateGroupConfig, tick: u64)
    requires RateGroupOk(c)
  {
    tick >= c.phase && (tick - c.phase) % c.period == 0
  }

  predicate Overdue(t: TaskState, tick: u64) {
    t.pending && !t.missRecorded && tick > t.deadlineTick
  }

  /** The job of a task that comes due again is missed even if its deadline has not passed. */
  predicate Overrun(t: TaskState, tick: u64)
    requires RateGroupOk(t.config)
  {
    t.pending && !t.missRecorded && !Overdue(t, tick) && Due(t.config, tick)
  }

  function NoteMiss(t: TaskState): TaskState {
    t.(missRecorded := true, missCount := Increment(t.missCount))
  }

  function ReleaseJob(t: TaskState, tick: u64): TaskState {
    t.(pending := true, missRecorded := false, releaseTick := tick,
       deadlineTick := (tick + t.config.deadline) % U64_SPAN, releaseCount := Increment(t.releaseCount))
  }

  function TaskAfter(t: TaskState, tick: u64): TaskState
    requires RateGroupOk(t.config)
  {
    var noted := if Overdue(t, tick) || Overrun(t, tick) then NoteMiss(t) else t;
    if Due(t.config, tick) then ReleaseJob(noted, tick) else noted
  }

  function TaskMisses(t: TaskState, tick: u64): seq<DeadlineMiss>
    requires RateGroupOk(t.config)
  {
    if Overdue(t, tick) || Overrun(t, tick)
    then [DeadlineMiss(t.config.taskId, t.releaseTick, t.deadlineTick, tick)]
    else []
  }

  function TaskReleases(t: TaskState, tick: u64): seq<Release>
    requires RateGroupOk(t.config)
  {
    if Due(t.config, tick) then
      var after := TaskAfter(t, tick);
      [Release(t.config.taskId, after.releaseTick, after.deadlineTick, after.releaseCount)]
    else []
  }

  // ---- One tick of the scheduler ----

  predicate TickAccepted(s: SchedulerState, tick: u64) {
    s.valid && if s.started then s.lastTick < U64_MAX && tick == s.lastTick + 1 else tick == 0
  }

  ghost function AllAfter(tasks: seq<TaskState>, tick: u64): (after: seq<TaskState>)
    requires forall i :: 0 <= i < |tasks| ==> RateGroupOk(tasks[i].config)
    ensures |after| == |tasks|
    ensures forall i :: 0 <= i < |tasks| ==> after[i] == TaskAfter(tasks[i], tick)
  {
    seq(|tasks|, i requires 0 <= i < |tasks| => TaskAfter(tasks[i], tick))
  }

  ghost function AllReleases(tasks: seq<TaskState>, tick: u64): seq<Release>
    requires forall i :: 0 <= i < |tasks| ==> RateGroupOk(tasks[i].config)
  {
    if tasks == [] then [] else AllReleases(tasks[..|tasks| - 1], tick) + TaskReleases(tasks[|tasks| - 1], tick)
  }

  ghost function AllMisses(tasks: seq<TaskState>, tick: u64): seq<DeadlineMiss>
    requires forall i :: 0 <= i < |tasks| ==> RateGroupOk(tasks[i].config)
  {
    if tasks == [] then [] else AllMisses(tasks[..|tasks| - 1], tick) + TaskMisses(tasks[|tasks| - 1], tick)
  }

  ghost function AfterTick(s: SchedulerState, tick: u64): SchedulerState
    requires WellFormed(s)
  {
    if TickAccepted(s, tick) then SchedulerState(true, AllAfter(s.tasks, tick), true, tick) else s
  }

  ghost function TickResult(s: SchedulerState, tick: u64): StepResult
    requires WellFormed(s)
  {
    if !s.valid then StepResult(InvalidConfiguration, tick, [], [])
    else if !TickAccepted(s, tick) then StepResult(TickDiscontinuity, tick, [], [])
    else StepResult(Ok, tick, AllReleases(s.tasks, tick), AllMisses(s.tasks, tick))
  }

  lemma {:induction false} AfterTickWellFormed(s: SchedulerState, tick: u64)
    requires WellFormed(s)
    ensures WellFormed(AfterTick(s, tick))
  {
    if TickAccepted(s, tick) {
      forall i | 0 <= i < |s.tasks|
        ensures AllAfter(s.tasks, tick)[i].config == s.tasks[i].config
      {
      }
    }
  }

  // ---- Completions ----

  /** Index of the first task with the given identifier, or the number of tasks. */
  function Find(tasks: seq<TaskState>, taskId: u16): (k: nat)
    ensures k <= |tasks|
    ensures k < |tasks| ==> tasks[k].config.taskId == taskId
    ensures forall i :: 0 <= i < k ==> tasks[i].config.taskId != taskId
  {
    if tasks == [] || tasks[0].config.taskId == taskId then 0 else 1 + Find(tasks[1..], taskId)
  }

  predicate OnTime(t: TaskState, tick: u64) {
    t.releaseTick <= tick <= t.deadlineTick && !t.missRecorded
  }

  function TaskCompleted(t: TaskState, tick: u64): TaskState {
    var noted := if OnTime(t, tick) || t.missRecorded then t else NoteMiss(t);
    noted.(pending := false, missRecorded := false, completionCount := Increment(t.completionCount))
  }

  function CompletionOf(s: SchedulerState, taskId: u16, tick: u64): CompletionResult {
    var k := Find(s.tasks, taskId);
    if !s.valid then CompletionResult(SchedulerInvalid, taskId, 0, 0, tick)
    else if k == |s.tasks| then CompletionResult(UnknownTask, taskId, 0, 0, tick)
    else if !s.tasks[k].pending then CompletionResult(NotPending, taskId, 0, 0, tick)
    else
      var t := s.tasks[k];
      CompletionResult(if OnTime(t, tick) then CompletedOnTime else CompletedLate,
                       taskId, t.releaseTick, t.deadlineTick, tick)
  }

  function AfterCompletion(s: SchedulerState, taskId: u16, tick: u64): SchedulerState {
    var k := Find(s.tasks, taskId);
    if s.valid && k < |s.tasks| && s.tasks[k].pending
    then s.(tasks := s.tasks[k := TaskCompleted(s.tasks[k], tick)])
    else s
  }

  function StatisticsOf(t: TaskState): Statistics {
    Statistics(t.config.taskId, t.releaseCount, t.completionCount, t.missCount, t.pending)
  }

  // ---- The scheduler itself ----

  class RateGroupScheduler {
    var valid: bool
    var tasks: seq<TaskState>
    var started: bool
    var lastTick: u64

    ghost function View(): SchedulerState
      reads this
    {
      SchedulerState(valid, tasks, started, lastTick)
    }

    ghost predicate Valid()
      reads this
    {
      WellFormed(View())
    }

    constructor (configuration: seq<RateGroupConfig>)
      ensures Valid() && View() == Initial(configuration)
    {
      valid, tasks, started, lastTick := false, [], false, 0;
      new;
      if configuration == [] {
        return;
      }
      for i := 0 to |configuration|
        invariant !valid && !started && lastTick == 0
        invariant |tasks| == i
        invariant forall j :: 0 <= j < i ==> tasks[j] == Idle(configuration[j]) && RateGroupOk(configuration[j])
        invariant forall j, k :: 0 <= j < k < i ==> configuration[j].taskId != configuration[k].taskId
      {
        var c := configuration[i];
        if c.name == "" || c.period == 0 || c.phase >= c.period || c.deadline == 0 || c.deadline > c.period {
          tasks := [];
          return;
        }
        if exists j :: 0 <= j < |tasks| && tasks[j].config.taskId == c.taskId {
          tasks := [];
          return;
        }
        tasks := tasks + [Idle(c)];
      }
      valid := true;
      assert tasks == Initial(configuration).tasks;
    }

    method Step(tick: u64) returns (result: StepResult)
      requires Valid()
      modifies this
      ensures Valid() && View() == AfterTick(old(View()), tick)
      ensures result == TickResult(old(View()), tick)
    {
      if !valid {
        return StepResult(InvalidConfiguration, tick, [], []);
      }
      if !started {
        if tick != 0 {
          return StepResult(TickDiscontinuity, tick, [], []);
        }
        started := true;
      } else if lastTick == U64_MAX || tick != lastTick + 1 {
        return StepResult(TickDiscontinuity, tick, [], []);
      }
      AfterTickWellFormed(old(View()), tick);
      var releases, misses;
      tasks, releases, misses := StepTasks(tasks, tick);
      lastTick := tick;
      result := StepResult(Ok, tick, releases, misses);
    }

    method Complete(taskId: u16, tick: u64) returns (result: CompletionResult)
      requires Valid()
      modifies this
      ensures Valid() && View() == AfterCompletion(old(View()), taskId, tick)
      ensures result == CompletionOf(old(View()), taskId, tick)
    {
      if !valid {
        return CompletionResult(SchedulerInvalid, taskId, 0, 0, tick);
      }
      var k := Find(tasks, taskId);
      if k == |tasks| {
        return CompletionResult(UnknownTask, taskId, 0, 0, tick);
      }
      var task := tasks[k];
      if !task.pending {
        return CompletionResult(NotPending, taskId, 0, 0, tick);
      }
      var releaseTick, deadlineTick, status := task.releaseTick, task.deadlineTick, CompletedOnTime;
      task := task.(completionCount := Increment(task.completionCount));
      if !(tick >= task.releaseTick && tick <= task.deadlineTick && !task.missRecorded) {
        status := CompletedLate;
        if !task.missRecorded {
          task := task.(missRecorded := true, missCount := Increment(task.missCount));
        }
      }
      task := task.(pending := false, missRecorded := false);
      tasks := tasks[k := task];
      result := CompletionResult(status, taskId, releaseTick, deadlineTick, tick);
    }

    method ReadStatistics() returns (output: seq<Statistics>)
      requires Valid()
      ensures |output| == |tasks| && forall i :: 0 <= i < |tasks| ==> output[i] == StatisticsOf(tasks[i])
    {
      output := [];
      for i := 0 to |tasks|
        invariant |output| == i && forall j :: 0 <= j < i ==> output[j] == StatisticsOf(tasks[j])
      {
        output := output + [StatisticsOf(tasks[i])];
      }
    }
  }

  /** The scheduler's loop over its tasks. */
  method StepTasks(before: seq<TaskState>, tick: u64)
    returns (tasks: seq<TaskState>, releases: seq<Release>, misses: seq<DeadlineMiss>)
    requires forall i :: 0 <= i < |before| ==> RateGroupOk(before[i].config)
    ensures tasks == AllAfter(before, tick)
    ensures releases == AllReleases(before, tick) && misses == AllMisses(before, tick)
  {
    tasks, releases, misses := before, [], [];
    for i := 0 to |before|
      invariant |tasks| == |before|
      invariant forall j :: 0 <= j < i ==> tasks[j] == TaskAfter(before[j], tick)
      invariant forall j :: i <= j < |before| ==> tasks[j] == before[j]
      invariant releases == AllReleases(before[..i], tick) && misses == AllMisses(before[..i], tick)
    {
      var task, released, missed := StepTask(tasks[i], tick);
      assert before[..i + 1][..i] == before[..i];
      tasks := tasks[i := task];
      releases, misses := releases + released, misses + missed;
    }
    assert before[..|before|] == before;
  }

  /** The body of the scheduler's loop: deadline check, then release if due. */
  method StepTask(before: TaskState, tick: u64)
    returns (task: TaskState, releases: seq<Release>, misses: seq<DeadlineMiss>)
    requires RateGroupOk(before.config)
    ensures task == TaskAfter(before, tick)
    ensures releases == TaskReleases(before, tick) && misses == TaskMisses(before, tick)
  {
    task, releases, misses := before, [], [];
    if task.pending && !task.missRecorded && tick > task.deadlineTick {
      task := task.(missRecorded := true, missCount := Increment(task.missCount));
      misses := misses + [DeadlineMiss(task.config.taskId, task.releaseTick, task.deadlineTick, tick)];
    }
    if !Due(task.config, tick) {
      return;
    }
    if task.pending && !task.missRecorded {
      task := task.(missRecorded := true, missCount := Increment(task.missCount));
      misses := misses + [DeadlineMiss(task.config.taskId, task.releaseTick, task.deadlineTick, tick)];
    }
    task := task.(pending := true, missRecorded := false, releaseTick := tick,
                  deadlineTick := (tick + task.config.deadline) % U64_SPAN,
                  releaseCount := Increment(task.releaseCount));
    releases := [Release(task.config.taskId, task.releaseTick, task.deadlineTick, task.releaseCount)];
  }
}
