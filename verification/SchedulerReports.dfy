/** What the scheduler hands out after any run, told from the configuration and the calls
    alone: the release and miss records of a tick, the result of a completion and the
    published statistics. */
module SchedulerReports {
  import opened Words
  import opened Arithmetic
  import opened Scheduler
  import opened SchedulerRuns

  // ---- Ticks ----

  /** Ticks taken so far. The scheduler counts from zero and takes only the next number. */
  function TicksTaken(ops: seq<Op>): nat
    decreases |ops|
  {
    if ops == [] then 0
    else
      var n := |ops| - 1;
      var before := TicksTaken(ops[..n]);
      if ops[n].Tick? && ops[n].tick == before then before + 1 else before
  }

  lemma {:induction false} TicksCount(configuration: seq<RateGroupConfig>, ops: seq<Op>)
    requires ConfigurationOk(configuration)
    ensures var s := Run(configuration, ops);
            (s.started <==> TicksTaken(ops) > 0) && (s.started ==> s.lastTick == TicksTaken(ops) - 1)
    decreases |ops|
  {
    if ops == [] {
    } else {
      var n := |ops| - 1;
      TicksCount(configuration, ops[..n]);
      Advances(Run(configuration, ops[..n]), ops[n]);
    }
  }

  lemma {:induction false} AcceptedIffNext(configuration: seq<RateGroupConfig>, ops: seq<Op>, tick: u64)
    requires ConfigurationOk(configuration)
    ensures TickAccepted(Run(configuration, ops), tick) <==> tick == TicksTaken(ops)
  {
    TicksCount(configuration, ops);
  }

  /** The conditions on a configuration, spelled out. */
  lemma {:induction false} ValidExactly(configuration: seq<RateGroupConfig>, ops: seq<Op>)
    ensures Run(configuration, ops).valid <==>
            |configuration| > 0 &&
            (forall i :: 0 <= i < |configuration| ==>
              var c := configuration[i];
              |c.name| > 0 && c.period > 0 && c.phase < c.period && 0 < c.deadline <= c.period) &&
            (forall i, j :: 0 <= i < |configuration| && 0 <= j < |configuration| && i != j ==>
              configuration[i].taskId != configuration[j].taskId)
  {
    if ConfigurationOk(configuration) {
      forall i, j | 0 <= i < |configuration| && 0 <= j < |configuration| && i != j
        ensures configuration[i].taskId != configuration[j].taskId
      {
        if i < j {
          assert configuration[i].taskId != configuration[j].taskId;
        } else {
          assert configuration[j].taskId != configuration[i].taskId;
        }
      }
    }
  }

  // ---- Releases ----

  predicate Falls(c: RateGroupConfig, tick: u64) {
    c.period > 0 && tick % c.period == c.phase
  }

  /** The record of a release at `tick`. */
  function ReleaseAt(c: RateGroupConfig, tick: u64): Release
    requires RateGroupOk(c) && Falls(c, tick)
  {
    DueIffResidue(c, tick);
    DivideBack(tick - c.phase, c.period);
    Release(c.taskId, tick, (tick + c.deadline) % U64_SPAN, ((tick - c.phase) / c.period + 1) % U64_SPAN)
  }

  /** The releases of a tick, in configuration order. */
  function ReleasesAt(configuration: seq<RateGroupConfig>, tick: u64): seq<Release>
    requires forall i :: 0 <= i < |configuration| ==> RateGroupOk(configuration[i])
  {
    if configuration == [] then []
    else
      var n := |configuration| - 1;
      ReleasesAt(configuration[..n], tick) +
      if Falls(configuration[n], tick) then [ReleaseAt(configuration[n], tick)] else []
  }

  lemma {:induction false} ReleaseRecord(t: TaskState, tick: u64)
    requires RateGroupOk(t.config)
    ensures TaskReleases(t, tick) ==
            if Due(t.config, tick)
            then [Release(t.config.taskId, tick, (tick + t.config.deadline) % U64_SPAN, Increment(t.releaseCount))]
            else []
  {
  }

  lemma {:induction false} TaskReleasesAre(configuration: seq<RateGroupConfig>, ops: seq<Op>, k: nat, tick: u64)
    requires ConfigurationOk(configuration) && k < |configuration|
    requires TickAccepted(Run(configuration, ops), tick)
    ensures TaskReleases(Run(configuration, ops).tasks[k], tick) ==
            if Falls(configuration[k], tick) then [ReleaseAt(configuration[k], tick)] else []
  {
    var s, c := Run(configuration, ops), configuration[k];
    DueIffResidue(c, tick);
    ReleaseRecord(s.tasks[k], tick);
    ReleaseCountClosedForm(configuration, ops, k);
    ReleasesNext(c, s.started, s.lastTick, tick, s.tasks[k].releaseCount);
  }

  lemma {:induction false} OneMoreTask(tasks: seq<TaskState>, tick: u64, k: nat)
    requires 0 < k <= |tasks| && forall i :: 0 <= i < |tasks| ==> RateGroupOk(tasks[i].config)
    ensures AllReleases(tasks[..k], tick) == AllReleases(tasks[..k - 1], tick) + TaskReleases(tasks[k - 1], tick)
  {
    assert tasks[..k][..k - 1] == tasks[..k - 1];
  }

  lemma {:induction false} AllReleasesAre(configuration: seq<RateGroupConfig>, ops: seq<Op>, tick: u64, k: nat)
    requires ConfigurationOk(configuration) && k <= |configuration|
    requires TickAccepted(Run(configuration, ops), tick)
    ensures AllReleases(Run(configuration, ops).tasks[..k], tick) == ReleasesAt(configuration[..k], tick)
    decreases k
  {
    if k == 0 {
    } else {
      AllReleasesAre(configuration, ops, tick, k - 1);
      TaskReleasesAre(configuration, ops, k - 1, tick);
      OneMoreTask(Run(configuration, ops).tasks, tick, k);
      assert configuration[..k][..k - 1] == configuration[..k - 1];
    }
  }

  // ---- Outstanding jobs ----

  /** Task `k` has been released and not completed since. */
  function Outstanding(configuration: seq<RateGroupConfig>, ops: seq<Op>, k: nat): bool
    requires k < |configuration|
    decreases |ops|
  {
    if ops == [] then false
    else
      var n := |ops| - 1;
      match ops[n]
      case Tick(tick) =>
        Outstanding(configuration, ops[..n], k) || (tick == TicksTaken(ops[..n]) && Falls(configuration[k], tick))
      case Complete(taskId, tick) =>
        taskId != configuration[k].taskId && Outstanding(configuration, ops[..n], k)
  }

  lemma {:induction false} PendingNext(configuration: seq<RateGroupConfig>, s: SchedulerState, op: Op, k: nat)
    requires ConfigurationOk(configuration) && k < |configuration| && s.valid && WellFormed(s)
    requires |s.tasks| == |configuration| && s.tasks[k].config == configuration[k]
    ensures k < |Apply(s, op).tasks|
    ensures Apply(s, op).tasks[k].pending ==
            match op
            case Tick(tick) => s.tasks[k].pending || (TickAccepted(s, tick) && Due(configuration[k], tick))
            case Complete(taskId, tick) => taskId != configuration[k].taskId && s.tasks[k].pending
  {
    UnfoldApply(s, op);
    match op
    case Tick(tick) =>
    case Complete(taskId, tick) =>
      if taskId == configuration[k].taskId {
        assert Find(s.tasks, taskId) == k;
      }
  }

  lemma {:induction false} PendingIffOutstanding(configuration: seq<RateGroupConfig>, ops: seq<Op>, k: nat)
    requires ConfigurationOk(configuration) && k < |configuration|
    ensures Run(configuration, ops).tasks[k].pending == Outstanding(configuration, ops, k)
    decreases |ops|
  {
    if ops == [] {
    } else {
      var n := |ops| - 1;
      PendingIffOutstanding(configuration, ops[..n], k);
      PendingNext(configuration, Run(configuration, ops[..n]), ops[n], k);
      if ops[n].Tick? {
        AcceptedIffNext(configuration, ops[..n], ops[n].tick);
        DueIffResidue(configuration[k], ops[n].tick);
      }
    }
  }

  /** The latest release tick of task `k`, zero before the first. */
  function JobOf(configuration: seq<RateGroupConfig>, ops: seq<Op>, k: nat): u64
    requires k < |configuration|
    decreases |ops|
  {
    if ops == [] then 0
    else
      var n := |ops| - 1;
      if ops[n].Tick? && ops[n].tick == TicksTaken(ops[..n]) && Falls(configuration[k], ops[n].tick)
      then ops[n].tick else JobOf(configuration, ops[..n], k)
  }

  lemma {:induction false} ReleaseTickNext(s: SchedulerState, op: Op, k: nat)
    requires WellFormed(s) && k < |s.tasks|
    ensures k < |Apply(s, op).tasks|
    ensures Apply(s, op).tasks[k].releaseTick ==
            if op.Tick? && TickAccepted(s, op.tick) && Due(s.tasks[k].config, op.tick)
            then op.tick else s.tasks[k].releaseTick
  {
    UnfoldApply(s, op);
  }

  lemma {:induction false} ReleaseTickIs(configuration: seq<RateGroupConfig>, ops: seq<Op>, k: nat)
    requires ConfigurationOk(configuration) && k < |configuration|
    ensures Run(configuration, ops).tasks[k].releaseTick == JobOf(configuration, ops, k)
    decreases |ops|
  {
    if ops == [] {
    } else {
      var n := |ops| - 1;
      ReleaseTickIs(configuration, ops[..n], k);
      ReleaseTickNext(Run(configuration, ops[..n]), ops[n], k);
      if ops[n].Tick? {
        AcceptedIffNext(configuration, ops[..n], ops[n].tick);
        DueIffResidue(configuration[k], ops[n].tick);
      }
    }
  }

  /** The pending job of a task, in every run: when it was released, when it is due, and
      whether its miss has been reported. */
  lemma {:induction false} JobIs(configuration: seq<RateGroupConfig>, ops: seq<Op>, k: nat)
    requires ConfigurationOk(configuration) && k < |configuration| && Outstanding(configuration, ops, k)
    ensures var t, job := Run(configuration, ops).tasks[k], JobOf(configuration, ops, k);
            t.pending && t.releaseTick == job && t.deadlineTick == (job + configuration[k].deadline) % U64_SPAN &&
            (t.missRecorded <==> TicksTaken(ops) - 1 > LastGoodTick(configuration[k], job))
  {
    PendingIffOutstanding(configuration, ops, k);
    ReleaseTickIs(configuration, ops, k);
    TicksCount(configuration, ops);
    RunIsTimed(configuration, ops, k);
  }

  // ---- Misses ----

  /** The outstanding job of task `k` is missed at `tick`. */
  predicate MissedAt(configuration: seq<RateGroupConfig>, ops: seq<Op>, k: nat, tick: u64)
    requires ConfigurationOk(configuration) && k < |configuration|
  {
    Outstanding(configuration, ops, k) &&
    tick == TicksTaken(ops) == MissTick(configuration[k], JobOf(configuration, ops, k))
  }

  function MissAt(configuration: seq<RateGroupConfig>, ops: seq<Op>, k: nat, tick: u64): DeadlineMiss
    requires ConfigurationOk(configuration) && k < |configuration| && MissedAt(configuration, ops, k, tick)
  {
    var c, job := configuration[k], JobOf(configuration, ops, k);
    DeadlineMiss(c.taskId, job, (job + c.deadline) % U64_SPAN, tick)
  }

  function MissRecords(configuration: seq<RateGroupConfig>, ops: seq<Op>, k: nat, tick: u64): seq<DeadlineMiss>
    requires ConfigurationOk(configuration) && k < |configuration|
  {
    if MissedAt(configuration, ops, k, tick) then [MissAt(configuration, ops, k, tick)] else []
  }

  function Flatten<T>(parts: seq<seq<T>>): seq<T> {
    if parts == [] then [] else Flatten(parts[..|parts| - 1]) + parts[|parts| - 1]
  }

  /** The misses reported at a tick, in configuration order. */
  function MissesAt(configuration: seq<RateGroupConfig>, ops: seq<Op>, tick: u64): seq<DeadlineMiss>
    requires ConfigurationOk(configuration)
  {
    var n := |configuration|;
    Flatten(seq(n, k requires 0 <= k < n => MissRecords(configuration, ops, k, tick)))
  }

  lemma {:induction false} MissesFlattened(tasks: seq<TaskState>, tick: u64, parts: seq<seq<DeadlineMiss>>)
    requires |parts| == |tasks| && forall i :: 0 <= i < |tasks| ==> RateGroupOk(tasks[i].config)
    requires forall i :: 0 <= i < |tasks| ==> TaskMisses(tasks[i], tick) == parts[i]
    ensures AllMisses(tasks, tick) == Flatten(parts)
    decreases |tasks|
  {
    if tasks == [] {
    } else {
      var n := |tasks| - 1;
      MissesFlattened(tasks[..n], tick, parts[..n]);
    }
  }

  lemma {:induction false} TaskMissesAre(configuration: seq<RateGroupConfig>, ops: seq<Op>, k: nat, tick: u64)
    requires ConfigurationOk(configuration) && k < |configuration|
    requires TickAccepted(Run(configuration, ops), tick)
    ensures TaskMisses(Run(configuration, ops).tasks[k], tick) == MissRecords(configuration, ops, k, tick)
  {
    AcceptedIffNext(configuration, ops, tick);
    PendingIffOutstanding(configuration, ops, k);
    MissReportedExactly(configuration, ops, k, tick);
    if Outstanding(configuration, ops, k) {
      JobIs(configuration, ops, k);
    }
  }

  lemma {:induction false} AllMissesAre(configuration: seq<RateGroupConfig>, ops: seq<Op>, tick: u64)
    requires ConfigurationOk(configuration) && TickAccepted(Run(configuration, ops), tick)
    ensures AllMisses(Run(configuration, ops).tasks, tick) == MissesAt(configuration, ops, tick)
  {
    var n, tasks := |configuration|, Run(configuration, ops).tasks;
    var parts := seq(n, k requires 0 <= k < n => MissRecords(configuration, ops, k, tick));
    forall k | 0 <= k < n
      ensures TaskMisses(tasks[k], tick) == parts[k]
    {
      TaskMissesAre(configuration, ops, k, tick);
    }
    MissesFlattened(tasks, tick, parts);
  }

  // ---- The answers of the scheduler ----

  /** Whatever was called before, a step answers with exactly the releases that fall on the
      tick and the misses of the jobs left too long, and refuses every tick but the next. */
  lemma {:induction false} StepAnswers(configuration: seq<RateGroupConfig>, ops: seq<Op>, tick: u64)
    ensures TickResult(Run(configuration, ops), tick) ==
            if !ConfigurationOk(configuration) then StepResult(InvalidConfiguration, tick, [], [])
            else if tick != TicksTaken(ops) then StepResult(TickDiscontinuity, tick, [], [])
            else StepResult(Ok, tick, ReleasesAt(configuration, tick), MissesAt(configuration, ops, tick))
  {
    if ConfigurationOk(configuration) {
      AcceptedIffNext(configuration, ops, tick);
      if tick == TicksTaken(ops) {
        var n, tasks := |configuration|, Run(configuration, ops).tasks;
        AllReleasesAre(configuration, ops, tick, n);
        AllMissesAre(configuration, ops, tick);
        assert tasks[..n] == tasks && configuration[..n] == configuration;
      }
    }
  }

  predicate InTime(c: RateGroupConfig, job: u64, taken: nat, tick: u64) {
    job <= tick <= (job + c.deadline) % U64_SPAN && taken - 1 <= LastGoodTick(c, job)
  }

  lemma {:induction false} CompletionOfTask(s: SchedulerState, k: nat, tick: u64)
    requires s.valid && WellFormed(s) && k < |s.tasks|
    ensures var t := s.tasks[k];
            CompletionOf(s, t.config.taskId, tick) ==
            if !t.pending then CompletionResult(NotPending, t.config.taskId, 0, 0, tick)
            else CompletionResult(if OnTime(t, tick) then CompletedOnTime else CompletedLate,
                                  t.config.taskId, t.releaseTick, t.deadlineTick, tick)
  {
    assert Find(s.tasks, s.tasks[k].config.taskId) == k;
  }

  lemma {:induction false} JobCompleted(s: SchedulerState, k: nat, job: u64, taken: nat, tick: u64)
    requires s.valid && WellFormed(s) && k < |s.tasks|
    requires var t := s.tasks[k];
             t.pending && t.releaseTick == job && t.deadlineTick == (job + t.config.deadline) % U64_SPAN &&
             (t.missRecorded <==> taken - 1 > LastGoodTick(t.config, job))
    ensures var c := s.tasks[k].config;
            CompletionOf(s, c.taskId, tick) == CompletionAt(c, job, taken, tick)
  {
    CompletionOfTask(s, k, tick);
  }

  /** The answer to a completion at `tick` of a job, after `taken` ticks. */
  function CompletionAt(c: RateGroupConfig, job: u64, taken: nat, tick: u64): CompletionResult {
    CompletionResult(if InTime(c, job, taken, tick) then CompletedOnTime else CompletedLate,
                     c.taskId, job, (job + c.deadline) % U64_SPAN, tick)
  }

  /** A completion of an outstanding job answers for that job. */
  lemma {:induction false} CompletionAnswers(configuration: seq<RateGroupConfig>, ops: seq<Op>, k: nat, tick: u64)
    requires ConfigurationOk(configuration) && k < |configuration| && Outstanding(configuration, ops, k)
    ensures CompletionOf(Run(configuration, ops), configuration[k].taskId, tick) ==
            CompletionAt(configuration[k], JobOf(configuration, ops, k), TicksTaken(ops), tick)
  {
    JobIs(configuration, ops, k);
    JobCompleted(Run(configuration, ops), k, JobOf(configuration, ops, k), TicksTaken(ops), tick);
  }

  /** Without an outstanding job there is nothing to complete. */
  lemma {:induction false} IdleCompletionRefused(configuration: seq<RateGroupConfig>, ops: seq<Op>, k: nat, tick: u64)
    requires ConfigurationOk(configuration) && k < |configuration| && !Outstanding(configuration, ops, k)
    ensures var taskId := configuration[k].taskId;
            CompletionOf(Run(configuration, ops), taskId, tick) == CompletionResult(NotPending, taskId, 0, 0, tick) &&
            Apply(Run(configuration, ops), Complete(taskId, tick)) == Run(configuration, ops)
  {
    PendingIffOutstanding(configuration, ops, k);
    CompletionOfTask(Run(configuration, ops), k, tick);
    UnfoldApply(Run(configuration, ops), Complete(configuration[k].taskId, tick));
    assert Find(Run(configuration, ops).tasks, configuration[k].taskId) == k;
  }

  lemma {:induction false} OtherCompletionsRefused(
    configuration: seq<RateGroupConfig>, ops: seq<Op>, taskId: u16, tick: u64)
    requires forall k :: 0 <= k < |configuration| ==> configuration[k].taskId != taskId
    ensures CompletionOf(Run(configuration, ops), taskId, tick) ==
            CompletionResult(if ConfigurationOk(configuration) then UnknownTask else SchedulerInvalid,
                             taskId, 0, 0, tick)
    ensures Apply(Run(configuration, ops), Complete(taskId, tick)) == Run(configuration, ops)
  {
    UnfoldApply(Run(configuration, ops), Complete(taskId, tick));
  }

  // ---- Statistics ----

  /** Jobs of task `k` completed so far. */
  function Completions(configuration: seq<RateGroupConfig>, ops: seq<Op>, k: nat): nat
    requires k < |configuration|
    decreases |ops|
  {
    if ops == [] then 0
    else
      var n := |ops| - 1;
      Completions(configuration, ops[..n], k) +
      Flag(ops[n].Complete? && ops[n].taskId == configuration[k].taskId && Outstanding(configuration, ops[..n], k))
  }

  /** The last call is the first sign that the outstanding job of task `k` is missed: a tick
      that reports it, or a completion that is not in time and was not announced. */
  predicate FirstSign(configuration: seq<RateGroupConfig>, ops: seq<Op>, op: Op, k: nat)
    requires ConfigurationOk(configuration) && k < |configuration|
  {
    match op
    case Tick(tick) => MissedAt(configuration, ops, k, tick)
    case Complete(taskId, tick) =>
      taskId == configuration[k].taskId && Outstanding(configuration, ops, k) &&
      var c, job := configuration[k], JobOf(configuration, ops, k);
      TicksTaken(ops) - 1 <= LastGoodTick(c, job) && !InTime(c, job, TicksTaken(ops), tick)
  }

  /** Jobs of task `k` missed so far. */
  function MissedJobs(configuration: seq<RateGroupConfig>, ops: seq<Op>, k: nat): nat
    requires ConfigurationOk(configuration) && k < |configuration|
    decreases |ops|
  {
    if ops == [] then 0
    else
      var n := |ops| - 1;
      MissedJobs(configuration, ops[..n], k) + Flag(FirstSign(configuration, ops[..n], ops[n], k))
  }

  lemma {:induction false} CompletionCountNext(s: SchedulerState, op: Op, k: nat)
    requires WellFormed(s) && k < |s.tasks| && s.valid
    ensures k < |Apply(s, op).tasks|
    ensures Apply(s, op).tasks[k].completionCount ==
            if op.Complete? && op.taskId == s.tasks[k].config.taskId && s.tasks[k].pending
            then Increment(s.tasks[k].completionCount) else s.tasks[k].completionCount
  {
    UnfoldApply(s, op);
    if op.Complete? && op.taskId == s.tasks[k].config.taskId {
      assert Find(s.tasks, op.taskId) == k;
    }
  }

  lemma {:induction false} CompletionsCounted(configuration: seq<RateGroupConfig>, ops: seq<Op>, k: nat)
    requires ConfigurationOk(configuration) && k < |configuration|
    ensures Run(configuration, ops).tasks[k].completionCount == Completions(configuration, ops, k) % U64_SPAN
    decreases |ops|
  {
    if ops == [] {
    } else {
      var n := |ops| - 1;
      var s := Run(configuration, ops[..n]);
      CompletionsCounted(configuration, ops[..n], k);
      CompletionCountNext(s, ops[n], k);
      PendingIffOutstanding(configuration, ops[..n], k);
      IncrementCounts(s.tasks[k].completionCount, Completions(configuration, ops[..n], k));
    }
  }

  lemma {:induction false} MissCountNext(s: SchedulerState, op: Op, k: nat)
    requires WellFormed(s) && k < |s.tasks| && s.valid
    ensures k < |Apply(s, op).tasks|
    ensures var t := s.tasks[k];
            var missed :=
              match op
              case Tick(tick) => TickAccepted(s, tick) && TaskMisses(t, tick) != []
              case Complete(taskId, tick) =>
                taskId == t.config.taskId && t.pending && !t.missRecorded && !OnTime(t, tick);
            Apply(s, op).tasks[k].missCount == if missed then Increment(t.missCount) else t.missCount
  {
    UnfoldApply(s, op);
    if op.Complete? && op.taskId == s.tasks[k].config.taskId {
      assert Find(s.tasks, op.taskId) == k;
    }
  }

  lemma {:induction false} FirstSignIs(configuration: seq<RateGroupConfig>, ops: seq<Op>, op: Op, k: nat)
    requires ConfigurationOk(configuration) && k < |configuration|
    ensures var s := Run(configuration, ops);
            var t := s.tasks[k];
            FirstSign(configuration, ops, op, k) <==>
            match op
            case Tick(tick) => TickAccepted(s, tick) && TaskMisses(t, tick) != []
            case Complete(taskId, tick) =>
              taskId == t.config.taskId && t.pending && !t.missRecorded && !OnTime(t, tick)
  {
    PendingIffOutstanding(configuration, ops, k);
    if Outstanding(configuration, ops, k) {
      JobIs(configuration, ops, k);
    }
    if op.Tick? {
      AcceptedIffNext(configuration, ops, op.tick);
      if TickAccepted(Run(configuration, ops), op.tick) {
        TaskMissesAre(configuration, ops, k, op.tick);
      }
    }
  }

  lemma {:induction false} MissesNext(configuration: seq<RateGroupConfig>, ops: seq<Op>, op: Op, k: nat, count: nat)
    requires ConfigurationOk(configuration) && k < |configuration|
    requires Run(configuration, ops).tasks[k].missCount == count % U64_SPAN
    ensures k < |Apply(Run(configuration, ops), op).tasks|
    ensures Apply(Run(configuration, ops), op).tasks[k].missCount ==
            (count + Flag(FirstSign(configuration, ops, op, k))) % U64_SPAN
  {
    MissCountNext(Run(configuration, ops), op, k);
    FirstSignIs(configuration, ops, op, k);
    IncrementCounts(Run(configuration, ops).tasks[k].missCount, count);
  }

  lemma {:induction false} MissesCounted(configuration: seq<RateGroupConfig>, ops: seq<Op>, k: nat)
    requires ConfigurationOk(configuration) && k < |configuration|
    ensures Run(configuration, ops).tasks[k].missCount == MissedJobs(configuration, ops, k) % U64_SPAN
    decreases |ops|
  {
    if ops == [] {
    } else {
      var n := |ops| - 1;
      MissesCounted(configuration, ops[..n], k);
      MissesNext(configuration, ops[..n], ops[n], k, MissedJobs(configuration, ops[..n], k));
    }
  }

  lemma {:induction false} ReleasesTell(configuration: seq<RateGroupConfig>, ops: seq<Op>, k: nat)
    requires ConfigurationOk(configuration) && k < |configuration|
    ensures var taken := TicksTaken(ops);
            taken <= U64_SPAN &&
            Run(configuration, ops).tasks[k].releaseCount ==
            (if taken == 0 then 0 else ReleasesUpTo(configuration[k], taken - 1)) % U64_SPAN
  {
    TicksCount(configuration, ops);
    ReleaseCountClosedForm(configuration, ops, k);
  }

  /** The statistics published for task `k` after any run. */
  lemma {:induction false} StatisticsTell(configuration: seq<RateGroupConfig>, ops: seq<Op>, k: nat)
    requires ConfigurationOk(configuration) && k < |configuration|
    ensures var c, taken := configuration[k], TicksTaken(ops);
            taken <= U64_SPAN &&
            StatisticsOf(Run(configuration, ops).tasks[k]) ==
            Statistics(c.taskId,
                       (if taken == 0 then 0 else ReleasesUpTo(c, taken - 1)) % U64_SPAN,
                       Completions(configuration, ops, k) % U64_SPAN,
                       MissedJobs(configuration, ops, k) % U64_SPAN,
                       Outstanding(configuration, ops, k))
  {
    ReleasesTell(configuration, ops, k);
    CompletionsCounted(configuration, ops, k);
    MissesCounted(configuration, ops, k);
    PendingIffOutstanding(configuration, ops, k);
  }
}
