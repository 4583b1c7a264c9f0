/** What holds of the scheduler over every run: any interleaving of ticks, accepted or
    rejected, and completions, accepted or rejected. */
module SchedulerRuns {
  import opened Words
  import opened Arithmetic
  import opened Scheduler

  datatype Op = Tick(tick: u64) | Complete(taskId: u16, tick: u64)

  /** The state after one call, kept folded as `Bits.Xor` is. */
  ghost function Apply(s: SchedulerState, op: Op): SchedulerState
    requires WellFormed(s)
  {
    DelayedApply(s, op, 2)
  }

  ghost function DelayedApply(s: SchedulerState, op: Op, delay: nat): SchedulerState
    requires WellFormed(s)
    decreases s, delay
  {
    if delay > 0 then DelayedApply(s, op, delay - 1)
    else
      match op
      case Tick(tick) => AfterTick(s, tick)
      case Complete(taskId, tick) => AfterCompletion(s, taskId, tick)
  }

  lemma {:induction false} UnfoldApply(s: SchedulerState, op: Op)
    requires WellFormed(s)
    ensures Apply(s, op) ==
            match op
            case Tick(tick) => AfterTick(s, tick)
            case Complete(taskId, tick) => AfterCompletion(s, taskId, tick)
  {
    assert DelayedApply(s, op, 2) == DelayedApply(s, op, 1) == DelayedApply(s, op, 0);
  }

  lemma {:induction false} ApplyKeepsShape(s: SchedulerState, op: Op)
    requires WellFormed(s)
    ensures var t := Apply(s, op);
            WellFormed(t) && t.valid == s.valid && |t.tasks| == |s.tasks| &&
            forall k :: 0 <= k < |s.tasks| ==> t.tasks[k].config == s.tasks[k].config
  {
    UnfoldApply(s, op);
    match op
    case Tick(tick) => AfterTickWellFormed(s, tick);
    case Complete(taskId, tick) =>
  }

  ghost function Run(configuration: seq<RateGroupConfig>, ops: seq<Op>): (s: SchedulerState)
    ensures WellFormed(s) && (s.valid <==> ConfigurationOk(configuration))
    ensures s.valid ==> |s.tasks| == |configuration| &&
                        forall k :: 0 <= k < |s.tasks| ==> s.tasks[k].config == configuration[k]
    decreases |ops|
  {
    if ops == [] then Initial(configuration)
    else
      var before := Run(configuration, ops[..|ops| - 1]);
      ApplyKeepsShape(before, ops[|ops| - 1]);
      Apply(before, ops[|ops| - 1])
  }

  /** Only an accepted tick moves the clock. */
  lemma {:induction false} Advances(s: SchedulerState, op: Op)
    requires WellFormed(s)
    ensures var moved := op.Tick? && TickAccepted(s, op.tick);
            Apply(s, op).started == (s.started || moved) &&
            Apply(s, op).lastTick == if moved then op.tick else s.lastTick
  {
    UnfoldApply(s, op);
  }

  // ---- Job conservation ----

  /** What happened to the jobs of one task so far. */
  datatype Tally = Tally(
    released: nat,      // releases handed to the caller
    onTime: nat,        // completions reported on time
    lateReported: nat,  // late completions whose miss was reported at an earlier tick
    lateSilent: nat,    // late completions that were the first sign of the miss
    overrun: nat,       // jobs replaced by the next release before they completed
    reported: nat)      // deadline misses handed to the caller

  ghost function Count(y: Tally, s: SchedulerState, op: Op, k: nat): Tally
    requires WellFormed(s) && k < |s.tasks|
  {
    var t := s.tasks[k];
    match op
    case Tick(tick) =>
      if !TickAccepted(s, tick) then y
      else y.(released := y.released + |TaskReleases(t, tick)|,
              reported := y.reported + |TaskMisses(t, tick)|,
              overrun := y.overrun + if t.pending && Due(t.config, tick) then 1 else 0)
    case Complete(taskId, tick) =>
      if taskId != t.config.taskId then y
      else
        match CompletionOf(s, taskId, tick).status
        case CompletedOnTime => y.(onTime := y.onTime + 1)
        case CompletedLate =>
          if t.missRecorded then y.(lateReported := y.lateReported + 1) else y.(lateSilent := y.lateSilent + 1)
        case _ => y
  }

  ghost function TallyOf(configuration: seq<RateGroupConfig>, ops: seq<Op>, k: nat): Tally
    requires ConfigurationOk(configuration) && k < |configuration|
    decreases |ops|
  {
    if ops == [] then Tally(0, 0, 0, 0, 0, 0)
    else
      var n := |ops| - 1;
      Count(TallyOf(configuration, ops[..n], k), Run(configuration, ops[..n]), ops[n], k)
  }

  function Flag(b: bool): nat {
    if b then 1 else 0
  }

  ghost predicate Conserved(t: TaskState, y: Tally) {
    y.released == y.onTime + y.lateReported + y.lateSilent + y.overrun + Flag(t.pending) &&
    y.reported == y.lateReported + y.overrun + Flag(t.pending && t.missRecorded) &&
    t.releaseCount == y.released % U64_SPAN &&
    t.completionCount == (y.onTime + y.lateReported + y.lateSilent) % U64_SPAN &&
    t.missCount == (y.reported + y.lateSilent) % U64_SPAN &&
    (t.missRecorded ==> t.pending)
  }

  lemma {:induction false} TickConserves(t: TaskState, y: Tally, tick: u64)
    requires RateGroupOk(t.config) && Conserved(t, y)
    ensures Conserved(TaskAfter(t, tick),
                      y.(released := y.released + |TaskReleases(t, tick)|,
                         reported := y.reported + |TaskMisses(t, tick)|,
                         overrun := y.overrun + if t.pending && Due(t.config, tick) then 1 else 0))
  {
    IncrementCounts(t.releaseCount, y.released);
    IncrementCounts(t.missCount, y.reported + y.lateSilent);
    var due := Due(t.config, tick);
    if Overdue(t, tick) {
      assert TaskAfter(t, tick) == if due then ReleaseJob(NoteMiss(t), tick) else NoteMiss(t);
    } else if Overrun(t, tick) {
      assert TaskAfter(t, tick) == ReleaseJob(NoteMiss(t), tick);
    } else {
      assert TaskAfter(t, tick) == if due then ReleaseJob(t, tick) else t;
    }
  }

  lemma {:induction false} CompletionConserves(t: TaskState, y: Tally, tick: u64)
    requires t.pending && Conserved(t, y)
    ensures OnTime(t, tick) ==> Conserved(TaskCompleted(t, tick), y.(onTime := y.onTime + 1))
    ensures !OnTime(t, tick) && t.missRecorded ==>
              Conserved(TaskCompleted(t, tick), y.(lateReported := y.lateReported + 1))
    ensures !OnTime(t, tick) && !t.missRecorded ==>
              Conserved(TaskCompleted(t, tick), y.(lateSilent := y.lateSilent + 1))
  {
    IncrementCounts(t.completionCount, y.onTime + y.lateReported + y.lateSilent);
    IncrementCounts(t.missCount, y.reported + y.lateSilent);
  }

  lemma {:induction false} CountConserves(y: Tally, s: SchedulerState, op: Op, k: nat)
    requires WellFormed(s) && k < |s.tasks| && Conserved(s.tasks[k], y)
    ensures k < |Apply(s, op).tasks| && Conserved(Apply(s, op).tasks[k], Count(y, s, op, k))
  {
    UnfoldApply(s, op);
    match op
    case Tick(tick) =>
      if TickAccepted(s, tick) {
        TickConserves(s.tasks[k], y, tick);
        assert Apply(s, op).tasks[k] == TaskAfter(s.tasks[k], tick);
      }
    case Complete(taskId, tick) =>
      CompletionCounted(y, s, taskId, tick, k);
  }

  lemma {:induction false} CompletionCounted(y: Tally, s: SchedulerState, taskId: u16, tick: u64, k: nat)
    requires WellFormed(s) && k < |s.tasks| && Conserved(s.tasks[k], y)
    ensures k < |AfterCompletion(s, taskId, tick).tasks|
    ensures Conserved(AfterCompletion(s, taskId, tick).tasks[k], Count(y, s, Complete(taskId, tick), k))
  {
    var found := Find(s.tasks, taskId);
    if taskId == s.tasks[k].config.taskId {
      assert found == k;
      if s.valid && s.tasks[k].pending {
        CompletionConserves(s.tasks[k], y, tick);
      }
    }
  }

  /** No job is lost and none is missed twice: every release is completed on time, completed
      late, overrun or still pending, and the counters the scheduler publishes say so. */
  lemma {:induction false} JobsConserved(configuration: seq<RateGroupConfig>, ops: seq<Op>, k: nat)
    requires ConfigurationOk(configuration) && k < |configuration|
    ensures Conserved(Run(configuration, ops).tasks[k], TallyOf(configuration, ops, k))
    decreases |ops|
  {
    if ops == [] {
    } else {
      var n := |ops| - 1;
      JobsConserved(configuration, ops[..n], k);
      CountConserves(TallyOf(configuration, ops[..n], k), Run(configuration, ops[..n]), ops[n], k);
    }
  }

  // ---- When a task is due ----

  lemma {:induction false} DueIffResidue(c: RateGroupConfig, tick: u64)
    requires RateGroupOk(c)
    ensures Due(c, tick) <==> tick % c.period == c.phase
  {
    DivideBack(tick, c.period);
    var q, r := tick / c.period, tick % c.period;
    if tick >= c.phase {
      if r >= c.phase {
        DivisionIs(tick - c.phase, c.period, q, r - c.phase);
      } else {
        assert q > 0;
        assert c.period * (q - 1) == c.period * q - c.period;
        DivisionIs(tick - c.phase, c.period, q - 1, c.period + r - c.phase);
      }
    } else {
      SmallQuotient(tick, c.period);
    }
  }

  /** The set of due tasks repeats with every common multiple of the periods. */
  lemma {:induction false} ReleasesRepeat(configuration: seq<RateGroupConfig>, tick: u64, horizon: nat, k: nat)
    requires ConfigurationOk(configuration) && k < |configuration| && tick + horizon < U64_SPAN
    requires forall i :: 0 <= i < |configuration| ==>
               configuration[i].period != 0 && horizon % configuration[i].period == 0
    ensures Due(configuration[k], tick + horizon) <==> Due(configuration[k], tick)
  {
    var c := configuration[k];
    DivideBack(horizon, c.period);
    AddMultiple(tick, c.period, horizon / c.period);
    DueIffResidue(c, tick);
    DueIffResidue(c, tick + horizon);
  }

  /** Number of release ticks of a task up to and including `last`. */
  function ReleasesUpTo(c: RateGroupConfig, last: u64): nat
    requires RateGroupOk(c)
  {
    if last < c.phase then 0 else
      DivideBack(last - c.phase, c.period);
      (last - c.phase) / c.period + 1
  }

  lemma {:induction false} ReleasesUpToNext(c: RateGroupConfig, last: u64)
    requires RateGroupOk(c) && last < U64_MAX
    ensures ReleasesUpTo(c, last + 1) == ReleasesUpTo(c, last) + Flag(Due(c, last + 1))
  {
    if last + 1 > c.phase {
      DivideSuccessor(last - c.phase, c.period);
    } else if last + 1 == c.phase {
      SmallQuotient(0, c.period);
    }
  }

  lemma {:induction false} ReleasesUpToZero(c: RateGroupConfig)
    requires RateGroupOk(c)
    ensures ReleasesUpTo(c, 0) == Flag(Due(c, 0))
  {
    if c.phase == 0 {
      SmallQuotient(0, c.period);
    }
  }

  lemma {:induction false} ReleaseCounted(s: SchedulerState, op: Op, k: nat)
    requires WellFormed(s) && k < |s.tasks|
    ensures k < |Apply(s, op).tasks|
    ensures Apply(s, op).tasks[k].releaseCount ==
            if op.Tick? && TickAccepted(s, op.tick) && Due(s.tasks[k].config, op.tick)
            then Increment(s.tasks[k].releaseCount) else s.tasks[k].releaseCount
  {
    UnfoldApply(s, op);
  }

  /** Releases up to the last accepted tick, none before the first. */
  function ReleasesSoFar(c: RateGroupConfig, started: bool, last: u64): nat
    requires RateGroupOk(c)
  {
    if started then ReleasesUpTo(c, last) else 0
  }

  lemma {:induction false} ReleasesNext(c: RateGroupConfig, started: bool, last: u64, tick: u64, counter: u64)
    requires RateGroupOk(c) && counter == ReleasesSoFar(c, started, last) % U64_SPAN
    requires if started then last < U64_MAX && tick == last + 1 else tick == 0
    ensures (if Due(c, tick) then Increment(counter) else counter) == ReleasesUpTo(c, tick) % U64_SPAN
  {
    IncrementCounts(counter, ReleasesSoFar(c, started, last));
    if started {
      ReleasesUpToNext(c, last);
    } else {
      ReleasesUpToZero(c);
    }
  }

  /** The release counter depends on the last accepted tick alone. */
  lemma {:induction false} ReleaseCountClosedForm(configuration: seq<RateGroupConfig>, ops: seq<Op>, k: nat)
    requires ConfigurationOk(configuration) && k < |configuration|
    ensures var s := Run(configuration, ops);
            s.tasks[k].releaseCount == ReleasesSoFar(configuration[k], s.started, s.lastTick) % U64_SPAN
    decreases |ops|
  {
    if ops == [] {
    } else {
      var n := |ops| - 1;
      var s := Run(configuration, ops[..n]);
      ReleaseCountClosedForm(configuration, ops[..n], k);
      ReleaseCounted(s, ops[n], k);
      Advances(s, ops[n]);
      if ops[n].Tick? && TickAccepted(s, ops[n].tick) {
        ReleasesNext(configuration[k], s.started, s.lastTick, ops[n].tick, s.tasks[k].releaseCount);
      }
    }
  }

  // ---- When a miss is reported ----

  /** The last tick at which a pending job is not yet missed: its deadline, or the release
      tick itself when the deadline lies past the last tick and wraps. */
  function LastGoodTick(c: RateGroupConfig, release: u64): nat {
    if release + c.deadline < U64_SPAN then release + c.deadline else release
  }

  /** A pending job belongs to the latest due tick, and its miss is on record exactly when
      its last good tick has passed. */
  ghost predicate Timed(t: TaskState, started: bool, last: u64)
    requires RateGroupOk(t.config)
  {
    t.pending ==>
      started && t.releaseTick <= last < t.releaseTick + t.config.period && Due(t.config, t.releaseTick) &&
      t.deadlineTick == (t.releaseTick + t.config.deadline) % U64_SPAN &&
      (t.missRecorded <==> last > LastGoodTick(t.config, t.releaseTick))
  }

  lemma {:induction false} NextDue(c: RateGroupConfig, release: u64, tick: u64)
    requires RateGroupOk(c) && Due(c, release) && release < tick <= release + c.period
    ensures Due(c, tick) <==> tick == release + c.period
  {
    var x, d := release - c.phase, tick - release;
    DivideBack(x, c.period);
    if d == c.period {
      AddMultiple(x, c.period, 1);
    } else {
      DivisionIs(x + d, c.period, x / c.period, d);
    }
  }

  lemma {:induction false} OverdueExactly(t: TaskState, last: u64, tick: u64)
    requires t.pending && t.releaseTick <= last && tick == last + 1
    requires t.deadlineTick == (t.releaseTick + t.config.deadline) % U64_SPAN
    requires t.missRecorded <==> last > LastGoodTick(t.config, t.releaseTick)
    ensures Overdue(t, tick) <==> tick == LastGoodTick(t.config, t.releaseTick) + 1
  {
    if t.releaseTick + t.config.deadline >= U64_SPAN {
      assert t.deadlineTick == t.releaseTick + t.config.deadline - U64_SPAN;
    }
  }

  lemma {:induction false} ReleasedIsTimed(t: TaskState, tick: u64)
    requires RateGroupOk(t.config) && Due(t.config, tick)
    ensures Timed(TaskAfter(t, tick), true, tick)
  {
  }

  lemma {:induction false} TickKeepsTimed(t: TaskState, started: bool, last: u64, tick: u64)
    requires RateGroupOk(t.config)
    requires Timed(t, started, last) && (if started then tick == last + 1 else tick == 0)
    ensures Timed(TaskAfter(t, tick), true, tick)
  {
    if Due(t.config, tick) {
      ReleasedIsTimed(t, tick);
    } else if t.pending {
      NextDue(t.config, t.releaseTick, tick);
      OverdueExactly(t, last, tick);
      assert TaskAfter(t, tick) == if Overdue(t, tick) then NoteMiss(t) else t;
    }
  }

  lemma {:induction false} ApplyKeepsTimed(s: SchedulerState, op: Op, k: nat)
    requires WellFormed(s) && k < |s.tasks| && Timed(s.tasks[k], s.started, s.lastTick)
    ensures var t := Apply(s, op);
            k < |t.tasks| && t.tasks[k].config == s.tasks[k].config && Timed(t.tasks[k], t.started, t.lastTick)
  {
    UnfoldApply(s, op);
    if op.Tick? && TickAccepted(s, op.tick) {
      TickKeepsTimed(s.tasks[k], s.started, s.lastTick, op.tick);
    }
  }

  /** Every pending job is timed, in every run and up to the last tick. */
  lemma {:induction false} RunIsTimed(configuration: seq<RateGroupConfig>, ops: seq<Op>, k: nat)
    requires ConfigurationOk(configuration) && k < |configuration|
    ensures var s := Run(configuration, ops); Timed(s.tasks[k], s.started, s.lastTick)
    decreases |ops|
  {
    if ops == [] {
    } else {
      var n := |ops| - 1;
      RunIsTimed(configuration, ops[..n], k);
      ApplyKeepsTimed(Run(configuration, ops[..n]), ops[n], k);
    }
  }

  /** The tick at which the job released at `release` is missed if it is still pending. */
  function MissTick(c: RateGroupConfig, release: u64): nat {
    var late := LastGoodTick(c, release) + 1;
    if late < release + c.period then late else release + c.period
  }

  lemma {:induction false} TimedMiss(t: TaskState, last: u64, tick: u64)
    requires RateGroupOk(t.config) && Timed(t, true, last) && tick == last + 1
    ensures TaskMisses(t, tick) ==
            if t.pending && tick == MissTick(t.config, t.releaseTick)
            then [DeadlineMiss(t.config.taskId, t.releaseTick, (t.releaseTick + t.config.deadline) % U64_SPAN, tick)]
            else []
    ensures Overrun(t, tick) ==> t.config.deadline == t.config.period
  {
    if t.pending {
      NextDue(t.config, t.releaseTick, tick);
      OverdueExactly(t, last, tick);
    }
  }

  /** After any run, an accepted tick reports a task's job as missed exactly when the job is
      pending and the tick is the one after its last good tick, or its next release if that
      comes first. The report at the next release needs a deadline equal to the period. */
  lemma {:induction false} MissReportedExactly(configuration: seq<RateGroupConfig>, ops: seq<Op>, k: nat, tick: u64)
    requires ConfigurationOk(configuration) && k < |configuration|
    requires TickAccepted(Run(configuration, ops), tick)
    ensures var t := Run(configuration, ops).tasks[k];
            TaskMisses(t, tick) ==
            if t.pending && tick == MissTick(t.config, t.releaseTick)
            then [DeadlineMiss(t.config.taskId, t.releaseTick, (t.releaseTick + t.config.deadline) % U64_SPAN, tick)]
            else []
    ensures Overrun(Run(configuration, ops).tasks[k], tick) ==>
              configuration[k].deadline == configuration[k].period
  {
    var s := Run(configuration, ops);
    RunIsTimed(configuration, ops, k);
    if s.started {
      TimedMiss(s.tasks[k], s.lastTick, tick);
    }
  }

  lemma {:induction false} RunNext(configuration: seq<RateGroupConfig>, ops: seq<Op>, j: nat)
    requires j < |ops|
    ensures Run(configuration, ops[..j + 1]) == Apply(Run(configuration, ops[..j]), ops[j])
  {
    assert ops[..j + 1][..j] == ops[..j];
  }

  lemma {:induction false} LastTickGrows(configuration: seq<RateGroupConfig>, ops: seq<Op>, j: nat)
    requires j < |ops|
    ensures var s, t := Run(configuration, ops[..j]), Run(configuration, ops[..j + 1]);
            (s.started ==> t.started && t.lastTick >= s.lastTick) &&
            (ops[j].Tick? && TickAccepted(s, ops[j].tick) ==> t.started && t.lastTick == ops[j].tick)
  {
    RunNext(configuration, ops, j);
    Advances(Run(configuration, ops[..j]), ops[j]);
  }

  lemma {:induction false} LaterTicksAreLarger(configuration: seq<RateGroupConfig>, ops: seq<Op>, i: nat, j: nat)
    requires i <= j <= |ops| && Run(configuration, ops[..i]).started
    ensures Run(configuration, ops[..j]).started
    ensures Run(configuration, ops[..j]).lastTick >= Run(configuration, ops[..i]).lastTick
    decreases j - i
  {
    if i == j {
    } else {
      LastTickGrows(configuration, ops, i);
      LaterTicksAreLarger(configuration, ops, i + 1, j);
    }
  }

  /** Within one run no job is reported as missed at two ticks. */
  lemma {:induction false} MissedOnce(configuration: seq<RateGroupConfig>, ops: seq<Op>, i: nat, j: nat, k: nat)
    requires ConfigurationOk(configuration) && k < |configuration| && i < j < |ops|
    requires ops[i].Tick? && TickAccepted(Run(configuration, ops[..i]), ops[i].tick)
    requires ops[j].Tick? && TickAccepted(Run(configuration, ops[..j]), ops[j].tick)
    requires TaskMisses(Run(configuration, ops[..i]).tasks[k], ops[i].tick) != []
    requires TaskMisses(Run(configuration, ops[..j]).tasks[k], ops[j].tick) != []
    ensures Run(configuration, ops[..i]).tasks[k].releaseTick != Run(configuration, ops[..j]).tasks[k].releaseTick
  {
    LastTickGrows(configuration, ops, i);
    LaterTicksAreLarger(configuration, ops, i + 1, j);
    MissReportedExactly(configuration, ops[..i], k, ops[i].tick);
    MissReportedExactly(configuration, ops[..j], k, ops[j].tick);
  }
}
