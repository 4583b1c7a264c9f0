/** The event logger: a ring of records that keeps the most recent ones. */
module EventLog {
  import opened Words
  import opened Arithmetic

  datatype EventSeverity = Debug | Info | Warning | Error | Critical

  datatype EventSource =
    | SystemEvent
    | CommandEvent
    | ModeEvent
    | HealthEvent
    | WatchdogEvent
    | FdirEvent
    | SchedulerEvent
    | TelemetryEvent
    | ConfigurationEvent

  datatype Event = Event(timestampMs: u64, severity: EventSeverity, source: EventSource, code: u16)

  datatype EventRecord = EventRecord(sequence: u64, event: Event)

  datatype LogState = LogState(
    capacity: nat, records: seq<EventRecord>, start: nat, nextSequence: u64, dropped: u64)

  function EmptyLog(capacity: nat): LogState {
    LogState(capacity, [], 0, 1, 0)
  }

  // ---- The ring ----

  ghost predicate RingOk(l: LogState) {
    |l.records| <= l.capacity &&
    if l.capacity == 0 then l.start == 0
    else l.start < l.capacity && (|l.records| < l.capacity ==> l.start == 0)
  }

  function Logged(l: LogState, e: Event): LogState {
    if l.capacity == 0 then l
    else
      var record := EventRecord(l.nextSequence, e);
      if |l.records| < l.capacity
      then l.(records := l.records + [record], nextSequence := Increment(l.nextSequence))
      else if l.start < |l.records|
      then l.(records := l.records[l.start := record],
              start := if l.start + 1 == l.capacity then 0 else l.start + 1,
              nextSequence := Increment(l.nextSequence), dropped := Increment(l.dropped))
      else l
  }

  function Cleared(l: LogState): LogState {
    l.(records := [], start := 0, dropped := 0)
  }

  /** Where the `i`-th oldest record sits. */
  function Slot(l: LogState, i: nat): nat {
    if l.start + i < |l.records| then l.start + i else l.start + i - |l.records|
  }

  /** The records from oldest to newest. */
  ghost function Snapshot(l: LogState): (records: seq<EventRecord>)
    requires RingOk(l)
    ensures |records| == |l.records|
  {
    seq(|l.records|, i requires 0 <= i < |l.records| => l.records[Slot(l, i)])
  }

  class EventLogger {
    const capacity: nat
    var records: seq<EventRecord>
    var start: nat
    var nextSequence: u64
    var dropped: u64

    ghost function View(): LogState
      reads this
    {
      LogState(capacity, records, start, nextSequence, dropped)
    }

    ghost predicate Valid()
      reads this
    {
      RingOk(View())
    }

    constructor (capacity: nat)
      ensures Valid() && View() == EmptyLog(capacity)
    {
      this.capacity := capacity;
      records, start, nextSequence, dropped := [], 0, 1, 0;
    }

    method Log(e: Event) returns (sequence: u64)
      requires Valid()
      modifies this
      ensures Valid() && View() == Logged(old(View()), e)
      ensures sequence == if capacity == 0 then 0 else old(nextSequence)
    {
      if capacity == 0 {
        return 0;
      }
      var record := EventRecord(nextSequence, e);
      sequence := nextSequence;
      nextSequence := (nextSequence + 1) % U64_SPAN;
      if |records| < capacity {
        records := records + [record];
        return;
      }
      records := records[start := record];
      NextSlot(start, capacity);
      start := (start + 1) % capacity;
      dropped := (dropped + 1) % U64_SPAN;
    }

    method TakeSnapshot() returns (output: seq<EventRecord>)
      requires Valid()
      ensures output == Snapshot(View())
    {
      output := [];
      if records == [] {
        return;
      }
      for offset := 0 to |records|
        invariant output == Snapshot(View())[..offset]
      {
        SlotIsModular(View(), offset);
        var index := (start + offset) % |records|;
        output := output + [records[index]];
      }
    }

    method Clear()
      requires Valid()
      modifies this
      ensures Valid() && View() == Cleared(old(View()))
    {
      records, start, dropped := [], 0, 0;
    }
  }

  lemma {:induction false} NextSlot(start: nat, capacity: nat)
    requires start < capacity
    ensures (start + 1) % capacity == if start + 1 == capacity then 0 else start + 1
  {
    if start + 1 == capacity {
      DivisionIs(start + 1, capacity, 1, 0);
    } else {
      DivisionIs(start + 1, capacity, 0, start + 1);
    }
  }

  lemma {:induction false} SlotIsModular(l: LogState, i: nat)
    requires RingOk(l) && i < |l.records|
    ensures (l.start + i) % |l.records| == Slot(l, i) < |l.records|
  {
    var n := |l.records|;
    if l.start + i < n {
      DivisionIs(l.start + i, n, 0, l.start + i);
    } else {
      DivisionIs(l.start + i, n, 1, l.start + i - n);
    }
  }

  // ---- The ring refines a plain list ----

  datatype LogOp = Log(event: Event) | Clear

  /** The log as it would be without a capacity: every record since the last clear. */
  datatype FullLog = FullLog(records: seq<EventRecord>, nextSequence: u64)

  function Apply(l: LogState, op: LogOp): LogState {
    match op
    case Log(e) => Logged(l, e)
    case Clear => Cleared(l)
  }

  function ApplyFull(m: FullLog, op: LogOp): FullLog {
    match op
    case Log(e) => FullLog(m.records + [EventRecord(m.nextSequence, e)], Increment(m.nextSequence))
    case Clear => m.(records := [])
  }

  function Run(capacity: nat, ops: seq<LogOp>): LogState
    decreases |ops|
  {
    if ops == [] then EmptyLog(capacity) else Apply(Run(capacity, ops[..|ops| - 1]), ops[|ops| - 1])
  }

  function RunFull(ops: seq<LogOp>): FullLog
    decreases |ops|
  {
    if ops == [] then FullLog([], 1) else ApplyFull(RunFull(ops[..|ops| - 1]), ops[|ops| - 1])
  }

  /** The last `n` records, or all of them. */
  function LastOf(records: seq<EventRecord>, n: nat): seq<EventRecord> {
    if |records| <= n then records else records[|records| - n..]
  }

  ghost predicate Refines(l: LogState, m: FullLog) {
    RingOk(l) && l.capacity > 0 && l.nextSequence == m.nextSequence &&
    Snapshot(l) == LastOf(m.records, l.capacity) &&
    l.dropped == (if |m.records| <= l.capacity then 0 else |m.records| - l.capacity) % U64_SPAN
  }

  lemma {:induction false} LoggingRefines(l: LogState, m: FullLog, e: Event)
    requires Refines(l, m)
    ensures Refines(Logged(l, e), ApplyFull(m, Log(e)))
  {
    var record := EventRecord(l.nextSequence, e);
    LastOfLonger(m.records, record, l.capacity);
    if |l.records| < l.capacity {
      assert |Snapshot(l)| == |l.records|;
      SnapshotGrows(l, e);
    } else {
      SnapshotShifts(l, e);
      IncrementCounts(l.dropped, |m.records| - l.capacity);
    }
  }

  lemma {:induction false} LastOfLonger(records: seq<EventRecord>, record: EventRecord, n: nat)
    requires n > 0
    ensures LastOf(records + [record], n) ==
            if |records| < n then LastOf(records, n) + [record] else LastOf(records, n)[1..] + [record]
  {
  }

  lemma {:induction false} SnapshotGrows(l: LogState, e: Event)
    requires RingOk(l) && |l.records| < l.capacity
    ensures RingOk(Logged(l, e))
    ensures Snapshot(Logged(l, e)) == Snapshot(l) + [EventRecord(l.nextSequence, e)]
  {
  }

  lemma {:induction false} SnapshotShifts(l: LogState, e: Event)
    requires RingOk(l) && 0 < l.capacity == |l.records|
    ensures RingOk(Logged(l, e))
    ensures Snapshot(Logged(l, e)) == Snapshot(l)[1..] + [EventRecord(l.nextSequence, e)]
  {
    var l' := Logged(l, e);
    forall i | 0 <= i < l.capacity
      ensures Snapshot(l')[i] == (Snapshot(l)[1..] + [EventRecord(l.nextSequence, e)])[i]
    {
      if i < l.capacity - 1 {
        assert Slot(l', i) == Slot(l, i + 1) != l.start;
      } else {
        assert Slot(l', i) == l.start;
      }
    }
  }

  /** After any run of logging and clearing, the snapshot is the most recent records since
      the last clear, as many as fit, in order, and the drop count is the number that did not. */
  lemma {:induction false} RingRefinesList(capacity: nat, ops: seq<LogOp>)
    requires capacity > 0
    ensures Refines(Run(capacity, ops), RunFull(ops)) && Run(capacity, ops).capacity == capacity
    decreases |ops|
  {
    if ops == [] {
    } else {
      var n := |ops| - 1;
      RingRefinesList(capacity, ops[..n]);
      match ops[n]
      case Log(e) => LoggingRefines(Run(capacity, ops[..n]), RunFull(ops[..n]), e);
      case Clear =>
    }
  }

  /** A log without capacity stays as it was built: it neither numbers nor counts anything. */
  lemma {:induction false} NoCapacityKeepsNothing(ops: seq<LogOp>)
    ensures Run(0, ops) == EmptyLog(0)
    decreases |ops|
  {
    if ops == [] {
    } else {
      NoCapacityKeepsNothing(ops[..|ops| - 1]);
    }
  }

  /** The records since the last clear carry consecutive sequence numbers. */
  lemma {:induction false} SequencesConsecutive(ops: seq<LogOp>, i: nat)
    requires i < |RunFull(ops).records|
    ensures var m := RunFull(ops);
            (m.records[i].sequence + (|m.records| - i)) % U64_SPAN == m.nextSequence
    decreases |ops|
  {
    var n := |ops| - 1;
    if ops[n].Log? && i < |RunFull(ops[..n]).records| {
      SequencesConsecutive(ops[..n], i);
    }
  }

  /** Events logged so far, over all clears. */
  function LogsIn(ops: seq<LogOp>): nat
    decreases |ops|
  {
    if ops == [] then 0
    else
      var n := |ops| - 1;
      LogsIn(ops[..n]) + if ops[n].Log? then 1 else 0
  }

  /** Numbers start at one and count every event logged; a clear does not restart them. */
  lemma {:induction false} NumbersCountLogs(ops: seq<LogOp>)
    ensures RunFull(ops).nextSequence == (LogsIn(ops) + 1) % U64_SPAN
    decreases |ops|
  {
    if ops == [] {
    } else {
      var n := |ops| - 1;
      NumbersCountLogs(ops[..n]);
      IncrementCounts(RunFull(ops[..n]).nextSequence, LogsIn(ops[..n]) + 1);
    }
  }
}
