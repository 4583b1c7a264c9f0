/** The event history of application runs, and what the bounded event log keeps of it. */
module AppHistory {
  import opened Words
  import opened FlightModes
  import opened CommandPackets
  import opened Health
  import opened WatchdogTimer
  import opened FlightApp
  import opened AppRuns
  import Guard = GroundGuard
  import Log = EventLog
  import CP = CommandProcessing

  function History(c: AppConfig, inputs: seq<StepInput>): seq<Log.Event>
    decreases |inputs|
  {
    if inputs == [] then []
    else
      var n := |inputs| - 1;
      History(c, inputs[..n]) + EventsOf(c, Run(c, inputs[..n]), inputs[n])
  }

  /** Mode and fault as a reader of the events would follow them. */
  datatype Followed = Followed(mode: Mode, fault: FaultCode)

  function Follow(f: Followed, e: Log.Event): Followed {
    match e.source
    case ModeEvent => (match ModeOf(e.code) case Some(m) => f.(mode := m) case None => f)
    case FdirEvent => (match FaultOf(e.code) case Some(g) => f.(fault := g) case None => f)
    case _ => f
  }

  function FollowAll(f: Followed, events: seq<Log.Event>): Followed
    decreases |events|
  {
    if events == [] then f else Follow(FollowAll(f, events[..|events| - 1]), events[|events| - 1])
  }

  lemma {:induction false} FollowConcat(f: Followed, a: seq<Log.Event>, b: seq<Log.Event>)
    ensures FollowAll(f, a + b) == FollowAll(FollowAll(f, a), b)
    decreases |b|
  {
    if b == [] {
      assert a + b == a;
    } else {
      assert (a + b)[..|a + b| - 1] == a + b[..|b| - 1];
      FollowConcat(f, a, b[..|b| - 1]);
    }
  }

  lemma {:induction false} FollowOne(f: Followed, e: Log.Event)
    ensures FollowAll(f, [e]) == Follow(f, e)
  {
    assert [e][..0] == [];
  }

  lemma {:induction false} FollowCommand(nowMs: u64, f: Followed, result: Option<CP.CommandResult>)
    ensures FollowAll(f, CommandEvents(nowMs, result)) == f
  {
    if result.Some? {
      FollowOne(f, CommandEvents(nowMs, result)[0]);
    }
  }

  lemma {:induction false} FollowMode(nowMs: u64, f: Followed, mode: Mode)
    ensures FollowAll(f, ModeEvents(nowMs, f.mode, mode)) == f.(mode := mode)
  {
    if mode != f.mode {
      FollowOne(f, ModeEvents(nowMs, f.mode, mode)[0]);
    }
  }

  lemma {:induction false} FollowFault(nowMs: u64, f: Followed, fault: FaultCode)
    ensures FollowAll(f, FaultEvents(nowMs, f.fault, fault)) == f.(fault := fault)
  {
    if fault != f.fault {
      FollowOne(f, FaultEvents(nowMs, f.fault, fault)[0]);
    }
  }

  lemma {:induction false} FollowStep(
    nowMs: u64, result: Option<CP.CommandResult>, before: CP.ProcessorState, after: CP.ProcessorState)
    ensures FollowAll(Followed(before.mode, before.fault), StepEvents(nowMs, result, before, after)) ==
            Followed(after.mode, after.fault)
  {
    var f := Followed(before.mode, before.fault);
    var commands, modes := CommandEvents(nowMs, result), ModeEvents(nowMs, before.mode, after.mode);
    FollowConcat(f, commands + modes, FaultEvents(nowMs, before.fault, after.fault));
    FollowConcat(f, commands, modes);
    FollowCommand(nowMs, f, result);
    FollowMode(nowMs, f, after.mode);
    FollowFault(nowMs, f.(mode := after.mode), after.fault);
  }

  /** Following the MODE and FDIR events from (BOOT, NONE) gives the current mode and fault. */
  lemma {:induction false} HistoryTellsState(c: AppConfig, inputs: seq<StepInput>)
    ensures var s := Run(c, inputs).processor;
            FollowAll(Followed(Boot, NoFault), History(c, inputs)) == Followed(s.mode, s.fault)
    decreases |inputs|
  {
    if inputs == [] {
    } else {
      var n := |inputs| - 1;
      var s, input := Run(c, inputs[..n]), inputs[n];
      HistoryTellsState(c, inputs[..n]);
      UnfoldStep(c, s, input);
      FollowConcat(Followed(Boot, NoFault), History(c, inputs[..n]), EventsOf(c, s, input));
      FollowStep(input.timestampMs, GroundResult(c, s, input), s.processor, ProcessorAfter(c, s, input));
    }
  }

  function LogOps(events: seq<Log.Event>): (ops: seq<Log.LogOp>)
    ensures |ops| == |events|
  {
    seq(|events|, i requires 0 <= i < |events| => Log.Log(events[i]))
  }

  lemma {:induction false} LogAllIsRun(capacity: nat, ops: seq<Log.LogOp>, events: seq<Log.Event>)
    ensures LogAll(Log.Run(capacity, ops), events) == Log.Run(capacity, ops + LogOps(events))
    decreases |events|
  {
    if events == [] {
      assert ops + LogOps(events) == ops;
    } else {
      var n := |events| - 1;
      LogAllIsRun(capacity, ops, events[..n]);
      var all := ops + LogOps(events);
      assert all[..|all| - 1] == ops + LogOps(events[..n]);
    }
  }

  lemma {:induction false} LogMore(capacity: nat, earlier: seq<Log.Event>, latest: seq<Log.Event>)
    ensures LogAll(Log.Run(capacity, LogOps(earlier)), latest) == Log.Run(capacity, LogOps(earlier + latest))
  {
    LogAllIsRun(capacity, LogOps(earlier), latest);
    assert LogOps(earlier + latest) == LogOps(earlier) + LogOps(latest);
  }

  lemma {:induction false} LogFollowsHistory(c: AppConfig, inputs: seq<StepInput>)
    ensures Run(c, inputs).log == Log.Run(c.eventLogCapacity, LogOps(History(c, inputs)))
    decreases |inputs|
  {
    if inputs == [] {
    } else {
      var n := |inputs| - 1;
      LogFollowsHistory(c, inputs[..n]);
      UnfoldStep(c, Run(c, inputs[..n]), inputs[n]);
      LogMore(c.eventLogCapacity, History(c, inputs[..n]), EventsOf(c, Run(c, inputs[..n]), inputs[n]));
    }
  }

  /** The application's event snapshot is the tail of its full history. */
  lemma {:induction false} SnapshotIsRecentHistory(c: AppConfig, inputs: seq<StepInput>)
    requires c.eventLogCapacity > 0
    ensures var full := Log.RunFull(LogOps(History(c, inputs)));
            Log.Refines(Run(c, inputs).log, full) && Run(c, inputs).log.capacity == c.eventLogCapacity
  {
    LogFollowsHistory(c, inputs);
    Log.RingRefinesList(c.eventLogCapacity, LogOps(History(c, inputs)));
  }

  // ---- What the event snapshot tells ----

  /** The events of the log, oldest first. */
  ghost function EventsInLog(l: Log.LogState): (events: seq<Log.Event>)
    requires Log.RingOk(l)
    ensures |events| == |l.records|
  {
    EventsIn(Log.Snapshot(l))
  }

  function EventsIn(records: seq<Log.EventRecord>): (events: seq<Log.Event>)
    ensures |events| == |records|
  {
    seq(|records|, i requires 0 <= i < |records| => records[i].event)
  }

  lemma {:induction false} FullLogHolds(events: seq<Log.Event>)
    ensures EventsIn(Log.RunFull(LogOps(events)).records) == events
    decreases |events|
  {
    if events == [] {
    } else {
      var n := |events| - 1;
      FullLogHolds(events[..n]);
      assert LogOps(events)[..n] == LogOps(events[..n]);
    }
  }

  /** The last `n` events, or all of them. */
  function LastEvents(events: seq<Log.Event>, n: nat): seq<Log.Event> {
    if |events| <= n then events else events[|events| - n..]
  }

  lemma {:induction false} LastRecords(records: seq<Log.EventRecord>, n: nat)
    ensures EventsIn(Log.LastOf(records, n)) == LastEvents(EventsIn(records), n)
  {
  }

  /** The snapshot's events are the most recent ones of the history. */
  lemma {:induction false} SnapshotHolds(c: AppConfig, inputs: seq<StepInput>)
    ensures Log.RingOk(Run(c, inputs).log)
    ensures EventsInLog(Run(c, inputs).log) == LastEvents(History(c, inputs), c.eventLogCapacity)
  {
    if c.eventLogCapacity == 0 {
      LogFollowsHistory(c, inputs);
      Log.NoCapacityKeepsNothing(LogOps(History(c, inputs)));
    } else {
      SnapshotIsRecentHistory(c, inputs);
      FullLogHolds(History(c, inputs));
      LastRecords(Log.RunFull(LogOps(History(c, inputs))).records, c.eventLogCapacity);
    }
  }

  predicate NamesMode(e: Log.Event) {
    e.source.ModeEvent?
  }

  predicate NamesFault(e: Log.Event) {
    e.source.FdirEvent?
  }

  /** The codes of MODE and FDIR events are numbers of modes and faults. */
  predicate Coded(events: seq<Log.Event>) {
    forall e :: e in events ==> (NamesMode(e) ==> ModeOf(e.code).Some?) && (NamesFault(e) ==> FaultOf(e.code).Some?)
  }

  lemma {:induction false} StepIsCoded(
    nowMs: u64, result: Option<CP.CommandResult>, before: CP.ProcessorState, after: CP.ProcessorState)
    ensures Coded(StepEvents(nowMs, result, before, after))
  {
    assert Coded(CommandEvents(nowMs, result));
    assert Coded(ModeEvents(nowMs, before.mode, after.mode));
    assert Coded(FaultEvents(nowMs, before.fault, after.fault));
  }

  lemma {:induction false} HistoryIsCoded(c: AppConfig, inputs: seq<StepInput>)
    ensures Coded(History(c, inputs))
    decreases |inputs|
  {
    if inputs == [] {
    } else {
      var n := |inputs| - 1;
      var s, input := Run(c, inputs[..n]), inputs[n];
      HistoryIsCoded(c, inputs[..n]);
      StepIsCoded(input.timestampMs, GroundResult(c, s, input), s.processor, ProcessorAfter(c, s, input));
    }
  }

  predicate SomeMode(events: seq<Log.Event>) {
    exists e :: e in events && NamesMode(e)
  }

  predicate SomeFault(events: seq<Log.Event>) {
    exists e :: e in events && NamesFault(e)
  }

  /** Two readers of the same events agree on the mode once there is a MODE event, and keep
      their own idea of it otherwise; likewise for the fault. */
  lemma {:induction false} ReadersAgree(f: Followed, g: Followed, events: seq<Log.Event>)
    requires Coded(events)
    ensures FollowAll(f, events).mode == if SomeMode(events) then FollowAll(g, events).mode else f.mode
    ensures FollowAll(f, events).fault == if SomeFault(events) then FollowAll(g, events).fault else f.fault
    decreases |events|
  {
    if events == [] {
    } else {
      var earlier, e := events[..|events| - 1], events[|events| - 1];
      assert forall x :: x in events <==> x in earlier || x == e;
      ReadersAgree(f, g, earlier);
      assert SomeMode(events) <==> SomeMode(earlier) || NamesMode(e);
      assert SomeFault(events) <==> SomeFault(earlier) || NamesFault(e);
    }
  }

  lemma {:induction false} TailTells(f: Followed, start: Followed, events: seq<Log.Event>, n: nat)
    requires Coded(events)
    ensures var tail, now := LastEvents(events, n), FollowAll(start, events);
            FollowAll(f, tail).mode == (if SomeMode(tail) then now.mode else f.mode) &&
            FollowAll(f, tail).fault == (if SomeFault(tail) then now.fault else f.fault)
  {
    var tail := LastEvents(events, n);
    var head := events[..|events| - |tail|];
    assert events == head + tail;
    FollowConcat(start, head, tail);
    ReadersAgree(f, FollowAll(start, head), tail);
  }

  /** What the event log tells a reader who starts with any idea `f` of mode and fault: the
      mode exactly if a MODE event is still in it, the fault exactly if an FDIR event is, and
      otherwise nothing. */
  lemma {:induction false} SnapshotTells(c: AppConfig, inputs: seq<StepInput>, f: Followed)
    ensures Log.RingOk(Run(c, inputs).log)
    ensures var s, events := Run(c, inputs).processor, EventsInLog(Run(c, inputs).log);
            FollowAll(f, events).mode == (if SomeMode(events) then s.mode else f.mode) &&
            FollowAll(f, events).fault == (if SomeFault(events) then s.fault else f.fault)
  {
    SnapshotHolds(c, inputs);
    HistoryTellsState(c, inputs);
    HistoryIsCoded(c, inputs);
    TailTells(f, Followed(Boot, NoFault), History(c, inputs), c.eventLogCapacity);
  }

  /** While no event has been dropped, the log tells mode and fault from (BOOT, NONE). */
  lemma {:induction false} CompleteSnapshotTells(c: AppConfig, inputs: seq<StepInput>)
    requires |History(c, inputs)| <= c.eventLogCapacity
    ensures Log.RingOk(Run(c, inputs).log)
    ensures var s := Run(c, inputs).processor;
            FollowAll(Followed(Boot, NoFault), EventsInLog(Run(c, inputs).log)) == Followed(s.mode, s.fault)
  {
    SnapshotHolds(c, inputs);
    HistoryTellsState(c, inputs);
  }

  // ---- What the events of a step say ----

  /** How grave an event it is that a fault becomes active: all that lead to SAFE are critical. */
  function Gravity(fault: FaultCode): Log.EventSeverity {
    if fault == NoFault then Log.Info
    else if fault in {CommandBadCrc, CommandUnknownId} then Log.Warning
    else if fault in {PayloadHeartbeatTimeout, CpuOverload} then Log.Error
    else Log.Critical
  }

  lemma {:induction false} GravityIs(fault: FaultCode)
    ensures FaultEventSeverity(fault) == Gravity(fault)
  {
  }

  /** The events of a step in full. All carry the time of the step: a COMMAND event for the
      ground command, a warning unless it was accepted; a MODE event when the step ended in
      another mode; an FDIR event when it ended with another fault. */
  lemma {:induction false} StepEventsTell(c: AppConfig, s: AppState, input: StepInput)
    ensures var now, before, after := input.timestampMs, s.processor, AfterStep(c, s, input).processor;
            EventsOf(c, s, input) ==
            (match input.command
             case None => []
             case Some(p) =>
               [Log.Event(now, if GroundStatus(c, s, p, now) == CP.Accepted then Log.Info else Log.Warning,
                          Log.CommandEvent, IdNumber(p.commandId))]) +
            (if before.mode == after.mode then []
             else [Log.Event(now, Log.Info, Log.ModeEvent, ModeNumber(after.mode) as int)]) +
            (if before.fault == after.fault then []
             else [Log.Event(now, Gravity(after.fault), Log.FdirEvent, FaultNumber(after.fault))])
  {
    UnfoldStep(c, s, input);
    GravityIs(AfterStep(c, s, input).processor.fault);
  }

  // ---- The log can forget ----

  /** A step at time zero with a SET_MODE NOMINAL that is always numbered one. */
  const INSISTENT := StepInput(Some(CommandPacket(1, 0, SetMode, ModeNumber(Nominal))), 0,
                               Number(0.0), Number(0.0), 0, 0, 0, 0)

  function Insisting(n: nat): (inputs: seq<StepInput>)
    ensures |inputs| == n
  {
    seq(n, i => INSISTENT)
  }

  /** After the first insistent step: in NOMINAL, with number one consumed. */
  predicate Insisted(s: AppState) {
    s.processor == CP.ProcessorState(Nominal, NoFault, 0) && s.guard == Guard.GuardState(true, 1) &&
    s.watchdogInitialized && s.watchdog == WatchdogState(0, 0)
  }

  lemma {:induction false} InsistentStep(c: AppConfig, s: AppState)
    requires s.watchdogInitialized ==> s.watchdog == WatchdogState(0, 0)
    ensures var after := AfterStep(c, s, INSISTENT);
            after.processor == AfterGround(c, s, INSISTENT) && after.guard == GuardAfter(c, s, INSISTENT) &&
            after.watchdogInitialized && after.watchdog == WatchdogState(0, 0)
  {
    QuietStep(c, s, INSISTENT);
    WatchdogNext(c, s, INSISTENT);
    UnfoldStep(c, s, INSISTENT);
  }

  lemma {:induction false} FirstInsistence(c: AppConfig)
    requires c == DEFAULT_APP.(eventLogCapacity := c.eventLogCapacity)
    ensures AfterGround(c, InitialApp(c), INSISTENT) == CP.ProcessorState(Nominal, NoFault, 0)
    ensures GuardAfter(c, InitialApp(c), INSISTENT) == Guard.GuardState(true, 1)
  {
    assert ArgumentToMode(ModeNumber(Nominal)) == Some(Nominal);
  }

  lemma {:induction false} NextInsistence(c: AppConfig, s: AppState)
    requires c == DEFAULT_APP.(eventLogCapacity := c.eventLogCapacity) && Insisted(s)
    ensures AfterGround(c, s, INSISTENT) == s.processor && GuardAfter(c, s, INSISTENT) == s.guard
  {
  }

  lemma {:induction false} InsistentEvents(c: AppConfig, s: AppState)
    requires c == DEFAULT_APP.(eventLogCapacity := c.eventLogCapacity) && Insisted(s)
    ensures |EventsOf(c, s, INSISTENT)| == 1 && !NamesMode(EventsOf(c, s, INSISTENT)[0])
  {
    NextInsistence(c, s);
    InsistentStep(c, s);
    UnfoldStep(c, s, INSISTENT);
  }

  lemma {:induction false} InsistingRun(capacity: nat, n: nat)
    ensures var c, inputs := DEFAULT_APP.(eventLogCapacity := capacity), Insisting(n + 1);
            var history := History(c, inputs);
            Insisted(Run(c, inputs)) && |history| >= n &&
            forall j :: |history| - n <= j < |history| ==> !NamesMode(history[j])
    decreases n
  {
    var c, inputs := DEFAULT_APP.(eventLogCapacity := capacity), Insisting(n + 1);
    assert inputs[..n] == Insisting(n);
    if n == 0 {
      FirstInsistence(c);
      InsistentStep(c, InitialApp(c));
    } else {
      InsistingRun(capacity, n - 1);
      NextInsistence(c, Run(c, Insisting(n)));
      InsistentStep(c, Run(c, Insisting(n)));
      InsistentEvents(c, Run(c, Insisting(n)));
      assert History(c, inputs) == History(c, Insisting(n)) + EventsOf(c, Run(c, Insisting(n)), INSISTENT);
    }
  }

  /** Whatever its capacity, the log can lose the mode: there is a run that ends in NOMINAL
      with no MODE event left in the log. */
  lemma {:induction false} LogCanForget(capacity: nat)
    ensures var c, inputs := DEFAULT_APP.(eventLogCapacity := capacity), Insisting(capacity + 1);
            Run(c, inputs).processor.mode == Nominal && Log.RingOk(Run(c, inputs).log) &&
            !SomeMode(EventsInLog(Run(c, inputs).log))
  {
    var c, inputs := DEFAULT_APP.(eventLogCapacity := capacity), Insisting(capacity + 1);
    InsistingRun(capacity, capacity);
    SnapshotHolds(c, inputs);
  }
}
