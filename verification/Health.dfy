/** The health monitor: threshold checks that overwrite one report, in a fixed order. */
module Health {
  import opened Words
  import opened FlightModes
  import opened Fdir

  /** A load figure: a number or a float that is not one, which no threshold test passes. */
  datatype Load = Number(percent: real) | NotANumber

  predicate AtLeast(load: Load, threshold: real) {
    load.Number? && load.percent >= threshold
  }

  datatype HealthStatus = HealthOk | HealthWarning | HealthCritical

  datatype Thresholds = Thresholds(
    cpuWarning: real, cpuCritical: real, memoryWarning: real, memoryCritical: real,
    sensorTimeoutMs: u32, payloadTimeoutMs: u32, loopDeadlineMs: u32)

  const DEFAULT_THRESHOLDS := Thresholds(80.0, 95.0, 85.0, 95.0, 1000, 1500, 250)

  datatype Snapshot = Snapshot(
    cpuLoad: Load, memoryLoad: Load, sensorAgeMs: u32, payloadAgeMs: u32, loopDurationMs: u32)

  datatype HealthReport = HealthReport(
    status: HealthStatus, fault: FaultCode,
    cpuOk: bool, memoryOk: bool, sensorOk: bool, payloadOk: bool, loopTimingOk: bool)

  /** The critical conditions that hold, as faults. */
  function CriticalFaults(th: Thresholds, s: Snapshot): seq<FaultCode> {
    (if AtLeast(s.cpuLoad, th.cpuCritical) then [CpuOverload] else []) +
    (if AtLeast(s.memoryLoad, th.memoryCritical) then [MemoryOverload] else []) +
    (if s.sensorAgeMs >= th.sensorTimeoutMs then [SensorTimeout] else []) +
    (if s.loopDurationMs >= th.loopDeadlineMs then [WatchdogDeadlineMiss] else [])
  }

  /** The warning conditions that hold, in the order of the checks. */
  function WarningFaults(th: Thresholds, s: Snapshot): seq<FaultCode> {
    (if AtLeast(s.cpuLoad, th.cpuWarning) then [CpuOverload] else []) +
    (if AtLeast(s.memoryLoad, th.memoryWarning) then [MemoryOverload] else []) +
    (if s.payloadAgeMs >= th.payloadTimeoutMs then [PayloadHeartbeatTimeout] else [])
  }

  /** The report, without order: the highest-ranking critical condition by the priorities of
      fault management, else the first warning, else all well. */
  function HealthOf(th: Thresholds, s: Snapshot): HealthReport {
    var criticals, warnings := CriticalFaults(th, s), WarningFaults(th, s);
    HealthReport(
      if criticals != [] then HealthCritical else if warnings != [] then HealthWarning else HealthOk,
      if criticals != [] then Primary(criticals) else if warnings != [] then warnings[0] else NoFault,
      !AtLeast(s.cpuLoad, th.cpuWarning) && !AtLeast(s.cpuLoad, th.cpuCritical),
      !AtLeast(s.memoryLoad, th.memoryWarning) && !AtLeast(s.memoryLoad, th.memoryCritical),
      s.sensorAgeMs < th.sensorTimeoutMs,
      s.payloadAgeMs < th.payloadTimeoutMs,
      s.loopDurationMs < th.loopDeadlineMs)
  }

  function WarnIfOk(r: HealthReport, fault: FaultCode): HealthReport {
    if r.status.HealthOk? then r.(status := HealthWarning, fault := fault) else r
  }

  function SetCritical(r: HealthReport, fault: FaultCode): HealthReport {
    r.(status := HealthCritical, fault := fault)
  }

  /** The fault of the last critical check to fire. */
  function LastCritical(th: Thresholds, s: Snapshot): FaultCode {
    if s.loopDurationMs >= th.loopDeadlineMs then WatchdogDeadlineMiss
    else if s.sensorAgeMs >= th.sensorTimeoutMs then SensorTimeout
    else if AtLeast(s.memoryLoad, th.memoryCritical) then MemoryOverload
    else if AtLeast(s.cpuLoad, th.cpuCritical) then CpuOverload
    else NoFault
  }

  /** The last critical check to fire wins, and the checks are in order of rank. */
  lemma {:induction false} LastCriticalIsPrimary(th: Thresholds, s: Snapshot)
    ensures Primary(CriticalFaults(th, s)) == LastCritical(th, s)
  {
    var faults := CriticalFaults(th, s);
    assert IsPrimary(LastCritical(th, s), faults);
    PrimaryUnique(Primary(faults), LastCritical(th, s), faults, faults);
  }

  lemma {:induction false} CriticalOrNot(th: Thresholds, s: Snapshot)
    ensures CriticalFaults(th, s) == [] <==>
            !AtLeast(s.cpuLoad, th.cpuCritical) && !AtLeast(s.memoryLoad, th.memoryCritical) &&
            s.sensorAgeMs < th.sensorTimeoutMs && s.loopDurationMs < th.loopDeadlineMs
  {
  }

  function FirstWarning(th: Thresholds, s: Snapshot): FaultCode {
    if AtLeast(s.cpuLoad, th.cpuWarning) then CpuOverload
    else if AtLeast(s.memoryLoad, th.memoryWarning) then MemoryOverload
    else if s.payloadAgeMs >= th.payloadTimeoutMs then PayloadHeartbeatTimeout
    else NoFault
  }

  lemma {:induction false} WarningsInOrder(th: Thresholds, s: Snapshot)
    ensures WarningFaults(th, s) == [] <==> FirstWarning(th, s).NoFault?
    ensures WarningFaults(th, s) != [] ==> WarningFaults(th, s)[0] == FirstWarning(th, s)
  {
  }

  /** The last critical check to fire wins, else the first warning. */
  function LastWriterWins(th: Thresholds, s: Snapshot): HealthReport {
    var critical, warning := LastCritical(th, s), FirstWarning(th, s);
    HealthReport(
      if !critical.NoFault? then HealthCritical else if !warning.NoFault? then HealthWarning else HealthOk,
      if !critical.NoFault? then critical else warning,
      !AtLeast(s.cpuLoad, th.cpuWarning) && !AtLeast(s.cpuLoad, th.cpuCritical),
      !AtLeast(s.memoryLoad, th.memoryWarning) && !AtLeast(s.memoryLoad, th.memoryCritical),
      s.sensorAgeMs < th.sensorTimeoutMs,
      s.payloadAgeMs < th.payloadTimeoutMs,
      s.loopDurationMs < th.loopDeadlineMs)
  }

  /** `HealthMonitor::evaluate`. */
  method EvaluateHealth(th: Thresholds, s: Snapshot) returns (report: HealthReport)
    ensures report == HealthOf(th, s)
  {
    report := RunChecks(th, s);
    LastCriticalIsPrimary(th, s);
    CriticalOrNot(th, s);
    WarningsInOrder(th, s);
  }

  /** The checks in their order. */
  method RunChecks(th: Thresholds, s: Snapshot) returns (report: HealthReport)
    ensures report == LastWriterWins(th, s)
  {
    report := HealthReport(HealthOk, NoFault, true, true, true, true, true);
    if AtLeast(s.cpuLoad, th.cpuWarning) {
      report := WarnIfOk(report.(cpuOk := false), CpuOverload);
    }
    if AtLeast(s.cpuLoad, th.cpuCritical) {
      report := SetCritical(report.(cpuOk := false), CpuOverload);
    }
    if AtLeast(s.memoryLoad, th.memoryWarning) {
      report := WarnIfOk(report.(memoryOk := false), MemoryOverload);
    }
    if AtLeast(s.memoryLoad, th.memoryCritical) {
      report := SetCritical(report.(memoryOk := false), MemoryOverload);
    }
    if s.payloadAgeMs >= th.payloadTimeoutMs {
      report := WarnIfOk(report.(payloadOk := false), PayloadHeartbeatTimeout);
    }
    if s.sensorAgeMs >= th.sensorTimeoutMs {
      report := SetCritical(report.(sensorOk := false), SensorTimeout);
    }
    if s.loopDurationMs >= th.loopDeadlineMs {
      report := SetCritical(report.(loopTimingOk := false), WatchdogDeadlineMiss);
    }
  }
}
