/** The watchdog: time since the last kick, and a count of overlong loops. */
module WatchdogTimer {
  import opened Words
  import opened FlightModes

  datatype WatchdogStatus = WatchdogOk | WatchdogWarning | WatchdogExpired

  datatype WatchdogConfig = WatchdogConfig(
    warningMs: u32, timeoutMs: u32, loopDeadlineMs: u32, maxMissedDeadlines: u32)

  const DEFAULT_WATCHDOG := WatchdogConfig(400, 500, 250, 3)

  datatype WatchdogState = WatchdogState(lastKickMs: u64, missed: u32)

  datatype WatchdogReport = WatchdogReport(
    status: WatchdogStatus, fault: FaultCode, lastKickMs: u64, elapsedMs: u64, missed: u32,
    alive: bool, loopTimingOk: bool)

  predicate LoopOverlong(c: WatchdogConfig, loopMs: u32) {
    loopMs >= c.loopDeadlineMs
  }

  /** The miss counter after a loop: 32 bits wide. */
  function MissedAfter(c: WatchdogConfig, missed: u32, loopMs: u32): u32 {
    if LoopOverlong(c, loopMs) then (missed + 1) % U32_SPAN else missed
  }

  /** Time since the last kick; a clock that runs backwards counts as no time. */
  function Elapsed(w: WatchdogState, nowMs: u64): u64 {
    if nowMs >= w.lastKickMs then nowMs - w.lastKickMs else 0
  }

  predicate Expires(c: WatchdogConfig, w: WatchdogState, nowMs: u64, loopMs: u32) {
    MissedAfter(c, w.missed, loopMs) >= c.maxMissedDeadlines || Elapsed(w, nowMs) >= c.timeoutMs
  }

  function ReportOf(c: WatchdogConfig, w: WatchdogState, nowMs: u64, loopMs: u32): WatchdogReport {
    var missed, elapsed := MissedAfter(c, w.missed, loopMs), Elapsed(w, nowMs);
    var expired := Expires(c, w, nowMs, loopMs);
    WatchdogReport(
      if expired then WatchdogExpired
      else if LoopOverlong(c, loopMs) || elapsed >= c.warningMs then WatchdogWarning
      else WatchdogOk,
      if expired then WatchdogDeadlineMiss else NoFault,
      w.lastKickMs, elapsed, missed, elapsed < c.timeoutMs,
      !LoopOverlong(c, loopMs) && missed < c.maxMissedDeadlines)
  }

  class Watchdog {
    const config: WatchdogConfig
    var lastKickMs: u64
    var missed: u32

    ghost function View(): WatchdogState
      reads this
    {
      WatchdogState(lastKickMs, missed)
    }

    constructor (config: WatchdogConfig)
      ensures this.config == config && View() == WatchdogState(0, 0)
    {
      this.config := config;
      lastKickMs, missed := 0, 0;
    }

    method Kick(nowMs: u64)
      modifies this
      ensures View() == old(View()).(lastKickMs := nowMs)
    {
      lastKickMs := nowMs;
    }

    method Reset(nowMs: u64)
      modifies this
      ensures View() == WatchdogState(nowMs, 0)
    {
      lastKickMs, missed := nowMs, 0;
    }

    method Evaluate(nowMs: u64, loopMs: u32) returns (report: WatchdogReport)
      modifies this
      ensures View() == old(View()).(missed := MissedAfter(config, old(missed), loopMs))
      ensures report == ReportOf(config, old(View()), nowMs, loopMs)
    {
      if loopMs >= config.loopDeadlineMs {
        missed := (missed + 1) % U32_SPAN;
      }
      var elapsed := if nowMs >= lastKickMs then nowMs - lastKickMs else 0;
      report := WatchdogReport(WatchdogOk, NoFault, lastKickMs, elapsed, missed, true, true);
      if loopMs >= config.loopDeadlineMs {
        report := report.(loopTimingOk := false, status := WatchdogWarning);
      }
      if elapsed >= config.warningMs && elapsed < config.timeoutMs {
        report := report.(status := WatchdogWarning);
      }
      if missed >= config.maxMissedDeadlines {
        report := report.(status := WatchdogExpired, fault := WatchdogDeadlineMiss, loopTimingOk := false);
      }
      if elapsed >= config.timeoutMs {
        report := report.(status := WatchdogExpired, fault := WatchdogDeadlineMiss, alive := false);
      }
    }
  }
}
