# ASTRA-OS flight software: a verified model

ASTRA-OS is a step-driven flight software core. It has no clock and no threads of its own: a run is
a fold of explicit inputs over explicit state. This project models its scheduler and executive, the
step of the flight software, its wire formats and its configuration service, and proves what holds
over every input and every run.

Objects that the original updates in place are classes here. Each has a `View()`, and each of its
methods states the new view and its result as a function of the old view and the arguments. The
theorems are about those functions, folded over arbitrary runs. What a method hands out is told
once more by lemmas that do not use its specification: in terms of the configuration, the calls
made and figures written out. All inductions are written out too, and no lemma leaves one to the
verifier.

Main results:

- **Scheduler** (`Scheduler`, `SchedulerRuns`, `SchedulerReports`). Over every interleaving of accepted and rejected
  ticks and completions, every released job is completed on time, completed late, overrun or
  pending, exactly once. The tick of a deadline miss, the release counts and the repetition of the
  release pattern have closed forms, and every record the scheduler hands out is given from the
  calls alone.
- **Executive and timing campaign** (`Executive`, `ExecutiveRuns`, `Campaign`). No job outlives the
  step that releases it, the miss counters count exactly the late jobs, up to and including the
  last 64-bit tick, and the campaign's miss count, final mode and final fault are given for every
  choice of options.
- **Packets** (`Crc16`, `LongDivision`, `CrcPowers`, `ErrorDetection`, `Framing`, `LittleEndian`,
  `CommandPackets`, `TelemetryPackets`, `Protocol`, `GroundTool`). The CRC is the remainder of a
  polynomial long division. Encoding is a bijection onto the accepted byte strings. No
  corruption of one, two, three or any odd number of bits is accepted, nor any burst of sixteen
  payload bits. The minimum distance of four is attained. The Python sender produces the same bytes.
- **Ground command guard** (`GroundGuard`). Accepted sequence numbers lift to a strictly increasing
  unbounded counter, which gives the exact replay window.
- **Modes, faults, recovery** (`FlightModes`, `Fdir`, `Health`, `WatchdogTimer`, `Authorizer`,
  `CommandProcessing`, `FlightApp`, `AppRuns`, `AppReports`). Recovery attempts are bounded in every reachable
  state, SAFE is left only by two accepted ground commands in two steps, the primary fault has the
  last word in its step, and refused commands do not interfere.
- **Event log** (`EventLog`, `AppHistory`). The ring refines a plain list. The application's full
  event history tells its mode and fault, and its bounded log tells each exactly while an event
  that names it is still there.
- **Configuration service** (`Configuration`). Revisions grow, a lock is final, and a configuration
  that validates builds a valid executive.

Some promises hold only on a condition. The model keeps what the code does and states the
condition:

- A job's miss is reported at the tick after its deadline, unless release + deadline reaches 2^64:
  the deadline then wraps and the miss is reported at the tick after the release
  (`SchedulerRuns.MissReportedExactly`).
- The executive's misses are "delay exceeds deadline" only while the deadline stays below tick
  2^64 - 1. A deadline on that tick is always met, because completion ticks saturate there, and one
  beyond it is never met, because the deadline wraps. `ExecutiveRuns.MissesAreLateJobs` counts with
  the exact condition, `ExecutiveRuns.IsLate`, and `ExecutiveRuns.MissesAreOverlongFlights`
  gives the count of the wrapped ones in closed form.
- The campaign reports (ticks - 1) / cadence misses, except that tick 2^64 - 2 never counts, and
  ends in NOMINAL without fault if and only if the mission step is below 500 ms or there is only
  one tick (`Campaign.RunCampaign`).
- Three bit errors are always detected and four are not: every accepted packet has an accepted
  neighbour four bits away (`CommandPackets.DisguisedCommandAccepted`,
  `TelemetryPackets.DisguisedTelemetryAccepted`).
- The event log tells mode and fault only as long as it holds a MODE or FDIR event
  (`AppHistory.SnapshotTells`). Refused commands can push those out, whatever the capacity
  (`AppHistory.LogCanForget`).

`command_argument_to_mode` and `command_argument_to_fault` cut the 32-bit argument to the width of
the enumeration before the switch, so that SET_MODE with argument 0x104 sets SAFE. The model
follows the code.

## Model

| member | source | states |
|---|---|---|
| `Scheduler.RateGroupScheduler.constructor` | fsw/src/rate_group_scheduler.cpp:9-63 | the scheduler is valid exactly for a non-empty list of well-formed groups with distinct identifiers, and otherwise holds no task |
| `Scheduler.RateGroupScheduler.Step` | fsw/src/rate_group_scheduler.cpp:73-145 | new state, releases and misses as functions of the old state; a discontinuous tick or an invalid scheduler changes nothing |
| `Scheduler.StepTasks` | fsw/src/rate_group_scheduler.cpp:95-140 | the loop treats every task by the one-task specification and reports releases and misses in task order |
| `Scheduler.StepTask` | fsw/src/rate_group_scheduler.cpp:96-139 | deadline check, overrun check and release of one task, against the specification of one task at one tick |
| `Scheduler.RateGroupScheduler.Complete` | fsw/src/rate_group_scheduler.cpp:147-194 | only the named pending task changes; late means after the deadline, before the release, or already recorded |
| `Scheduler.RateGroupScheduler.ReadStatistics` | fsw/src/rate_group_scheduler.cpp:196-211 | one record per task, with its counters |
| `SchedulerRuns.JobsConserved` | fsw/src/rate_group_scheduler.cpp:95-193 | after any run, releases = on time + late + overrun + pending, completions = on time + late, misses = late + overrun + recorded pending miss, and the counters agree modulo 2^64 |
| `SchedulerRuns.DueIffResidue` | fsw/src/rate_group_scheduler.cpp:108-110 | a task is due exactly at the ticks congruent to its phase |
| `SchedulerRuns.ReleasesRepeat` | fsw/src/rate_group_scheduler.cpp:108-139 | the set of due tasks repeats with every common multiple of the periods |
| `SchedulerRuns.ReleaseCountClosedForm` | fsw/src/rate_group_scheduler.cpp:82-139 | after any run with last accepted tick t the release counter is 0 if t < phase and (t - phase) / period + 1 otherwise |
| `SchedulerRuns.RunIsTimed` | fsw/src/rate_group_scheduler.cpp:96-139 | after any run a pending job is that of the latest due tick, and its miss is on record exactly when its deadline has passed, or, when the deadline wraps past 2^64, from the tick after its release |
| `SchedulerRuns.MissReportedExactly` | fsw/src/rate_group_scheduler.cpp:96-126 | in any run, up to the last tick, a miss is reported exactly when the job is pending at tick min(release + deadline + 1, release + period), or at release + 1 when its deadline wraps; the second branch needs deadline = period |
| `SchedulerRuns.MissedOnce` | fsw/src/rate_group_scheduler.cpp:96-126 | in any run no job is reported missed at two ticks |
| `SchedulerReports.ValidExactly` | fsw/src/rate_group_scheduler.cpp:9-63 | a scheduler is valid exactly if there is a group, every group has a name, a period, a phase below it and a deadline within it, and identifiers differ |
| `SchedulerReports.AcceptedIffNext` | fsw/src/rate_group_scheduler.cpp:82-93 | a tick is accepted exactly if it is the number of ticks taken before, whatever else was called |
| `SchedulerReports.PendingIffOutstanding` | fsw/src/rate_group_scheduler.cpp:128-191 | a task is pending exactly if it was released and not completed since |
| `SchedulerReports.StepAnswers` | fsw/src/rate_group_scheduler.cpp:73-145 | after any run a step answers with exactly the release records that fall on the tick, in configuration order, each with tick, absolute deadline and number, and the miss records of the jobs left too long; every other tick is refused |
| `SchedulerReports.CompletionAnswers` | fsw/src/rate_group_scheduler.cpp:147-194 | after any run a completion answers with release tick and deadline of the outstanding job and whether it is in time |
| `SchedulerReports.IdleCompletionRefused` | fsw/src/rate_group_scheduler.cpp:166-169 | without an outstanding job a completion is refused and changes nothing |
| `SchedulerReports.OtherCompletionsRefused` | fsw/src/rate_group_scheduler.cpp:147-164 | an unknown task, or any task of an invalid scheduler, is refused and changes nothing |
| `SchedulerReports.StatisticsTell` | fsw/src/rate_group_scheduler.cpp:196-211 | the published record of a task after any run: releases in closed form, completions and missed jobs counted from the calls, and whether a job is outstanding |
| `Executive.FlightSoftwareExecutive.constructor` | fsw/src/flight_software_executive.cpp:7-11 | scheduler and application start in their initial states, from one configuration |
| `Executive.FlightSoftwareExecutive.IsValid` | fsw/src/flight_software_executive.cpp:13-15 | valid exactly when the scheduler is and the application's configuration is |
| `Executive.FlightSoftwareExecutive.Step` | fsw/src/flight_software_executive.cpp:24-77 | whole new state and whole output: status, releases, misses, task outcomes and statistics |
| `Executive.FlightSoftwareExecutive.RunReleases` | fsw/src/flight_software_executive.cpp:38-73 | the released tasks run one after the other, in release order, with the outcome of each |
| `Executive.FlightSoftwareExecutive.RunFlight` | fsw/src/flight_software_executive.cpp:42-63 | one application step, completed at the release tick plus the delay, stopping at the last tick |
| `ExecutiveRuns.StepInClosedForm` | fsw/src/flight_software_executive.cpp:24-77 | an accepted step serves both tasks if due, leaves neither pending, steps the application exactly when the flight task is due, and reports no miss |
| `ExecutiveRuns.NothingStaysPending` | fsw/src/flight_software_executive.cpp:38-73 | after any run no task is pending, completions equal releases, and the next step reports no deadline miss |
| `ExecutiveRuns.StepReportsLateness` | fsw/src/flight_software_executive.cpp:38-73 | in any run each task runs exactly when due, with the application's decision and telemetry, and its completion is reported late exactly when it is |
| `ExecutiveRuns.MissesAreLateJobs` | fsw/src/flight_software_executive.cpp:45-63 | over every run both miss counters equal the number of late jobs, with no bound on ticks |
| `ExecutiveRuns.MissesAreOverlongFlights` | fsw/src/flight_software_executive.cpp:45-71 | over every run the flight misses are the releases whose delay exceeds a deadline before the last tick, and housekeeping has none; added to both, in closed form, are the releases whose deadline lies past the last tick |
| `ExecutiveRuns.AppRunsOnReleases` | fsw/src/flight_software_executive.cpp:41-43 | the application under the executive makes an application run of its own, so that every result on application runs applies |
| `ExecutiveRuns.TelemetryCountsReleases` | fsw/src/flight_software_app.cpp:196-198 | the telemetry number is the flight task's release counter modulo 2^32 |
| `ExecutiveRuns.ReleasesFromLastTick` | fsw/src/rate_group_scheduler.cpp:82-139 | the flight release counter is a closed form of the last accepted tick |
| `ExecutiveRuns.SchedulerRunsOnInputs` | fsw/src/flight_software_executive.cpp:24-77 | the scheduler under the executive makes a scheduler run of its own, so that every result on scheduler runs applies |
| `ExecutiveRuns.StatisticsTell` | fsw/src/flight_software_executive.cpp:75-75 | the statistics published for both tasks after any run |
| `Campaign.RunCampaign` | fsw/src/timing_campaign.cpp:148-213 | for all options: no report exactly for zero ticks or step, otherwise the miss count and the final mode and fault in closed form |
| `Campaign.DriveTick` | fsw/src/timing_campaign.cpp:169-213 | no turn of the loop meets a scheduler error, and each brings the executive to the next state of the campaign |
| `Campaign.MissesNext` | fsw/src/timing_campaign.cpp:188-191 | the closed form grows by one exactly at an overloaded tick below 2^64 - 2 |
| `Campaign.NextStep` | fsw/src/watchdog.cpp:27-70 | at every later tick, mission time wrapped or not, the watchdog decides between NOMINAL and SAFE by the step alone |
| `Crc16.ComputeCrc` | fsw/src/command_packet.cpp:87-103 | both loops compute the register function on which the algebra is proved |
| `Crc16.StepXor` | fsw/src/command_packet.cpp:93-99 | one shift of the register is linear |
| `Crc16.StepsBijective` | fsw/src/command_packet.cpp:93-99 | any number of shifts is a bijection on registers, with the inverse given |
| `Crc16.AbsorbXor` | fsw/src/command_packet.cpp:87-103 | the register is linear in initial value and data, for data of any length |
| `LongDivision.CrcIsRemainder` | fsw/src/command_packet.cpp:87-103 | for all data of two bytes or more the CRC is the remainder of dividing the data, its first sixteen bits complemented and sixteen zero bits appended, by x^16 + x^12 + x^5 + 1, worked out on bit strings |
| `LongDivision.LeadingZeroCounts` | fsw/src/command_packet.cpp:88-88 | a leading zero byte changes the CRC of any data |
| `CrcPowers.PowersDistinct` | fsw/src/command_packet.cpp:93-99 | the first 344 powers of the shift, as many as a telemetry packet has bits, take the register 1 to distinct values |
| `ErrorDetection.ValidIffSyndromeVanishes` | fsw/src/command_packet.cpp:132-140 | whether an error passes the CRC comparison depends on the error pattern alone |
| `ErrorDetection.SyndromeIsSum` | fsw/src/command_packet.cpp:87-103 | the syndrome is the sum of one power for each wrong bit, with the CRC field stored low byte first |
| `ErrorDetection.OddErrorsDetected` | fsw/src/command_packet.cpp:132-140 | valid strings of any one length differ in an even number of bits |
| `ErrorDetection.ValidHasEvenWeight` | fsw/src/command_packet.cpp:132-140 | every valid string of any length has an even number of ones |
| `ErrorDetection.CrcParity` | fsw/src/command_packet.cpp:87-103 | for data of any length the parity of the CRC is the parity of the data |
| `ErrorDetection.FewErrorsDetected` | fsw/src/command_packet.cpp:132-140 | distinct valid strings up to packet length differ in at least four bits, CRC field included |
| `ErrorDetection.DistanceCounts` | fsw/src/command_packet.cpp:132-140 | the distance used above is the number of differing bit positions |
| `ErrorDetection.BurstsDetected` | fsw/src/command_packet.cpp:132-140 | for any length, an error confined to sixteen consecutive payload bits is detected |
| `ErrorDetection.FourErrorsCanHide` | fsw/src/command_packet.cpp:132-140 | every valid string of three bytes or more has a valid neighbour at distance exactly four |
| `LittleEndian.AppendU8` | fsw/src/telemetry_packet.cpp:8-10 | appends the one-byte encoding |
| `LittleEndian.AppendU16` | fsw/src/command_packet.cpp:6-9 | appends the two-byte encoding, low byte first |
| `LittleEndian.AppendU32` | fsw/src/command_packet.cpp:11-16 | appends the four-byte encoding, low byte first |
| `LittleEndian.AppendU64` | fsw/src/command_packet.cpp:18-22 | appends the eight-byte encoding, low byte first |
| `LittleEndian.ReadU8` | fsw/src/telemetry_packet.cpp:38-42 | reads one byte and advances by one |
| `LittleEndian.ReadU16` | fsw/src/command_packet.cpp:24-31 | reads the value of the next two bytes and advances by two |
| `LittleEndian.ReadU32` | fsw/src/command_packet.cpp:33-42 | reads the value of the next four bytes and advances by four |
| `LittleEndian.ReadU64` | fsw/src/command_packet.cpp:44-53 | reads the value of the next eight bytes and advances by eight |
| `LittleEndian.UnpackOfPack` | fsw/src/command_packet.cpp:105-122 | for every field layout, reading undoes writing |
| `LittleEndian.PackOfUnpack` | fsw/src/command_packet.cpp:142-161 | for every field layout, writing undoes reading |
| `Framing.SealedIsValid` | fsw/src/command_packet.cpp:118-119 | a body followed by its CRC passes the comparison |
| `Framing.ValidIsSealed` | fsw/src/command_packet.cpp:132-140 | a string that passes the comparison is its body followed by the CRC of that body |
| `Framing.SealedTail` | fsw/src/command_packet.cpp:118-119 | the CRC of the body follows it, low byte first |
| `CommandPackets.SerializeCommand` | fsw/src/command_packet.cpp:105-122 | produces the encoding: six fields in order, then the CRC |
| `CommandPackets.DeserializeCommand` | fsw/src/command_packet.cpp:124-169 | succeeds exactly when the decoding exists and otherwise leaves the caller's packet untouched |
| `CommandPackets.DecodeOfEncode` | fsw/src/command_packet.cpp:105-169 | decoding undoes encoding for every packet |
| `CommandPackets.EncodeOfDecode` | fsw/src/command_packet.cpp:105-169 | every accepted byte string is the encoding of what it decodes to |
| `CommandPackets.CommandLayout` | fsw/src/command_packet.cpp:105-122 | where every field lies in the 26 bytes, with the magic and version bytes written out |
| `CommandPackets.AcceptedCommandsFarApart` | fsw/src/command_packet.cpp:124-169 | two accepted byte strings differ in at least four bits |
| `CommandPackets.CorruptCommandRejected` | fsw/src/command_packet.cpp:124-140 | flipping one to three bits, an odd number, or a burst of sixteen payload bits makes the decoder refuse |
| `CommandPackets.DisguisedCommandAccepted` | fsw/src/command_packet.cpp:124-169 | every accepted command has an accepted neighbour four bits away: the same command with another argument |
| `CommandPackets.ArgumentToMode` | fsw/src/command_packet.cpp:171-186 | accepts exactly the arguments whose low byte names a mode, and gives that mode |
| `CommandPackets.ArgumentToFault` | fsw/src/command_packet.cpp:188-206 | accepts exactly the arguments whose low sixteen bits number a fault, and gives that fault |
| `CommandPackets.IdOf` | fsw/src/command_packet.cpp:55-66 | the identifiers accepted are exactly the numbers of commands |
| `TelemetryPackets.SerializeTelemetry` | fsw/src/telemetry_packet.cpp:138-165 | produces the encoding: thirteen fields in order, then the CRC |
| `TelemetryPackets.DeserializeTelemetry` | fsw/src/telemetry_packet.cpp:167-229 | succeeds exactly when the decoding exists and otherwise leaves the caller's packet untouched |
| `TelemetryPackets.DecodeOfEncode` | fsw/src/telemetry_packet.cpp:138-229 | decoding undoes encoding for every packet |
| `TelemetryPackets.EncodeOfDecode` | fsw/src/telemetry_packet.cpp:138-229 | every accepted byte string is the encoding of what it decodes to |
| `TelemetryPackets.TelemetryLayout` | fsw/src/telemetry_packet.cpp:138-165 | where every field lies in the 43 bytes, with the magic, version and type bytes written out |
| `TelemetryPackets.CorruptTelemetryRejected` | fsw/src/telemetry_packet.cpp:167-183 | flipping one to three bits, an odd number, or a burst of sixteen payload bits makes the decoder refuse |
| `TelemetryPackets.DisguisedTelemetryAccepted` | fsw/src/telemetry_packet.cpp:167-229 | every accepted packet has an accepted neighbour four bits away: the same report with another last command status |
| `GroundTool.PythonCrc` | tools/send_command.py:55-67 | the masked loop over unbounded integers computes the same CRC for all data |
| `GroundTool.TurnIsStep` | tools/send_command.py:62-65 | one masked turn equals one shift of the 16-bit register |
| `GroundTool.BuildPacket` | tools/send_command.py:84-105 | gives the flight software's encoding exactly for known commands and fields in range, and raises otherwise |
| `GroundTool.ModeArrives` | tools/send_command.py:70-81 | the name of a mode on the command line becomes an argument that asks for that mode on board |
| `GroundTool.FaultArrives` | tools/send_command.py:70-81 | the name of a fault on the command line becomes an argument that injects that fault on board |
| `GroundTool.OtherArgumentsAreZero` | tools/send_command.py:70-81 | other commands carry a zero argument, and a missing name raises |
| `Protocol.PacketsMatchManifest` | config/protocol_manifest.json:3-19 | magic numbers, versions and sizes are those of the manifest |
| `Protocol.CommandsMatchManifest` | config/protocol_manifest.json:20-26 | every command has its manifest entry under its name and number |
| `Protocol.StatusesMatchManifest` | config/protocol_manifest.json:27-39 | every status has its manifest entry under its name and number |
| `Protocol.ModesMatchManifest` | config/protocol_manifest.json:40-49 | every mode has its manifest entry under its name and number |
| `Protocol.FaultsMatchManifest` | config/protocol_manifest.json:50-62 | every fault has its manifest entry under its name and number |
| `GroundGuard.GroundCommandGuard.constructor` | fsw/src/ground_command_guard.cpp:17-31 | valid exactly when both windows are bounded; no sequence consumed yet |
| `GroundGuard.GroundCommandGuard.Evaluate` | fsw/src/ground_command_guard.cpp:41-95 | verdict, age, skew and new state in the order configuration, freshness, duplicate, replay |
| `GroundGuard.AgreesWithRfc1982` | fsw/src/ground_command_guard.cpp:10-13 | the comparison is "greater than" of section 3.2 of RFC 1982 for 32 bits |
| `GroundGuard.AcceptedIffAdmitted` | fsw/src/ground_command_guard.cpp:41-95 | acceptance is bounded windows, freshness, and a greater serial number unless it is the first |
| `GroundGuard.VerdictsExactly` | fsw/src/ground_command_guard.cpp:41-95 | each of the six verdicts by its own condition: the closed window of timestamps, equality with the highest number, and serial order |
| `GroundGuard.ResultTells` | fsw/src/ground_command_guard.cpp:41-95 | age, skew and state reported; only an acceptance changes the state |
| `GroundGuard.AcceptedNumbersIncrease` | fsw/src/ground_command_guard.cpp:69-94 | over every run accepted numbers are the residues of a strictly increasing counter |
| `GroundGuard.ReplayWindow` | fsw/src/ground_command_guard.cpp:69-94 | an accepted number is accepted again exactly when its timestamp is in the window and the counter has since advanced, modulo 2^32, by more than 2^31 |
| `GroundGuard.ReplayRefused` | fsw/src/ground_command_guard.cpp:69-94 | an accepted number is refused while the counter has advanced by at most 2^31 since |
| `GroundGuard.ReuseNeedsFullTurn` | fsw/src/ground_command_guard.cpp:69-94 | accepting a number again takes an advance of at least 2^32 and two other acceptances in between |
| `FlightModes.ModeOf` | fsw/src/telemetry_packet.cpp:83-97 | inverse of the mode numbering, defined exactly on it |
| `FlightModes.FaultOf` | fsw/src/telemetry_packet.cpp:99-116 | inverse of the fault numbering, defined exactly on it |
| `FlightModes.ModeManager.TransitionTo` | fsw/src/mode_manager.cpp:12-19 | moves along an edge of the graph and otherwise stays, and says which |
| `FlightModes.EntriesInto` | fsw/src/mode_manager.cpp:41-87 | the transition graph from the other end: the modes from which each mode can be entered |
| `Fdir.Primary` | fsw/src/fdir_manager.cpp:65-90 | among the active faults, one that no other outranks, or none |
| `Fdir.SelectPrimaryFault` | fsw/src/fdir_manager.cpp:65-90 | the loop finds the primary fault |
| `Fdir.PrimaryUnique` | fsw/src/fdir_manager.cpp:26-63 | the priorities of the table rank all faults strictly |
| `Fdir.PrimaryIgnoresOrder` | fsw/src/fdir_manager.cpp:65-90 | neither order nor repetition of the active faults matters |
| `Fdir.PrimaryOfPrimaries` | fsw/src/fdir_manager.cpp:65-90 | choosing in two rounds gives the same as choosing at once |
| `Fdir.FaultReaches` | fsw/src/fdir_manager.cpp:92-118 | from every mode, the mode every fault leads to; no fault leaves SAFE |
| `Fdir.MatrixHolds` | docs/FDIR_MATRIX.md:9-18 | the disposition table in the code is the published matrix, row by row, with latching and operator clearing by severity |
| `Fdir.MatrixComplete` | docs/FDIR_MATRIX.md:9-18 | the matrix has a row for every fault but NONE, which calls for nothing |
| `Fdir.ApplyFault` | fsw/src/fdir_manager.cpp:92-118 | new mode and report; an attempted response always succeeds and the fallback is used exactly when a degraded mode was asked for and SAFE reached |
| `Health.LastCriticalIsPrimary` | fsw/src/health_monitor.cpp:44-85 | the last critical check to fire is the highest-ranking by the FDIR priorities |
| `Health.RunChecks` | fsw/src/health_monitor.cpp:38-88 | the checks in their order leave the last critical fault to fire, else the first warning |
| `Health.EvaluateHealth` | fsw/src/health_monitor.cpp:38-88 | the overwritten report equals an order-free one: highest-ranking critical condition, else first warning |
| `WatchdogTimer.Watchdog.constructor` | fsw/src/watchdog.cpp:18-21 | starts with no kick and no miss |
| `WatchdogTimer.Watchdog.Kick` | fsw/src/watchdog.cpp:23-25 | records the time and nothing else |
| `WatchdogTimer.Watchdog.Evaluate` | fsw/src/watchdog.cpp:27-70 | new miss count and report, with a clock running backwards counted as no time |
| `WatchdogTimer.Watchdog.Reset` | fsw/src/watchdog.cpp:72-75 | restarts at the given time with no miss |
| `CommandProcessing.RecoverySupervisor.BeginSession` | fsw/src/recovery_supervisor.cpp:23-25 | clears the failed attempts |
| `CommandProcessing.RecoverySupervisor.RecordSuccess` | fsw/src/recovery_supervisor.cpp:27-40 | clears the failed attempts, unless misconfigured |
| `CommandProcessing.RecoverySupervisor.RecordFailure` | fsw/src/recovery_supervisor.cpp:42-70 | counts the failure and at the limit forces SAFE where the graph allows it |
| `CommandProcessing.CommandProcessor.Process` | fsw/src/command_processor.cpp:60-159 | mode, fault, attempts and result after any command |
| `CommandProcessing.CommandProcessor.ProcessSetMode` | fsw/src/command_processor.cpp:85-127 | the SET_MODE branch with its recovery bookkeeping |
| `CommandProcessing.RunIsBounded` | fsw/src/command_processor.cpp:94-127 | in every reachable state failed attempts are nonzero only in SAFE or RECOVERY, and in RECOVERY below the maximum, or zero when the maximum is |
| `CommandProcessing.EntryStartsAtZero` | fsw/src/command_processor.cpp:117-122 | every entry to RECOVERY, from whatever mode, starts at zero attempts |
| `CommandProcessing.AttemptsCountExits` | fsw/src/recovery_supervisor.cpp:42-70 | in RECOVERY the counter is the number of prohibited exits since entry, or zero when the maximum is |
| `CommandProcessing.LimitStrikesExactly` | fsw/src/command_processor.cpp:97-110 | REJECTED_RECOVERY_LIMIT occurs exactly on the maximum-th prohibited exit since entry and leaves SAFE |
| `CommandProcessing.IdleCommands` | fsw/src/command_processor.cpp:67-76 | NOOP and REQUEST_TELEMETRY are accepted and change nothing |
| `CommandProcessing.ClearFaultLaw` | fsw/src/command_processor.cpp:78-83 | CLEAR_FAULT is accepted and clears the fault and nothing else |
| `CommandProcessing.InjectFaultLaw` | fsw/src/command_processor.cpp:129-159 | INJECT_FAULT is accepted exactly if the low sixteen bits number a fault, which is then active, in the mode it leads to |
| `CommandProcessing.SetModeLaw` | fsw/src/command_processor.cpp:85-127 | SET_MODE never touches the fault, ends in the named mode if allowed, and otherwise stays or strikes the recovery limit |
| `CommandProcessing.FaultIsLastInjected` | fsw/src/command_processor.cpp:60-159 | over every run of commands the active fault is that of the last INJECT_FAULT naming one since the last CLEAR_FAULT, and NONE without one |
| `Authorizer.Authorize` | fsw/src/command_authorizer.cpp:28-90 | a command is refused exactly when its own permission is missing, or it asks for TEST, by the low byte of its argument, without leave |
| `Authorizer.OwnPermissions` | fsw/src/command_authorizer.cpp:28-90 | each command has a permission of its own, and TEST is asked for by low byte seven |
| `FlightApp.FlightSoftwareApp.constructor` | fsw/src/flight_software_app.cpp:26-56 | initial state of all parts, valid exactly for a valid configuration |
| `FlightApp.FlightSoftwareApp.Step` | fsw/src/flight_software_app.cpp:66-210 | whole new state, decision and telemetry of one step |
| `FlightApp.FlightSoftwareApp.Monitor` | fsw/src/flight_software_app.cpp:71-84 | first step starts the watchdog; reports of both monitors |
| `FlightApp.FlightSoftwareApp.HandleGround` | fsw/src/flight_software_app.cpp:86-156 | guard, authorizer and processor in order, and the echo of the last command |
| `FlightApp.FlightSoftwareApp.HandleInternal` | fsw/src/flight_software_app.cpp:158-191 | the primary internal fault is processed after the ground command and attributed to its monitor |
| `FlightApp.FlightSoftwareApp.RecordEvents` | fsw/src/flight_software_app.cpp:255-307 | at most three events: command, mode change, fault change, in that order |
| `AppRuns.PrimaryFaultIsFlat` | fsw/src/flight_software_app.cpp:158-174 | the fault acted on is the highest-ranking of all critical conditions of both monitors at once |
| `AppRuns.FaultHasLastWord` | fsw/src/flight_software_app.cpp:176-191 | whatever ground command shared the step, it ends with that fault active and in SAFE, or for CPU_OVERLOAD in DEGRADED_PAYLOAD or SAFE |
| `AppRuns.ProcessorFollowsTrace` | fsw/src/flight_software_app.cpp:86-191 | an application run is a run of its command processor on the admitted commands and internal faults |
| `AppRuns.ProcessedHasOrigin` | fsw/src/flight_software_app.cpp:86-191 | over every run each packet the command processor sees is the ground command of some step, accepted by guard and policy, or the injection of some step's primary fault |
| `AppRuns.AppRecoveryBounded` | fsw/src/command_processor.cpp:94-127 | bounded recovery holds in every state the application reaches |
| `AppRuns.AppLimitStrikesExactly` | fsw/src/command_processor.cpp:97-110 | in every application run REJECTED_RECOVERY_LIMIT meets exactly the admitted command that is the maximum-th prohibited exit since entry, and the step ends in SAFE |
| `AppRuns.SafeExitNeedsTwoCommands` | fsw/src/flight_software_app.cpp:86-191 | from SAFE to a mode outside SAFE and RECOVERY there are two distinct steps with accepted commands, SET_MODE RECOVERY and later SET_MODE STANDBY or NOMINAL |
| `AppRuns.BootOnlyAtStart` | fsw/src/mode_manager.cpp:41-87 | BOOT is never entered again |
| `AppRuns.TestModeNeedsPermission` | fsw/src/command_authorizer.cpp:28-90 | without the policy's leave no run reaches TEST, however the argument is encoded |
| `AppRuns.WatchdogCountsLoops` | fsw/src/watchdog.cpp:27-70 | over every run the watchdog's counter is the number of overlong loops modulo 2^32, and its last kick the last timestamp |
| `AppRuns.ExpiryEndsInSafe` | fsw/src/flight_software_app.cpp:158-191 | a step in which the watchdog expires ends in SAFE with the watchdog fault |
| `AppRuns.OverlongLoopsLatchSafe` | fsw/src/watchdog.cpp:55-60 | while the 32-bit count of overlong loops is three or more every step ends in SAFE, whatever the ground commands |
| `AppRuns.TelemetryCountsSteps` | fsw/src/flight_software_app.cpp:196-198 | telemetry numbers count steps modulo 2^32 |
| `AppReports.TelemetryTells` | fsw/src/flight_software_app.cpp:196-207 | over every run the packet of the last step: number of steps, mode and fault as the event history tells them, measurements of the last input, echo of the last ground command |
| `AppReports.StatusExactly` | fsw/src/flight_software_app.cpp:86-151 | each status of a ground command by its own condition: the guard, then the policy, then the processor |
| `AppReports.DefaultsTell` | fsw/src/flight_software_app.cpp:26-56 | the windows, permissions, recovery limit and log capacity of the default application, in figures |
| `AppReports.GroundAnswer` | fsw/src/flight_software_app.cpp:86-156 | the answer names the command, with the mode and fault it left, which a refusal leaves as they were |
| `AppReports.WatchdogTells` | fsw/src/flight_software_app.cpp:71-76 | the watchdog report of the next step of any run, measured from the step before, in figures |
| `AppReports.HealthTells` | fsw/src/flight_software_app.cpp:78-84 | the health report of a step, in figures |
| `AppReports.AttributionTells` | fsw/src/flight_software_app.cpp:158-191 | the fault is put down to the watchdog exactly when it expired, and to the health monitor when that alone is critical |
| `AppReports.FaultAnswer` | fsw/src/flight_software_app.cpp:176-191 | the internal fault is answered like an accepted command, with the mode and fault the step ends in |
| `AppReports.FaultTells` | fsw/src/command_processor.cpp:60-159 | the active fault of any application run is that of the last processed packet that set it |
| `AppRuns.RefusedCommandsDoNotInterfere` | fsw/src/flight_software_app.cpp:86-156 | dropping guard-refused commands and replacing unauthorized ones by NOOP leaves mode, fault, attempts, guard, watchdog and telemetry count the same after every step of the run |
| `AppRuns.GuardFollowsAttempts` | fsw/src/flight_software_app.cpp:86-92 | an application run is a run of its guard on the ground commands |
| `AppRuns.AppReplayWindow` | fsw/src/ground_command_guard.cpp:69-94 | in every application run a number once accepted is accepted again exactly when its timestamp is in the window and the counter has since advanced, modulo 2^32, by more than 2^31 |
| `AppHistory.HistoryTellsState` | fsw/src/flight_software_app.cpp:255-307 | following the MODE and FDIR events from (BOOT, NONE) gives the current mode and fault |
| `AppHistory.StepEventsTell` | fsw/src/flight_software_app.cpp:255-307 | the events of a step in full, with time, severity, source and code |
| `AppHistory.LogFollowsHistory` | fsw/src/flight_software_app.cpp:255-307 | the application's log is the log of its full event history |
| `AppHistory.SnapshotIsRecentHistory` | fsw/src/flight_software_app.cpp:220-226 | the event snapshot is the most recent part of that history |
| `AppHistory.SnapshotHolds` | fsw/src/flight_software_app.cpp:220-222 | the events of the snapshot are the last min(n, capacity) of the history, for every capacity |
| `AppHistory.SnapshotTells` | fsw/src/flight_software_app.cpp:255-307 | following the snapshot from any starting value gives the mode exactly if it holds a MODE event and the fault exactly if it holds an FDIR event, and otherwise keeps the starting value |
| `AppHistory.CompleteSnapshotTells` | fsw/src/flight_software_app.cpp:255-307 | while nothing has been dropped, following the snapshot from (BOOT, NONE) gives mode and fault |
| `AppHistory.LogCanForget` | fsw/src/event_logger.cpp:48-55 | for every capacity there is a run whose mode change has left the log |
| `EventLog.EventLogger.constructor` | fsw/src/event_logger.cpp:7-10 | starts empty |
| `EventLog.EventLogger.Log` | fsw/src/event_logger.cpp:28-57 | appends, or overwrites the oldest slot and counts a drop; returns the sequence number |
| `EventLog.EventLogger.TakeSnapshot` | fsw/src/event_logger.cpp:59-73 | the modular walk returns the records oldest first |
| `EventLog.EventLogger.Clear` | fsw/src/event_logger.cpp:75-79 | empties the ring as the source does |
| `EventLog.RingRefinesList` | fsw/src/event_logger.cpp:28-79 | after any run the snapshot is the last min(n, capacity) records since the last clear |
| `EventLog.NoCapacityKeepsNothing` | fsw/src/event_logger.cpp:28-57 | a log of capacity zero stays empty and neither numbers nor counts anything |
| `EventLog.SequencesConsecutive` | fsw/src/event_logger.cpp:28-57 | those records carry consecutive sequence numbers |
| `EventLog.NumbersCountLogs` | fsw/src/event_logger.cpp:28-57 | numbers start at one and count every event logged, over all clears |
| `Configuration.Validate` | fsw/src/configuration_service.cpp:109-167 | valid exactly when every condition holds, stated without order |
| `Configuration.ValidateRateGroup` | fsw/src/configuration_service.cpp:16-36 | valid exactly when period, phase and deadline are consistent; names the group otherwise |
| `Configuration.FirstWrongFieldNamed` | fsw/src/configuration_service.cpp:109-167 | the field named is the first wrong one in the order of the checks |
| `Configuration.FlawNamed` | fsw/src/configuration_service.cpp:16-36 | the flaw named in a rate group, each by its own condition |
| `Configuration.DefaultValidates` | fsw/src/configuration_service.cpp:109-167 | the default configuration validates |
| `Configuration.ValidatesIffExecutiveValid` | fsw/src/configuration_service.cpp:109-167 | validating is a valid executive configuration plus schema, revision and log bounds |
| `Configuration.ExecutiveValidExactly` | fsw/src/flight_software_executive.cpp:13-15 | the conditions on an executive, spelled out |
| `Configuration.BuildExecutive` | fsw/src/flight_software_executive.cpp:7-15 | a configuration that validates builds an executive that is valid |
| `Configuration.ConfigurationService.constructor` | fsw/src/configuration_service.cpp:39-45 | keeps the initial configuration with the verdict on it, unlocked |
| `Configuration.ConfigurationService.Apply` | fsw/src/configuration_service.cpp:62-99 | status, revisions, validation and new state; only an acceptance changes anything |
| `Configuration.ConfigurationService.Lock` | fsw/src/configuration_service.cpp:101-107 | locks a valid service once |
| `Configuration.ValidFlagIsTrue` | fsw/src/configuration_service.cpp:62-107 | over every run the valid flag says whether the active configuration validates, and a valid one builds a valid executive |
| `Configuration.RevisionsGrow` | fsw/src/configuration_service.cpp:62-99 | over every run the revision never falls and equal revisions mean the same configuration |
| `Configuration.AcceptanceRaises` | fsw/src/configuration_service.cpp:94-98 | an accepted replacement is active next, with a revision above every earlier one |
| `Configuration.OneAcceptancePerRevision` | fsw/src/configuration_service.cpp:75-83 | no two accepted replacements of a run expect the same revision |
| `Configuration.AnswersExactly` | fsw/src/configuration_service.cpp:62-99 | each answer by its own condition: lock, conflict, revision, schema, value |
| `Configuration.OnlyAcceptanceReplaces` | fsw/src/configuration_service.cpp:94-98 | nothing but an acceptance changes the active configuration |
| `Configuration.LockedExactly` | fsw/src/configuration_service.cpp:101-107 | the service is locked exactly if a lock was asked for while the active configuration was valid |
| `Configuration.LockFreezes` | fsw/src/configuration_service.cpp:70-73 | once locked the service never changes and accepts nothing |

## Left out

- ErrorDetection.BurstsDetected: says nothing of bursts that reach into the CRC field, which is stored low byte first; `ErrorDetection.FourErrorsCanHide` gives one that passes.
- EventLog.RingRefinesList: asks for a capacity above zero, because a log without one counts no drops and gives no numbers; `EventLog.NoCapacityKeepsNothing` covers that case.
- AppHistory.SnapshotIsRecentHistory: asks for a capacity above zero for the same reason; `AppHistory.SnapshotHolds` does not.
- Campaign.RunCampaign: does not model the sample buffer, whose reservation of one sample per tick fails in practice long before the last ticks.
- ErrorDetection.FewErrorsDetected: is stated for strings up to the length of a telemetry packet, the longest the system sends.
- Floating point: telemetry carries loads as raw 32-bit words, and the health monitor compares loads as real numbers or not-a-number; rounding is not modelled.
- Enumerators outside their declared range in an in-memory command packet (REJECTED_UNKNOWN_COMMAND): the decoder produces none.
- Message texts, validation error strings and the `*_to_string` functions, except the names of modes, faults, commands and statuses; events keep time, severity, source and code.
- `ModeManager::handle_fault`: an older path that the command processor does not use.
- Percentiles, JSON and measured nanoseconds of the timing campaign, its option parsing beyond the two refusals, and its output file.
- The clock default of the timestamp, the option parser and the socket in tools/send_command.py.
- UDP receiver and sender, the demonstration programs and `main.cpp`: sockets, sleeps and wall clock.
- The scenario, campaign, assurance, manifest and plotting scripts in tools/, tools/telemetry_dashboard.py and the site: reporting and user interface.
- C++ object lifetime and copying of the scheduler and logger objects.
