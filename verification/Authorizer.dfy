/** The command authorizer: a fixed policy on command identifiers and the TEST mode. */
module Authorizer {
  import opened Words
  import opened FlightModes
  import opened CommandPackets

  datatype Policy = Policy(
    allowNoop: bool, allowSetMode: bool, allowFaultInjection: bool, allowTelemetryRequest: bool,
    allowFaultClear: bool, allowTestMode: bool)

  const PERMISSIVE := Policy(true, true, true, true, true, true)

  datatype Verdict = Authorized | RejectedCommand | RejectedArgument

  /** The commands the policy lets through, each by its own permission. */
  function Permitted(policy: Policy): set<CommandId> {
    (if policy.allowNoop then {Noop} else {}) +
    (if policy.allowSetMode then {SetMode} else {}) +
    (if policy.allowFaultInjection then {InjectFault} else {}) +
    (if policy.allowTelemetryRequest then {RequestTelemetry} else {}) +
    (if policy.allowFaultClear then {ClearFault} else {})
  }

  /** The command asks for the TEST mode, judged as the processor will judge it: by the low
      byte of the argument. */
  predicate AsksForTest(p: CommandPacket) {
    p.commandId.SetMode? && p.argument % U8_SPAN == ModeNumber(Test)
  }

  function Authorize(policy: Policy, p: CommandPacket): (v: Verdict)
    ensures v.RejectedCommand? <==> p.commandId !in Permitted(policy)
    ensures v.Authorized? <==> p.commandId in Permitted(policy) && (AsksForTest(p) ==> policy.allowTestMode)
  {
    match p.commandId
    case Noop => if policy.allowNoop then Authorized else RejectedCommand
    case SetMode =>
      if !policy.allowSetMode then RejectedCommand
      else if ArgumentToMode(p.argument) == Some(Test) && !policy.allowTestMode then RejectedArgument
      else Authorized
    case InjectFault => if policy.allowFaultInjection then Authorized else RejectedCommand
    case RequestTelemetry => if policy.allowTelemetryRequest then Authorized else RejectedCommand
    case ClearFault => if policy.allowFaultClear then Authorized else RejectedCommand
  }

  /** Each command has a permission of its own, and TEST is mode number seven. */
  lemma {:induction false} OwnPermissions(policy: Policy, p: CommandPacket)
    ensures (Noop in Permitted(policy) <==> policy.allowNoop) &&
            (SetMode in Permitted(policy) <==> policy.allowSetMode) &&
            (InjectFault in Permitted(policy) <==> policy.allowFaultInjection) &&
            (RequestTelemetry in Permitted(policy) <==> policy.allowTelemetryRequest) &&
            (ClearFault in Permitted(policy) <==> policy.allowFaultClear)
    ensures AsksForTest(p) <==> p.commandId == SetMode && p.argument % 256 == 7
  {
  }
}
