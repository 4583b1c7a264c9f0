/** The configuration service: one active configuration, replaced by compare-and-set on its
    revision until it is locked. */
module Configuration {
  import opened Words
  import opened Scheduler
  import opened FlightApp
  import opened Executive
  import Guard = GroundGuard

  const SCHEMA_VERSION: u32 := 1

  datatype SystemConfiguration = SystemConfiguration(schemaVersion: u32, revision: u64, executive: ExecutiveConfig)

  // ---- Validation ----

  /** The field a validation names, `NoField` for a valid configuration. */
  datatype Field =
    | NoField
    | SchemaVersion
    | Revision
    | EventLogCapacity
    | GuardMaximumAge
    | GuardMaximumFutureSkew
    | RecoveryMaximumFailedAttempts
    | FlightRateGroup
    | HousekeepingRateGroup

  datatype RateGroupFlaw = ZeroPeriod | PhaseTooLarge | ZeroDeadline | DeadlineTooLarge

  datatype Validation = Validation(valid: bool, field: Field, flaw: Option<RateGroupFlaw>)

  const NO_VALIDATION := Validation(false, NoField, None)

  predicate TimingOk(period: u32, phase: u32, deadline: u32) {
    period != 0 && phase < period && 1 <= deadline <= period
  }

  /** Every condition a valid configuration meets, in no order. */
  predicate Acceptable(c: SystemConfiguration) {
    var app := c.executive.app;
    c.schemaVersion == SCHEMA_VERSION && c.revision > 0 && 16 <= app.eventLogCapacity <= 4096 &&
    Guard.GuardConfigOk(app.guard) && app.maximumFailedAttempts > 0 &&
    TimingOk(c.executive.flightPeriod, c.executive.flightPhase, c.executive.flightDeadline) &&
    TimingOk(c.executive.housekeepingPeriod, c.executive.housekeepingPhase, c.executive.housekeepingDeadline)
  }

  function ValidateRateGroup(field: Field, period: u32, phase: u32, deadline: u32): (v: Validation)
    ensures v.valid <==> TimingOk(period, phase, deadline)
    ensures !v.valid ==> v.field == field && v.flaw.Some?
  {
    if period == 0 then Validation(false, field, Some(ZeroPeriod))
    else if phase >= period then Validation(false, field, Some(PhaseTooLarge))
    else if deadline == 0 then Validation(false, field, Some(ZeroDeadline))
    else if deadline > period then Validation(false, field, Some(DeadlineTooLarge))
    else Validation(true, NoField, None)
  }

  /** The order in which the fields are checked. */
  function Rank(field: Field): nat {
    match field
    case SchemaVersion => 0
    case Revision => 1
    case EventLogCapacity => 2
    case GuardMaximumAge => 3
    case GuardMaximumFutureSkew => 4
    case RecoveryMaximumFailedAttempts => 5
    case FlightRateGroup => 6
    case HousekeepingRateGroup => 7
    case NoField => 8
  }

  /** What a valid configuration has to say in each field. */
  predicate FieldOk(c: SystemConfiguration, field: Field) {
    var executive := c.executive;
    match field
    case NoField => true
    case SchemaVersion => c.schemaVersion == SCHEMA_VERSION
    case Revision => c.revision > 0
    case EventLogCapacity => 16 <= executive.app.eventLogCapacity <= 4096
    case GuardMaximumAge => executive.app.guard.maximumAgeMs != U64_MAX
    case GuardMaximumFutureSkew => executive.app.guard.maximumFutureSkewMs != U64_MAX
    case RecoveryMaximumFailedAttempts => executive.app.maximumFailedAttempts > 0
    case FlightRateGroup => TimingOk(executive.flightPeriod, executive.flightPhase, executive.flightDeadline)
    case HousekeepingRateGroup =>
      TimingOk(executive.housekeepingPeriod, executive.housekeepingPhase, executive.housekeepingDeadline)
  }

  lemma {:induction false} EarlierFieldsOk(c: SystemConfiguration, field: Field)
    ensures Rank(field) < Rank(Validate(c).field) ==> FieldOk(c, field)
    ensures Validate(c).field == field && !Validate(c).valid ==> !FieldOk(c, field)
  {
  }

  /** The field named is the first wrong one in the order of the checks, and no field is
      named exactly when none is wrong. */
  lemma {:induction false} FirstWrongFieldNamed(c: SystemConfiguration, field: Field)
    ensures Validate(c).field == field <==>
            (field == NoField || !FieldOk(c, field)) && forall g :: Rank(g) < Rank(field) ==> FieldOk(c, g)
  {
    var named := Validate(c).field;
    EarlierFieldsOk(c, named);
    EarlierFieldsOk(c, field);
    forall g | Rank(g) < Rank(named)
      ensures FieldOk(c, g)
    {
      EarlierFieldsOk(c, g);
    }
  }

  /** `validate_configuration`: the first field found wrong, if any is. */
  function Validate(c: SystemConfiguration): (v: Validation)
    ensures v.valid <==> Acceptable(c)
    ensures v.field == SchemaVersion <==> c.schemaVersion != SCHEMA_VERSION
    ensures v.valid <==> v.field == NoField
  {
    var app, executive := c.executive.app, c.executive;
    if c.schemaVersion != SCHEMA_VERSION then Validation(false, SchemaVersion, None)
    else if c.revision == 0 then Validation(false, Revision, None)
    else if app.eventLogCapacity < 16 || app.eventLogCapacity > 4096 then Validation(false, EventLogCapacity, None)
    else if app.guard.maximumAgeMs == U64_MAX then Validation(false, GuardMaximumAge, None)
    else if app.guard.maximumFutureSkewMs == U64_MAX then Validation(false, GuardMaximumFutureSkew, None)
    else if app.maximumFailedAttempts == 0 then Validation(false, RecoveryMaximumFailedAttempts, None)
    else
      var flight := ValidateRateGroup(
        FlightRateGroup, executive.flightPeriod, executive.flightPhase, executive.flightDeadline);
      if !flight.valid then flight
      else
        ValidateRateGroup(HousekeepingRateGroup, executive.housekeepingPeriod, executive.housekeepingPhase,
                          executive.housekeepingDeadline)
  }

  /** The default configuration validates. */
  lemma {:induction false} DefaultValidates()
    ensures Validate(SystemConfiguration(1, 1, DEFAULT_EXECUTIVE)).valid
  {
  }

  /** The flaw named in a rate group. */
  lemma {:induction false} FlawNamed(field: Field, period: u32, phase: u32, deadline: u32)
    ensures var flaw := ValidateRateGroup(field, period, phase, deadline).flaw;
            (flaw == Some(ZeroPeriod) <==> period == 0) &&
            (flaw == Some(PhaseTooLarge) <==> 0 < period <= phase) &&
            (flaw == Some(ZeroDeadline) <==> phase < period && deadline == 0) &&
            (flaw == Some(DeadlineTooLarge) <==> phase < period < deadline) &&
            (flaw == None <==> phase < period && 0 < deadline <= period)
  {
  }

  /** The configurations that validate are those from which a valid executive is built, with
      the schema, the revision and the bounds of the event log added. */
  lemma {:induction false} ValidatesIffExecutiveValid(c: SystemConfiguration)
    ensures Validate(c).valid <==>
            c.schemaVersion == SCHEMA_VERSION && c.revision > 0 &&
            16 <= c.executive.app.eventLogCapacity <= 4096 && ExecutiveConfigOk(c.executive)
  {
    var groups := SchedulerConfiguration(c.executive);
    if ExecutiveConfigOk(c.executive) {
      assert RateGroupOk(groups[0]) && RateGroupOk(groups[1]);
    }
  }

  /** The conditions on an executive, spelled out. */
  lemma {:induction false} ExecutiveValidExactly(c: ExecutiveConfig)
    ensures ExecutiveConfigOk(c) <==>
            c.app.maximumFailedAttempts > 0 && c.app.eventLogCapacity > 0 &&
            c.app.guard.maximumAgeMs < U64_MAX && c.app.guard.maximumFutureSkewMs < U64_MAX &&
            c.flightPhase < c.flightPeriod && 0 < c.flightDeadline <= c.flightPeriod &&
            c.housekeepingPhase < c.housekeepingPeriod && 0 < c.housekeepingDeadline <= c.housekeepingPeriod
  {
    var groups := SchedulerConfiguration(c);
    if ExecutiveConfigOk(c) {
      assert RateGroupOk(groups[0]) && RateGroupOk(groups[1]);
    }
  }

  /** A valid configuration starts a valid executive. */
  method BuildExecutive(c: SystemConfiguration) returns (executive: FlightSoftwareExecutive)
    ensures executive.Valid() && executive.View() == InitialExecutive(c.executive)
    ensures Validate(c).valid ==> executive.scheduler.valid && executive.app.valid
  {
    executive := new FlightSoftwareExecutive(c.executive);
    ValidatesIffExecutiveValid(c);
  }

  // ---- The service ----

  datatype ApplyStatus =
    | Accepted
    | RejectedInvalidSchema
    | RejectedInvalidValue
    | RejectedRevisionConflict
    | RejectedNonMonotonicRevision
    | RejectedLocked

  datatype ApplyResult = ApplyResult(
    status: ApplyStatus, previousRevision: u64, activeRevision: u64, validation: Validation)

  datatype ServiceState = ServiceState(active: SystemConfiguration, valid: bool, locked: bool)

  function InitialService(c: SystemConfiguration): ServiceState {
    ServiceState(c, Validate(c).valid, false)
  }

  function StatusOf(s: ServiceState, candidate: SystemConfiguration, expected: u64): ApplyStatus {
    if s.locked then RejectedLocked
    else if expected != s.active.revision then RejectedRevisionConflict
    else if candidate.revision <= s.active.revision then RejectedNonMonotonicRevision
    else if Acceptable(candidate) then Accepted
    else if candidate.schemaVersion != SCHEMA_VERSION then RejectedInvalidSchema
    else RejectedInvalidValue
  }

  function AfterApply(s: ServiceState, candidate: SystemConfiguration, expected: u64): ServiceState {
    if StatusOf(s, candidate, expected).Accepted? then s.(active := candidate, valid := true) else s
  }

  function AfterLock(s: ServiceState): ServiceState {
    if s.valid then s.(locked := true) else s
  }

  class ConfigurationService {
    const initialValidation: Validation
    var active: SystemConfiguration
    var valid: bool
    var locked: bool

    ghost function View(): ServiceState
      reads this
    {
      ServiceState(active, valid, locked)
    }

    constructor (initial: SystemConfiguration)
      ensures View() == InitialService(initial) && initialValidation == Validate(initial)
    {
      initialValidation := Validate(initial);
      active, valid, locked := initial, Validate(initial).valid, false;
    }

    method Apply(candidate: SystemConfiguration, expected: u64) returns (result: ApplyResult)
      modifies this
      ensures View() == AfterApply(old(View()), candidate, expected)
      ensures result.status == StatusOf(old(View()), candidate, expected)
      ensures result.previousRevision == old(active.revision) && result.activeRevision == active.revision
      ensures result.validation ==
              if result.status in {RejectedLocked, RejectedRevisionConflict, RejectedNonMonotonicRevision}
              then NO_VALIDATION else Validate(candidate)
    {
      result := ApplyResult(RejectedInvalidValue, active.revision, active.revision, NO_VALIDATION);
      if locked {
        return result.(status := RejectedLocked);
      }
      if expected != active.revision {
        return result.(status := RejectedRevisionConflict);
      }
      if candidate.revision <= active.revision {
        return result.(status := RejectedNonMonotonicRevision);
      }
      result := result.(validation := Validate(candidate));
      if !result.validation.valid {
        return result.(status := if candidate.schemaVersion != SCHEMA_VERSION
                                 then RejectedInvalidSchema else RejectedInvalidValue);
      }
      active, valid := candidate, true;
      return result.(status := Accepted, activeRevision := active.revision);
    }

    method Lock() returns (ok: bool)
      modifies this
      ensures View() == AfterLock(old(View()))
      ensures ok <==> locked && !old(locked)
    {
      if !valid || locked {
        return false;
      }
      locked := true;
      return true;
    }
  }

  /** Every answer of the service, each by its own condition: a lock hides all else, then a
      conflict, then a revision that does not grow, and only then is the candidate looked at. */
  lemma {:induction false} AnswersExactly(s: ServiceState, candidate: SystemConfiguration, expected: u64)
    ensures var status := StatusOf(s, candidate, expected);
            var current := !s.locked && expected == s.active.revision;
            var newer := current && candidate.revision > s.active.revision;
            (status == RejectedLocked <==> s.locked) &&
            (status == RejectedRevisionConflict <==> !s.locked && expected != s.active.revision) &&
            (status == RejectedNonMonotonicRevision <==> current && candidate.revision <= s.active.revision) &&
            (status == RejectedInvalidSchema <==> newer && candidate.schemaVersion != 1) &&
            (status == RejectedInvalidValue <==>
              newer && candidate.schemaVersion == 1 && !Validate(candidate).valid) &&
            (status == Accepted <==> newer && Validate(candidate).valid)
  {
  }

  // ---- Runs ----

  datatype Request = Apply(candidate: SystemConfiguration, expected: u64) | Lock

  function Handle(s: ServiceState, r: Request): ServiceState {
    match r
    case Apply(candidate, expected) => AfterApply(s, candidate, expected)
    case Lock => AfterLock(s)
  }

  function Run(initial: SystemConfiguration, requests: seq<Request>): ServiceState
    decreases |requests|
  {
    if requests == [] then InitialService(initial)
    else Handle(Run(initial, requests[..|requests| - 1]), requests[|requests| - 1])
  }

  /** Request `i` of the run is an accepted replacement. */
  predicate AcceptedAt(initial: SystemConfiguration, requests: seq<Request>, i: nat)
    requires i < |requests|
  {
    requests[i].Apply? &&
    StatusOf(Run(initial, requests[..i]), requests[i].candidate, requests[i].expected).Accepted?
  }

  /** Whatever the requests, the valid flag tells whether the active configuration validates,
      only a valid configuration is ever locked, and the lock of a service means that an
      executive built from it is valid. */
  lemma {:induction false} ValidFlagIsTrue(initial: SystemConfiguration, requests: seq<Request>)
    ensures var s := Run(initial, requests);
            (s.valid <==> Validate(s.active).valid) && (s.locked ==> s.valid) &&
            (s.valid ==> ExecutiveConfigOk(s.active.executive))
    decreases |requests|
  {
    if requests == [] {
    } else {
      ValidFlagIsTrue(initial, requests[..|requests| - 1]);
    }
    ValidatesIffExecutiveValid(Run(initial, requests).active);
  }

  /** From one moment of a run to a later one the revision never falls, it is equal only if
      the configuration is the same, and validity is not lost. */
  lemma {:induction false} RevisionsGrow(initial: SystemConfiguration, requests: seq<Request>, i: nat, j: nat)
    requires i <= j <= |requests|
    ensures var s, t := Run(initial, requests[..i]), Run(initial, requests[..j]);
            s.active.revision <= t.active.revision &&
            (s.active.revision == t.active.revision ==> s.active == t.active) &&
            (s.valid ==> t.valid)
    decreases j - i
  {
    if i == j {
    } else {
      RevisionsGrow(initial, requests, i, j - 1);
      assert requests[..j][..j - 1] == requests[..j - 1];
    }
  }

  /** An accepted replacement raises the revision above that of every earlier moment. */
  lemma {:induction false} AcceptanceRaises(initial: SystemConfiguration, requests: seq<Request>, i: nat, j: nat)
    requires i <= j < |requests| && AcceptedAt(initial, requests, j)
    ensures Run(initial, requests[..i]).active.revision < Run(initial, requests[..j + 1]).active.revision
    ensures Run(initial, requests[..j + 1]).active == requests[j].candidate
  {
    RevisionsGrow(initial, requests, i, j);
    assert requests[..j + 1][..j] == requests[..j];
  }

  /** Two accepted replacements never expect the same revision. */
  lemma {:induction false} OneAcceptancePerRevision(
    initial: SystemConfiguration, requests: seq<Request>, i: nat, j: nat)
    requires i < j < |requests| && AcceptedAt(initial, requests, i) && AcceptedAt(initial, requests, j)
    ensures requests[i].expected < requests[j].expected
  {
    AcceptanceRaises(initial, requests, i, i);
    RevisionsGrow(initial, requests, i + 1, j);
  }

  /** Once locked, the service never changes again and refuses every replacement. */
  lemma {:induction false} LockFreezes(initial: SystemConfiguration, requests: seq<Request>, i: nat, j: nat)
    requires i <= j <= |requests| && Run(initial, requests[..i]).locked
    ensures Run(initial, requests[..j]) == Run(initial, requests[..i])
    ensures j < |requests| ==> !AcceptedAt(initial, requests, j)
    decreases j - i
  {
    if i == j {
    } else {
      LockFreezes(initial, requests, i, j - 1);
      assert requests[..j][..j - 1] == requests[..j - 1];
    }
  }

  /** Nothing but an accepted replacement changes the active configuration. */
  lemma {:induction false} OnlyAcceptanceReplaces(initial: SystemConfiguration, requests: seq<Request>, j: nat)
    requires j < |requests| && !AcceptedAt(initial, requests, j)
    ensures Run(initial, requests[..j + 1]).active == Run(initial, requests[..j]).active
  {
    assert requests[..j + 1][..j] == requests[..j];
  }

  /** Request `k` of the run asks for a lock while the active configuration is valid. */
  predicate ValidLockAt(initial: SystemConfiguration, requests: seq<Request>, k: nat)
    requires k < |requests|
  {
    requests[k].Lock? && Validate(Run(initial, requests[..k]).active).valid
  }

  lemma {:induction false} LockNext(initial: SystemConfiguration, requests: seq<Request>, j: nat)
    requires j < |requests|
    ensures Run(initial, requests[..j + 1]).locked <==>
            Run(initial, requests[..j]).locked || ValidLockAt(initial, requests, j)
  {
    assert requests[..j + 1][..j] == requests[..j];
    ValidFlagIsTrue(initial, requests[..j]);
  }

  /** The service is locked exactly if a lock was asked for while the configuration then
      active was valid. */
  lemma {:induction false} LockedExactly(initial: SystemConfiguration, requests: seq<Request>, j: nat)
    requires j <= |requests|
    ensures Run(initial, requests[..j]).locked <==> exists k :: 0 <= k < j && ValidLockAt(initial, requests, k)
    decreases j
  {
    if j == 0 {
    } else {
      LockedExactly(initial, requests, j - 1);
      LockNext(initial, requests, j - 1);
    }
  }
}
