/** The ground command guard: freshness of the timestamp, then 32-bit serial number order. */
module GroundGuard {
  import opened Words

  const SERIAL_HALF_RANGE := 0x8000_0000

  datatype GuardConfig = GuardConfig(maximumAgeMs: u64, maximumFutureSkewMs: u64)

  datatype GuardState = GuardState(initialized: bool, highest: u32)

  datatype GuardStatus =
    | Accepted
    | DuplicateSequence
    | ReplayedSequence
    | StaleTimestamp
    | FutureTimestamp
    | GuardMisconfigured

  datatype GuardResult = GuardResult(
    status: GuardStatus, sequenceConsumed: bool, initialized: bool, highest: u32, ageMs: u64, futureSkewMs: u64)

  const UNUSED_GUARD := GuardState(false, 0)

  predicate GuardConfigOk(c: GuardConfig) {
    c.maximumAgeMs != U64_MAX && c.maximumFutureSkewMs != U64_MAX
  }

  /** `candidate - reference` on 32-bit words. */
  function Forward(candidate: u32, reference: u32): u32 {
    (candidate - reference) % U32_SPAN
  }

  predicate SequenceIsNewer(candidate: u32, reference: u32) {
    Forward(candidate, reference) != 0 && Forward(candidate, reference) < SERIAL_HALF_RANGE
  }

  /** "Greater than" for serial numbers of 32 bits, section 3.2 of RFC 1982. */
  predicate SerialGreater(i1: u32, i2: u32) {
    i1 != i2 && ((i1 < i2 && i2 - i1 > 0x8000_0000) || (i1 > i2 && i1 - i2 < 0x8000_0000))
  }

  lemma {:induction false} AgreesWithRfc1982(candidate: u32, reference: u32)
    ensures SequenceIsNewer(candidate, reference) <==> SerialGreater(candidate, reference)
  {
    if candidate < reference {
      assert Forward(candidate, reference) == candidate - reference + U32_SPAN;
    } else {
      assert Forward(candidate, reference) == candidate - reference;
    }
  }

  predicate Fresh(c: GuardConfig, timestampMs: u64, nowMs: u64) {
    if timestampMs > nowMs then timestampMs - nowMs <= c.maximumFutureSkewMs
    else nowMs - timestampMs <= c.maximumAgeMs
  }

  /** The closed window of timestamps the guard takes at `nowMs`. */
  predicate InWindow(c: GuardConfig, timestampMs: u64, nowMs: u64) {
    nowMs <= timestampMs + c.maximumAgeMs && timestampMs <= nowMs + c.maximumFutureSkewMs
  }

  /** Acceptance, stated on its own: bounded windows, a timestamp in them, a newer number. */
  predicate Admits(c: GuardConfig, g: GuardState, sequence: u32, timestampMs: u64, nowMs: u64) {
    c.maximumAgeMs < U64_MAX && c.maximumFutureSkewMs < U64_MAX && InWindow(c, timestampMs, nowMs) &&
    (g.initialized ==> SerialGreater(sequence, g.highest))
  }

  function Judge(c: GuardConfig, g: GuardState, sequence: u32, timestampMs: u64, nowMs: u64): GuardStatus {
    if !GuardConfigOk(c) then GuardMisconfigured
    else if !Fresh(c, timestampMs, nowMs) then if timestampMs > nowMs then FutureTimestamp else StaleTimestamp
    else if g.initialized && sequence == g.highest then DuplicateSequence
    else if g.initialized && !SequenceIsNewer(sequence, g.highest) then ReplayedSequence
    else Accepted
  }

  function AfterJudging(c: GuardConfig, g: GuardState, sequence: u32, timestampMs: u64, nowMs: u64): GuardState {
    if Judge(c, g, sequence, timestampMs, nowMs).Accepted? then GuardState(true, sequence) else g
  }

  lemma {:induction false} AcceptedIffAdmitted(
    c: GuardConfig, g: GuardState, sequence: u32, timestampMs: u64, nowMs: u64)
    ensures Judge(c, g, sequence, timestampMs, nowMs).Accepted? <==> Admits(c, g, sequence, timestampMs, nowMs)
  {
    AgreesWithRfc1982(sequence, g.highest);
  }

  /** Every verdict of the guard, each by its own condition. */
  lemma {:induction false} VerdictsExactly(c: GuardConfig, g: GuardState, sequence: u32, timestampMs: u64, nowMs: u64)
    ensures var verdict := Judge(c, g, sequence, timestampMs, nowMs);
            var bounded := c.maximumAgeMs < U64_MAX && c.maximumFutureSkewMs < U64_MAX;
            var known := bounded && InWindow(c, timestampMs, nowMs) && g.initialized;
            (verdict == GuardMisconfigured <==> !bounded) &&
            (verdict == StaleTimestamp <==> bounded && timestampMs + c.maximumAgeMs < nowMs) &&
            (verdict == FutureTimestamp <==> bounded && timestampMs > nowMs + c.maximumFutureSkewMs) &&
            (verdict == DuplicateSequence <==> known && sequence == g.highest) &&
            (verdict == ReplayedSequence <==>
              known && sequence != g.highest && !SerialGreater(sequence, g.highest)) &&
            (verdict == Accepted <==> Admits(c, g, sequence, timestampMs, nowMs))
  {
    AgreesWithRfc1982(sequence, g.highest);
  }

  /** What the guard reports: age and skew of the timestamp, and the state it leaves, which
      only an acceptance changes. */
  lemma {:induction false} ResultTells(c: GuardConfig, g: GuardState, sequence: u32, timestampMs: u64, nowMs: u64)
    ensures var r := ResultOf(c, g, sequence, timestampMs, nowMs);
            var accepted := Admits(c, g, sequence, timestampMs, nowMs);
            r.status == Judge(c, g, sequence, timestampMs, nowMs) &&
            (r.sequenceConsumed <==> accepted) && (r.initialized <==> g.initialized || accepted) &&
            r.highest == (if accepted then sequence else g.highest) &&
            AfterJudging(c, g, sequence, timestampMs, nowMs) == GuardState(r.initialized, r.highest) &&
            (r.status != GuardMisconfigured ==> timestampMs + r.ageMs == nowMs + r.futureSkewMs) &&
            (r.ageMs == 0 || r.futureSkewMs == 0) &&
            (r.status == GuardMisconfigured ==> r.ageMs == r.futureSkewMs == 0)
  {
    VerdictsExactly(c, g, sequence, timestampMs, nowMs);
  }

  function ResultOf(c: GuardConfig, g: GuardState, sequence: u32, timestampMs: u64, nowMs: u64): GuardResult {
    var status := Judge(c, g, sequence, timestampMs, nowMs);
    var after := AfterJudging(c, g, sequence, timestampMs, nowMs);
    GuardResult(status, status.Accepted?, after.initialized, after.highest,
                if !status.GuardMisconfigured? && timestampMs <= nowMs then nowMs - timestampMs else 0,
                if !status.GuardMisconfigured? && timestampMs > nowMs then timestampMs - nowMs else 0)
  }

  class GroundCommandGuard {
    const configuration: GuardConfig
    const valid: bool
    var initialized: bool
    var highest: u32

    ghost function View(): GuardState
      reads this
    {
      GuardState(initialized, highest)
    }

    ghost predicate Valid() {
      valid <==> GuardConfigOk(configuration)
    }

    constructor (configuration: GuardConfig)
      ensures Valid() && this.configuration == configuration && View() == UNUSED_GUARD
    {
      this.configuration := configuration;
      valid := configuration.maximumAgeMs != U64_MAX && configuration.maximumFutureSkewMs != U64_MAX;
      initialized, highest := false, 0;
    }

    method Evaluate(sequence: u32, timestampMs: u64, nowMs: u64) returns (result: GuardResult)
      requires Valid()
      modifies this
      ensures View() == AfterJudging(configuration, old(View()), sequence, timestampMs, nowMs)
      ensures result == ResultOf(configuration, old(View()), sequence, timestampMs, nowMs)
    {
      result := GuardResult(Accepted, false, initialized, highest, 0, 0);
      if !valid {
        return result.(status := GuardMisconfigured);
      }
      if timestampMs > nowMs {
        result := result.(futureSkewMs := timestampMs - nowMs);
        if result.futureSkewMs > configuration.maximumFutureSkewMs {
          return result.(status := FutureTimestamp);
        }
      } else {
        result := result.(ageMs := nowMs - timestampMs);
        if result.ageMs > configuration.maximumAgeMs {
          return result.(status := StaleTimestamp);
        }
      }
      if !initialized {
        initialized, highest := true, sequence;
        return result.(sequenceConsumed := true, initialized := true, highest := highest);
      }
      if sequence == highest {
        return result.(status := DuplicateSequence);
      }
      if !SequenceIsNewer(sequence, highest) {
        return result.(status := ReplayedSequence);
      }
      highest := sequence;
      return result.(sequenceConsumed := true, initialized := true, highest := highest);
    }
  }

  // ---- Runs of the guard ----

  datatype Attempt = Attempt(sequence: u32, timestampMs: u64, nowMs: u64)

  function Next(c: GuardConfig, g: GuardState, a: Attempt): GuardState {
    AfterJudging(c, g, a.sequence, a.timestampMs, a.nowMs)
  }

  predicate Accepts(c: GuardConfig, g: GuardState, a: Attempt) {
    Judge(c, g, a.sequence, a.timestampMs, a.nowMs).Accepted?
  }

  function Run(c: GuardConfig, attempts: seq<Attempt>): GuardState
    decreases |attempts|
  {
    if attempts == [] then UNUSED_GUARD
    else Next(c, Run(c, attempts[..|attempts| - 1]), attempts[|attempts| - 1])
  }

  /** Whether attempt `i` of the run is accepted. */
  predicate AcceptedAt(c: GuardConfig, attempts: seq<Attempt>, i: nat)
    requires i < |attempts|
  {
    Accepts(c, Run(c, attempts[..i]), attempts[i])
  }

  /** The accepted numbers laid out on an unbounded counter: the first acceptance starts it,
      and every later one moves it by the distance between the two numbers. */
  function Position(c: GuardConfig, attempts: seq<Attempt>): nat
    decreases |attempts|
  {
    if attempts == [] then 0
    else
      var n := |attempts| - 1;
      var g, a := Run(c, attempts[..n]), attempts[n];
      if !Accepts(c, g, a) then Position(c, attempts[..n])
      else if !g.initialized then a.sequence
      else Position(c, attempts[..n]) + Forward(a.sequence, g.highest)
  }

  function Acceptances(c: GuardConfig, attempts: seq<Attempt>): nat
    decreases |attempts|
  {
    if attempts == [] then 0
    else
      var n := |attempts| - 1;
      Acceptances(c, attempts[..n]) + if Accepts(c, Run(c, attempts[..n]), attempts[n]) then 1 else 0
  }

  lemma {:induction false} PositionTracksHighest(c: GuardConfig, attempts: seq<Attempt>)
    ensures Run(c, attempts).initialized ==> Position(c, attempts) % U32_SPAN == Run(c, attempts).highest
    decreases |attempts|
  {
    if attempts == [] {
    } else {
      var n := |attempts| - 1;
      PositionTracksHighest(c, attempts[..n]);
    }
  }

  /** Each acceptance after the first moves the counter forward by less than half the range,
      and nothing else moves it. */
  lemma {:induction false} PositionMoves(c: GuardConfig, attempts: seq<Attempt>, i: nat)
    requires i < |attempts| && Run(c, attempts[..i]).initialized
    ensures attempts[..i + 1][..i] == attempts[..i]
    ensures var step := Position(c, attempts[..i + 1]) - Position(c, attempts[..i]);
            if AcceptedAt(c, attempts, i) then 0 < step < SERIAL_HALF_RANGE else step == 0
    ensures Acceptances(c, attempts[..i + 1]) ==
            Acceptances(c, attempts[..i]) + if AcceptedAt(c, attempts, i) then 1 else 0
    ensures Run(c, attempts[..i + 1]).initialized
  {
    assert attempts[..i + 1][..i] == attempts[..i];
  }

  /** From acceptance `i` on, the advance lies strictly between the number of acceptances
      and that number times half the range. */
  lemma {:induction false} AdvanceBounds(c: GuardConfig, attempts: seq<Attempt>, i: nat, j: nat)
    requires i <= j <= |attempts| && Run(c, attempts[..i]).initialized
    ensures Run(c, attempts[..j]).initialized
    ensures var n := Acceptances(c, attempts[..j]) - Acceptances(c, attempts[..i]);
            var d := Position(c, attempts[..j]) - Position(c, attempts[..i]);
            n >= 0 && n <= d <= n * (SERIAL_HALF_RANGE - 1)
    decreases j
  {
    if i == j {
    } else {
      AdvanceBounds(c, attempts, i, j - 1);
      PositionMoves(c, attempts, j - 1);
    }
  }

  /** Accepted numbers lift to a strictly increasing counter. */
  lemma {:induction false} AcceptedNumbersIncrease(c: GuardConfig, attempts: seq<Attempt>, i: nat, j: nat)
    requires i < j < |attempts| && AcceptedAt(c, attempts, i) && AcceptedAt(c, attempts, j)
    ensures Position(c, attempts[..i + 1]) < Position(c, attempts[..j + 1])
    ensures Position(c, attempts[..i + 1]) % U32_SPAN == attempts[i].sequence
    ensures Position(c, attempts[..j + 1]) % U32_SPAN == attempts[j].sequence
  {
    assert attempts[..i + 1][..i] == attempts[..i] && attempts[..j + 1][..j] == attempts[..j];
    AdvanceBounds(c, attempts, i + 1, j);
    PositionMoves(c, attempts, j);
    PositionTracksHighest(c, attempts[..i + 1]);
    PositionTracksHighest(c, attempts[..j + 1]);
  }

  /** Whether an old number is newer than the highest depends on the advance since then. */
  lemma {:induction false} OldNumberIsNewer(position: nat, advance: nat)
    ensures SequenceIsNewer(position % U32_SPAN, (position + advance) % U32_SPAN) <==>
            advance % U32_SPAN > SERIAL_HALF_RANGE
  {
    var earlier, a := position % U32_SPAN, advance % U32_SPAN;
    var turns := position / U32_SPAN + advance / U32_SPAN;
    assert position + advance == U32_SPAN * turns + earlier + a;
    if earlier + a < U32_SPAN {
      NumberAfter(turns, earlier + a, earlier, a);
    } else {
      NumberAfter(turns + 1, earlier + a - U32_SPAN, earlier, a);
    }
  }

  lemma {:induction false} NumberAfter(turns: nat, now: u32, earlier: u32, a: u32)
    requires now == earlier + a || now + U32_SPAN == earlier + a
    ensures (U32_SPAN * turns + now) % U32_SPAN == now
    ensures Forward(earlier, now) == if a == 0 then 0 else U32_SPAN - a
  {
  }

  /** Replay window: an accepted number is accepted again exactly when its timestamp is in
      the window and the counter has advanced, over whole turns, by more than half the range. */
  lemma {:induction false} ReplayWindow(c: GuardConfig, attempts: seq<Attempt>, i: nat, j: nat)
    requires i < j < |attempts| && AcceptedAt(c, attempts, i) && attempts[j].sequence == attempts[i].sequence
    ensures var advance := Position(c, attempts[..j]) - Position(c, attempts[..i + 1]);
            advance >= 0 &&
            (AcceptedAt(c, attempts, j) <==>
             InWindow(c, attempts[j].timestampMs, attempts[j].nowMs) && advance % U32_SPAN > SERIAL_HALF_RANGE)
  {
    assert attempts[..i + 1][..i] == attempts[..i];
    AdvanceBounds(c, attempts, i + 1, j);
    PositionTracksHighest(c, attempts[..i + 1]);
    PositionTracksHighest(c, attempts[..j]);
    OldNumberIsNewer(Position(c, attempts[..i + 1]), Position(c, attempts[..j]) - Position(c, attempts[..i + 1]));
  }

  /** Once accepted, a number is refused, whatever its timestamps, until the counter has
      advanced by more than half the range. */
  lemma {:induction false} ReplayRefused(c: GuardConfig, attempts: seq<Attempt>, i: nat, j: nat)
    requires i < j < |attempts| && AcceptedAt(c, attempts, i) && attempts[j].sequence == attempts[i].sequence
    requires Position(c, attempts[..j]) - Position(c, attempts[..i + 1]) <= SERIAL_HALF_RANGE
    ensures !AcceptedAt(c, attempts, j)
  {
    ReplayWindow(c, attempts, i, j);
  }

  /** Accepting a number a second time takes a full turn of the counter and at least two
      other acceptances in between. */
  lemma {:induction false} ReuseNeedsFullTurn(c: GuardConfig, attempts: seq<Attempt>, i: nat, j: nat)
    requires i < j < |attempts| && attempts[j].sequence == attempts[i].sequence
    requires AcceptedAt(c, attempts, i) && AcceptedAt(c, attempts, j)
    ensures Position(c, attempts[..j + 1]) - Position(c, attempts[..i + 1]) >= U32_SPAN
    ensures Acceptances(c, attempts[..j]) - Acceptances(c, attempts[..i + 1]) >= 2
  {
    AcceptedNumbersIncrease(c, attempts, i, j);
    if Position(c, attempts[..j]) - Position(c, attempts[..i + 1]) <= SERIAL_HALF_RANGE {
      ReplayRefused(c, attempts, i, j);
    }
    assert attempts[..i + 1][..i] == attempts[..i];
    AdvanceBounds(c, attempts, i + 1, j);
  }
}
