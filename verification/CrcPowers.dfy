/** The powers of x modulo the CRC generator. Two bit errors cancel exactly when
    their powers coincide, so what matters is that the first 344 powers, one for each
    bit of the longest packet, are pairwise different.

    The powers are evaluated on machine words. A register splits at the taps of the
    generator into fields of 4, 7 and 5 bits, and through these narrow fields every
    machine word is tied to the number it stands for. */
module CrcPowers {
  import opened Words
  import opened Bits
  import opened Crc16

  /** Bits in the longest packet the flight software exchanges: 43 bytes of telemetry. */
  const LONGEST_PACKET_BITS := 344

  // ---- One step, field by field, on numbers ----

  /** A field moved up one place: its top bit leaves, `carry` enters at the bottom. */
  function Moved(f: nat, half: nat, carry: bool): nat {
    (if f >= half then 2 * f - 2 * half else 2 * f) + (if carry then 1 else 0)
  }

  lemma {:induction false} MovedBit(f: nat, w: nat, carry: bool, k: nat)
    requires f < Pow2(w + 1) && k <= w
    ensures Moved(f, Pow2(w), carry) < Pow2(w + 1)
    ensures Bit(Moved(f, Pow2(w), carry), k) == if k == 0 then carry else Bit(f, k - 1)
  {
    if k > 0 && f >= Pow2(w) {
      ClearTopBit(f, w, k - 1);
    }
  }

  function Joined(a: nat, c: nat, e: nat): nat {
    e + 32 * (c + 128 * a)
  }

  lemma {:induction false} JoinedBit(a: nat, c: nat, e: nat, k: nat)
    requires a < 16 && c < 128 && e < 32
    ensures Joined(a, c, e) < U16_SPAN
    ensures Bit(Joined(a, c, e), k) ==
            if k < 5 then Bit(e, k) else if k < 12 then Bit(c, k - 5) else Bit(a, k - 12)
  {
    FieldWidths();
    GluedBit(e, c + 128 * a, 5, k);
    if k >= 5 {
      GluedBit(c, a, 7, k - 5);
    }
  }

  lemma FieldWidths()
    ensures Pow2(3) == 8 && Pow2(4) == 16 && Pow2(5) == 32 && Pow2(6) == 64 && Pow2(7) == 128
  {
  }

  lemma {:induction false} StepOnFields(a: nat, c: nat, e: nat)
    requires a < 16 && c < 128 && e < 32
    ensures Joined(a, c, e) < U16_SPAN
    ensures Step(Joined(a, c, e)) ==
            Joined(Moved(a, 8, (c >= 64) != (a >= 8)), Moved(c, 64, (e >= 16) != (a >= 8)), Moved(e, 16, a >= 8))
  {
    JoinedBit(a, c, e, 15);
    var top := a >= 8;
    var r := Joined(a, c, e);
    var a', c', e' := Moved(a, 8, (c >= 64) != top), Moved(c, 64, (e >= 16) != top), Moved(e, 16, top);
    FieldWidths();
    MovedBit(a, 3, (c >= 64) != top, 0);
    MovedBit(c, 6, (e >= 16) != top, 0);
    MovedBit(e, 4, top, 0);
    JoinedBit(a', c', e', 0);
    forall k: nat | k < 16
      ensures Bit(Step(r), k) == Bit(Joined(a', c', e'), k)
    {
      StepOnFieldsBit(a, c, e, k);
    }
    SameWord(Step(r), Joined(a', c', e'));
  }

  /** The two sides of `StepOnFields` at one bit, each in terms of the fields. */
  lemma {:induction false} StepOnFieldsBit(a: nat, c: nat, e: nat, k: nat)
    requires a < 16 && c < 128 && e < 32 && k < 16
    ensures Joined(a, c, e) < U16_SPAN
    ensures Bit(Step(Joined(a, c, e)), k) ==
            Bit(Joined(Moved(a, 8, (c >= 64) != (a >= 8)),
                       Moved(c, 64, (e >= 16) != (a >= 8)),
                       Moved(e, 16, a >= 8)), k)
  {
    SteppedBit(a, c, e, k);
    MovedFieldsBit(a, c, e, (c >= 64) != (a >= 8), (e >= 16) != (a >= 8), a >= 8, k);
  }

  lemma {:induction false} SteppedBit(a: nat, c: nat, e: nat, k: nat)
    requires a < 16 && c < 128 && e < 32 && k < 16
    ensures Joined(a, c, e) < U16_SPAN
    ensures Bit(Step(Joined(a, c, e)), k) ==
            if k == 0 then a >= 8
            else if k < 5 then Bit(e, k - 1)
            else if k == 5 then (e >= 16) != (a >= 8)
            else if k < 12 then Bit(c, k - 6)
            else if k == 12 then (c >= 64) != (a >= 8)
            else Bit(a, k - 13)
  {
    TopBitOfJoined(a, c, e);
    StepBit(Joined(a, c, e), k);
    if k > 0 {
      JoinedBit(a, c, e, k - 1);
    }
    FieldWidths();
    if k == 5 {
      TopBit(e, 4);
    } else if k == 12 {
      TopBit(c, 6);
    }
  }

  lemma {:induction false} MovedFieldsBit(a: nat, c: nat, e: nat, inA: bool, inC: bool, inE: bool, k: nat)
    requires a < 16 && c < 128 && e < 32 && k < 16
    ensures Bit(Joined(Moved(a, 8, inA), Moved(c, 64, inC), Moved(e, 16, inE)), k) ==
            if k == 0 then inE
            else if k < 5 then Bit(e, k - 1)
            else if k == 5 then inC
            else if k < 12 then Bit(c, k - 6)
            else if k == 12 then inA
            else Bit(a, k - 13)
  {
    JoinedBit(Moved(a, 8, inA), Moved(c, 64, inC), Moved(e, 16, inE), k);
    FieldWidths();
    if k < 5 {
      MovedBit(e, 4, inE, k);
    } else if k < 12 {
      MovedBit(c, 6, inC, k - 5);
    } else {
      MovedBit(a, 3, inA, k - 12);
    }
  }

  lemma {:induction false} TopBitOfJoined(a: nat, c: nat, e: nat)
    requires a < 16 && c < 128 && e < 32
    ensures Joined(a, c, e) < U16_SPAN && (Bit(Joined(a, c, e), 15) <==> a >= 8)
  {
    JoinedBit(a, c, e, 15);
    FieldWidths();
    TopBit(a, 3);
  }

  lemma {:induction false} JoinedInjective(a: nat, c: nat, e: nat, a': nat, c': nat, e': nat)
    requires c < 128 && e < 32 && c' < 128 && e' < 32
    requires Joined(a, c, e) == Joined(a', c', e')
    ensures a == a' && c == c' && e == e'
  {
  }

  // ---- The same step on machine words ----

  function WordStep(r: bv16): bv16 {
    if r & 0x8000 != 0 then (r << 1) ^ 0x1021 else r << 1
  }

  function WordSteps(r: bv16, n: nat): bv16
    decreases n
  {
    if n == 0 then r else WordStep(WordSteps(r, n - 1))
  }

  function High4(r: bv16): bv4 { ((r >> 12) & 0xF) as bv4 }

  function Middle7(r: bv16): bv7 { ((r >> 5) & 0x7F) as bv7 }

  function Low5(r: bv16): bv5 { (r & 0x1F) as bv5 }

  function Value(r: bv16): nat {
    Joined(High4(r) as int, Middle7(r) as int, Low5(r) as int)
  }

  lemma {:induction false} High4Step(r: bv16)
    ensures High4(WordStep(r)) == (High4(r) << 1) ^ (if (Middle7(r) >= 64) != (High4(r) >= 8) then 1 else 0)
  {
    if r & 0x8000 != 0 {
    } else {
    }
  }

  lemma {:induction false} Middle7Step(r: bv16)
    ensures Middle7(WordStep(r)) == (Middle7(r) << 1) ^ (if (Low5(r) >= 16) != (High4(r) >= 8) then 1 else 0)
  {
    if r & 0x8000 != 0 {
    } else {
    }
  }

  lemma {:induction false} Low5Step(r: bv16)
    ensures Low5(WordStep(r)) == (Low5(r) << 1) ^ (if High4(r) >= 8 then 1 else 0)
  {
    if r & 0x8000 != 0 {
    } else {
    }
  }

  lemma {:induction false} MovedHigh4(a: bv4, carry: bool)
    ensures ((a << 1) ^ (if carry then 1 else 0)) as int == Moved(a as int, 8, carry)
    ensures a >= 8 <==> a as int >= 8
  {
  }

  lemma {:induction false} MovedMiddle7(c: bv7, carry: bool)
    ensures ((c << 1) ^ (if carry then 1 else 0)) as int == Moved(c as int, 64, carry)
    ensures c >= 64 <==> c as int >= 64
  {
  }

  lemma {:induction false} MovedLow5(e: bv5, carry: bool)
    ensures ((e << 1) ^ (if carry then 1 else 0)) as int == Moved(e as int, 16, carry)
    ensures e >= 16 <==> e as int >= 16
  {
  }

  lemma {:induction false} High4Value(r: bv16)
    ensures High4(WordStep(r)) as int ==
            Moved(High4(r) as int, 8, (Middle7(r) as int >= 64) != (High4(r) as int >= 8))
  {
    High4Step(r);
    MovedMiddle7(Middle7(r), false);
    MovedHigh4(High4(r), (Middle7(r) >= 64) != (High4(r) >= 8));
  }

  lemma {:induction false} Middle7Value(r: bv16)
    ensures Middle7(WordStep(r)) as int ==
            Moved(Middle7(r) as int, 64, (Low5(r) as int >= 16) != (High4(r) as int >= 8))
  {
    Middle7Step(r);
    MovedLow5(Low5(r), false);
    MovedHigh4(High4(r), false);
    MovedMiddle7(Middle7(r), (Low5(r) >= 16) != (High4(r) >= 8));
  }

  lemma {:induction false} Low5Value(r: bv16)
    ensures Low5(WordStep(r)) as int == Moved(Low5(r) as int, 16, High4(r) as int >= 8)
  {
    Low5Step(r);
    MovedHigh4(High4(r), false);
    MovedLow5(Low5(r), High4(r) >= 8);
  }

  lemma {:induction false} WordStepValue(r: bv16)
    ensures Value(r) < U16_SPAN
    ensures Value(WordStep(r)) == Step(Value(r))
  {
    High4Value(r);
    Middle7Value(r);
    Low5Value(r);
    StepOnFields(High4(r) as int, Middle7(r) as int, Low5(r) as int);
  }

  lemma {:induction false} PowerOnWord(n: nat)
    ensures Value(WordSteps(1, n)) == Steps(1, n)
    decreases n
  {
    if n == 0 {
    } else {
      PowerOnWord(n - 1);
      WordStepValue(WordSteps(1, n - 1));
    }
  }

  lemma {:induction false} ValuesDiffer(r: bv16, s: bv16)
    requires r != s
    ensures Value(r) != Value(s)
  {
    var a, c, e := High4(r) as int, Middle7(r) as int, Low5(r) as int;
    var a', c', e' := High4(s) as int, Middle7(s) as int, Low5(s) as int;
    if a == a' && c == c' && e == e' {
      SameFields(r, s);
    } else if Joined(a, c, e) == Joined(a', c', e') {
      JoinedInjective(a, c, e, a', c', e');
    }
  }

  lemma {:induction false} SameFields(r: bv16, s: bv16)
    requires High4(r) as int == High4(s) as int
    requires Middle7(r) as int == Middle7(s) as int
    requires Low5(r) as int == Low5(s) as int
    ensures r == s
  {
    Same4(High4(r), High4(s));
    Same7(Middle7(r), Middle7(s));
    Same5(Low5(r), Low5(s));
    Rebuilt(r);
    Rebuilt(s);
  }

  lemma {:induction false} Rebuilt(r: bv16)
    ensures r == ((High4(r) as bv16) << 12) | ((Middle7(r) as bv16) << 5) | (Low5(r) as bv16)
  {
  }

  lemma {:induction false} Same4(f: bv4, g: bv4)
    requires f as int == g as int
    ensures f == g
  {
  }

  lemma {:induction false} Same7(f: bv7, g: bv7)
    requires f as int == g as int
    ensures f == g
  {
  }

  lemma {:induction false} Same5(f: bv5, g: bv5)
    requires f as int == g as int
    ensures f == g
  {
  }

  // ---- Every sixteenth power, none of which is one of the first sixteen ----

  function FourSteps(r: bv16): bv16 {
    WordStep(WordStep(WordStep(WordStep(r))))
  }

  lemma {:induction false} FourStepsAhead(n: nat)
    ensures WordSteps(1, n + 4) == FourSteps(WordSteps(1, n))
  {
    assert WordSteps(1, n + 2) == WordStep(WordStep(WordSteps(1, n)));
  }

  predicate OneBit(r: bv16) {
    r == 0x0001 || r == 0x0002 || r == 0x0004 || r == 0x0008 ||
    r == 0x0010 || r == 0x0020 || r == 0x0040 || r == 0x0080 ||
    r == 0x0100 || r == 0x0200 || r == 0x0400 || r == 0x0800 ||
    r == 0x1000 || r == 0x2000 || r == 0x4000 || r == 0x8000
  }

  /** The orbit of powers is followed in leaps of sixteen: each lemma takes the first few
      of the `m` leaps wanted and hands the rest of the way to the next. */
  ghost predicate FarFromStart(n: nat) {
    !OneBit(WordSteps(1, n))
  }

  lemma {:induction false} SixteenAhead(n: nat, r: bv16, next: bv16)
    requires WordSteps(1, n) == r && FourSteps(FourSteps(FourSteps(FourSteps(r)))) == next
    ensures WordSteps(1, n + 16) == next
  {
    FourStepsAhead(n);
    FourStepsAhead(n + 4);
    FourStepsAhead(n + 8);
    FourStepsAhead(n + 12);
  }

  lemma {:induction false} LeapsPast0(n: nat, m: nat)
    requires WordSteps(1, n) == 0x0001 && 1 <= m <= 22
    ensures FarFromStart(n + 16 * m)
  {
    SixteenAhead(n, 0x0001, 0x1021);
    if m > 1 {
      SixteenAhead(n + 16, 0x1021, 0x3730);
      if m > 2 {
        LeapsPast32(n + 32, m - 2);
      }
    }
  }

  lemma {:induction false} LeapsPast32(n: nat, m: nat)
    requires WordSteps(1, n) == 0x3730 && 1 <= m <= 20
    ensures FarFromStart(n + 16 * m)
  {
    SixteenAhead(n, 0x3730, 0xAA51);
    if m > 1 {
      SixteenAhead(n + 16, 0xAA51, 0xB861);
      if m > 2 {
        SixteenAhead(n + 32, 0xB861, 0xEB23);
        if m > 3 {
          SixteenAhead(n + 48, 0xEB23, 0xD849);
          if m > 4 {
            LeapsPast96(n + 64, m - 4);
          }
        }
      }
    }
  }

  lemma {:induction false} LeapsPast96(n: nat, m: nat)
    requires WordSteps(1, n) == 0xD849 && 1 <= m <= 16
    ensures FarFromStart(n + 16 * m)
  {
    SixteenAhead(n, 0xD849, 0x4563);
    if m > 1 {
      SixteenAhead(n + 16, 0x4563, 0xAEFC);
      if m > 2 {
        SixteenAhead(n + 32, 0xAEFC, 0x10E2);
        if m > 3 {
          SixteenAhead(n + 48, 0x10E2, 0xDE1F);
          if m > 4 {
            LeapsPast160(n + 64, m - 4);
          }
        }
      }
    }
  }

  lemma {:induction false} LeapsPast160(n: nat, m: nat)
    requires WordSteps(1, n) == 0xDE1F && 1 <= m <= 12
    ensures FarFromStart(n + 16 * m)
  {
    SixteenAhead(n, 0xDE1F, 0xD5F6);
    if m > 1 {
      SixteenAhead(n + 16, 0xD5F6, 0x650B);
      if m > 2 {
        SixteenAhead(n + 32, 0x650B, 0x45B4);
        if m > 3 {
          SixteenAhead(n + 48, 0x45B4, 0x1566);
          if m > 4 {
            LeapsPast224(n + 64, m - 4);
          }
        }
      }
    }
  }

  lemma {:induction false} LeapsPast224(n: nat, m: nat)
    requires WordSteps(1, n) == 0x1566 && 1 <= m <= 8
    ensures FarFromStart(n + 16 * m)
  {
    SixteenAhead(n, 0x1566, 0xF0E6);
    if m > 1 {
      SixteenAhead(n + 16, 0xF0E6, 0x8E29);
      if m > 2 {
        SixteenAhead(n + 32, 0x8E29, 0x8DDC);
        if m > 3 {
          SixteenAhead(n + 48, 0x8DDC, 0x6735);
          if m > 4 {
            LeapsPast288(n + 64, m - 4);
          }
        }
      }
    }
  }

  lemma {:induction false} LeapsPast288(n: nat, m: nat)
    requires WordSteps(1, n) == 0x6735 && 1 <= m <= 4
    ensures FarFromStart(n + 16 * m)
  {
    SixteenAhead(n, 0x6735, 0xF44B);
    if m > 1 {
      SixteenAhead(n + 16, 0xF44B, 0x26AA);
      if m > 2 {
        SixteenAhead(n + 32, 0x26AA, 0xB8E0);
        if m > 3 {
          SixteenAhead(n + 48, 0xB8E0, 0x6A8A);
        }
      }
    }
  }

  lemma {:induction false} LowWord(n: nat)
    requires n < 16
    ensures OneBit(WordSteps(1, n))
  {
    assert WordSteps(1, 0) == 0x0001 && WordSteps(1, 1) == 0x0002;
    assert WordSteps(1, 2) == 0x0004 && WordSteps(1, 3) == 0x0008;
    assert WordSteps(1, 4) == 0x0010 && WordSteps(1, 5) == 0x0020;
    assert WordSteps(1, 6) == 0x0040 && WordSteps(1, 7) == 0x0080;
    assert WordSteps(1, 8) == 0x0100 && WordSteps(1, 9) == 0x0200;
    assert WordSteps(1, 10) == 0x0400 && WordSteps(1, 11) == 0x0800;
    assert WordSteps(1, 12) == 0x1000 && WordSteps(1, 13) == 0x2000;
    assert WordSteps(1, 14) == 0x4000 && WordSteps(1, 15) == 0x8000;
    assert n == 0 || n == 1 || n == 2 || n == 3 || n == 4 || n == 5 || n == 6 || n == 7 ||
           n == 8 || n == 9 || n == 10 || n == 11 || n == 12 || n == 13 || n == 14 || n == 15;
  }

  lemma {:induction false} SixteenthWordIsNotLow(q: nat, n: nat)
    requires 1 <= q <= 22 && n < 16
    ensures WordSteps(1, 16 * q) != WordSteps(1, n)
  {
    LeapsPast0(0, q);
    LowWord(n);
  }

  lemma {:induction false} SixteenthPowerIsNotLow(q: nat, n: nat)
    requires 1 <= q <= 22 && n < 16
    ensures Steps(1, 16 * q) != Steps(1, n)
  {
    PowerOnWord(16 * q);
    PowerOnWord(n);
    SixteenthWordIsNotLow(q, n);
    ValuesDiffer(WordSteps(1, 16 * q), WordSteps(1, n));
  }

  /** No power between the first and the 343rd returns to one. */
  lemma {:induction false} NoEarlyReturn(d: nat)
    requires 0 < d < LONGEST_PACKET_BITS
    ensures Steps(1, d) != 1
  {
    if Steps(1, d) == 1 {
      var q := (d + 15) / 16;
      StepsAdd(1, d, 16 * q - d);
      SixteenthPowerIsNotLow(q, 16 * q - d);
    }
  }

  lemma {:induction false} PowersDistinct(i: nat, j: nat)
    requires i < j < LONGEST_PACKET_BITS
    ensures Steps(1, i) != Steps(1, j)
  {
    StepsAdd(1, j - i, i);
    if Steps(1, i) == Steps(1, j) {
      StepsInjective(1, Steps(1, j - i), i);
      NoEarlyReturn(j - i);
    }
  }
}
