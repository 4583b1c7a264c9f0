/** CRC-16-CCITT as the command decoder, the telemetry encoder and the ground
    tools compute it: polynomial 0x1021, initial register 0xFFFF, most significant
    bit first, no final inversion. */
module Crc16 {
  import opened Words
  import opened Bits

  const POLYNOMIAL: u16 := 0x1021
  const INITIAL_REGISTER: u16 := 0xFFFF
  const BYTE_BITS: nat := 8
  const WORD_BITS: nat := 16

  function Xor16(a: u16, b: u16): u16 {
    Pow2Of16();
    XorBound(a, b, 16);
    Xor(a, b)
  }

  lemma Pow2Of16()
    ensures Pow2(8) == U8_SPAN && Pow2(15) == 0x8000 && Pow2(16) == U16_SPAN
  {
    assert Pow2(4) == 16;
    assert Pow2(12) == 4096;
  }

  /** `static_cast<uint16_t>(r << 1)`: the bit shifted out is lost. */
  function ShiftLeft(r: u16): u16 {
    if r < 0x8000 then 2 * r else 2 * r - 0x1_0000
  }

  /** `(r & 0x8000) != 0`. */
  predicate TopBitSet(r: u16) {
    r >= 0x8000
  }

  /** One turn of the inner loop: multiplication by x modulo the generator. */
  function Step(r: u16): u16 {
    if TopBitSet(r) then Xor16(ShiftLeft(r), POLYNOMIAL) else ShiftLeft(r)
  }

  function Steps(r: u16, n: nat): u16
    decreases n, r
  {
    if n == 0 then r else Step(Steps(r, n - 1))
  }

  /** The word with the given low and high byte. */
  function Join(low: u8, high: u8): u16 {
    var l: int, h: int := low, high;
    l + 256 * h
  }

  /** `static_cast<uint16_t>(b) << 8`. */
  function High(b: u8): u16 {
    Join(0, b)
  }

  function AbsorbByte(r: u16, b: u8): u16 {
    Steps(Xor16(r, High(b)), BYTE_BITS)
  }

  function Absorb(r: u16, bytes: seq<u8>): u16
    decreases |bytes|
  {
    if bytes == [] then r else AbsorbByte(Absorb(r, bytes[..|bytes| - 1]), bytes[|bytes| - 1])
  }

  function Crc(bytes: seq<u8>): u16 {
    Absorb(INITIAL_REGISTER, bytes)
  }

  /** The outer loop of `command_crc16_ccitt` and `telemetry_crc16_ccitt`. */
  method ComputeCrc(bytes: seq<u8>) returns (crc: u16)
    ensures crc == Crc(bytes)
  {
    crc := INITIAL_REGISTER;
    for i := 0 to |bytes|
      invariant crc == Absorb(INITIAL_REGISTER, bytes[..i])
    {
      crc := TurnEightTimes(Xor16(crc, High(bytes[i])));
      assert bytes[..i + 1][..i] == bytes[..i];
    }
    assert bytes[..|bytes|] == bytes;
  }

  /** The inner loop. */
  method TurnEightTimes(register: u16) returns (crc: u16)
    ensures crc == Steps(register, BYTE_BITS)
  {
    crc := register;
    for turn := 0 to BYTE_BITS
      invariant crc == Steps(register, turn)
    {
      if TopBitSet(crc) {
        crc := Xor16(ShiftLeft(crc), POLYNOMIAL);
      } else {
        crc := ShiftLeft(crc);
      }
    }
  }

  // ---- The step, bit by bit ----

  /** The positions of x^12 + x^5 + 1, the generator without its leading term. */
  predicate Tap(k: nat) {
    k == 0 || k == 5 || k == 12
  }

  lemma {:induction false} PolynomialBit(k: nat)
    ensures Bit(POLYNOMIAL, k) == Tap(k)
  {
    Pow2Of16();
    assert POLYNOMIAL == 1 + Pow2(5) * (1 + Pow2(7) * 1) by {
      assert Pow2(5) == 32 && Pow2(7) == 128;
    }
    GluedBit(1, 1 + Pow2(7) * 1, 5, k);
    PowerOfTwoBit(0, k);
    if k >= 5 {
      GluedBit(1, 1, 7, k - 5);
      PowerOfTwoBit(0, k - 5);
      if k >= 12 {
        PowerOfTwoBit(0, k - 12);
      }
    }
  }

  lemma {:induction false} ShiftedBit(r: u16, k: nat)
    requires k < 16
    ensures Bit(ShiftLeft(r), k) == (k > 0 && Bit(r, k - 1))
  {
    Pow2Of16();
    TopBit(r, 15);
    if r >= 0x8000 && k > 0 {
      ClearTopBit(r, 15, k - 1);
    }
  }

  lemma {:induction false} StepBit(r: u16, k: nat)
    requires k < 16
    ensures Bit(Step(r), k) == ((k > 0 && Bit(r, k - 1)) != (Bit(r, 15) && Tap(k)))
  {
    ShiftedBit(r, k);
    Pow2Of16();
    TopBit(r, 15);
    if Bit(r, 15) {
      PolynomialBit(k);
      XorBit(ShiftLeft(r), POLYNOMIAL, k);
    }
  }

  lemma {:induction false} SameWord(a: u16, b: u16)
    requires forall k: nat :: k < 16 ==> Bit(a, k) == Bit(b, k)
    ensures a == b
  {
    Pow2Of16();
    SameBits(a, b, 16);
  }

  // ---- The step is linear over exclusive or and has a trivial kernel ----

  lemma {:induction false} StepXor(a: u16, b: u16)
    ensures Step(Xor16(a, b)) == Xor16(Step(a), Step(b))
  {
    forall k: nat | k < 16
      ensures Bit(Step(Xor16(a, b)), k) == Bit(Xor16(Step(a), Step(b)), k)
    {
      StepBit(Xor16(a, b), k);
      StepBit(a, k);
      StepBit(b, k);
      XorBit(Step(a), Step(b), k);
      XorBit(a, b, 15);
      if k > 0 {
        XorBit(a, b, k - 1);
      }
    }
    SameWord(Step(Xor16(a, b)), Xor16(Step(a), Step(b)));
  }

  lemma {:induction false} StepsXor(a: u16, b: u16, n: nat)
    ensures Steps(Xor16(a, b), n) == Xor16(Steps(a, n), Steps(b, n))
    decreases n
  {
    if n == 0 {
    } else {
      StepsXor(a, b, n - 1);
      StepXor(Steps(a, n - 1), Steps(b, n - 1));
    }
  }

  lemma {:induction false} StepsAdd(r: u16, m: nat, n: nat)
    ensures Steps(r, m + n) == Steps(Steps(r, m), n)
    decreases n
  {
    if n == 0 {
    } else {
      StepsAdd(r, m, n - 1);
      var before := Steps(Steps(r, m), n - 1);
      assert Steps(r, m + n) == Step(before) == Steps(Steps(r, m), n);
    }
  }

  lemma {:induction false} StepKernel(r: u16)
    ensures Step(r) == 0 <==> r == 0
  {
    forall k: nat | k < 16
      ensures Bit(0, k) == false
      ensures Bit(Step(r), k) == ((k > 0 && Bit(r, k - 1)) != (Bit(r, 15) && Tap(k)))
    {
      ZeroHasNoBit(k);
      StepBit(r, k);
    }
    if Step(r) == 0 {
      assert !Bit(Step(r), 0);
      forall k: nat | k < 16
        ensures Bit(r, k) == Bit(0, k)
      {
        if k < 15 {
          assert !Bit(Step(r), k + 1);
        }
      }
      SameWord(r, 0);
    }
  }

  lemma {:induction false} StepsKernel(r: u16, n: nat)
    ensures Steps(r, n) == 0 <==> r == 0
    decreases n
  {
    if n == 0 {
    } else {
      StepsKernel(r, n - 1);
      StepKernel(Steps(r, n - 1));
    }
  }

  lemma {:induction false} StepsInjective(a: u16, b: u16, n: nat)
    requires Steps(a, n) == Steps(b, n)
    ensures a == b
  {
    StepsXor(a, b, n);
    XorIsZero(Steps(a, n), Steps(b, n));
    StepsKernel(Xor16(a, b), n);
    XorIsZero(a, b);
  }

  /** The register one turn earlier: an odd one has absorbed the polynomial. */
  function StepBack(r: u16): u16 {
    Pow2Of16();
    XorBound(r, POLYNOMIAL, 16);
    if r % 2 == 0 then r / 2 else 0x8000 + Xor16(r, POLYNOMIAL) / 2
  }

  lemma {:induction false} StepOfStepBack(r: u16)
    ensures Step(StepBack(r)) == r
  {
    if r % 2 == 1 {
      var x := Xor16(r, POLYNOMIAL);
      XorBit(r, POLYNOMIAL, 0);
      assert Bit(r, 0) && Bit(POLYNOMIAL, 0) && x % 2 == 0;
      assert ShiftLeft(StepBack(r)) == x;
      XorAssociates(r, POLYNOMIAL, POLYNOMIAL);
      XorSelf(POLYNOMIAL);
      XorZero(r);
    }
  }

  function StepsBack(r: u16, n: nat): u16
    decreases n
  {
    if n == 0 then r else StepsBack(StepBack(r), n - 1)
  }

  /** Any number of turns is a bijection on registers: every register is reached, and from
      one register only. */
  lemma {:induction false} StepsBijective(r: u16, q: u16, n: nat)
    ensures Steps(q, n) == r <==> q == StepsBack(r, n)
    decreases n
  {
    StepsReach(r, n);
    if Steps(q, n) == r {
      StepsInjective(q, StepsBack(r, n), n);
    }
  }

  lemma {:induction false} StepsReach(r: u16, n: nat)
    ensures Steps(StepsBack(r, n), n) == r
    decreases n
  {
    if n == 0 {
    } else {
      StepsReach(StepBack(r), n - 1);
      StepOfStepBack(r);
    }
  }

  // ---- Differences of byte strings ----

  function XorByte(a: u8, b: u8): u8 {
    Pow2Of16();
    XorBound(a, b, 8);
    Xor(a, b)
  }

  function Difference(a: seq<u8>, b: seq<u8>): (e: seq<u8>)
    requires |a| == |b|
    ensures |e| == |a|
  {
    seq(|a|, i requires 0 <= i < |a| => XorByte(a[i], b[i]))
  }

  lemma {:induction false} JoinBit(low: u8, high: u8, k: nat)
    ensures Bit(Join(low, high), k) == if k < 8 then Bit(low, k) else Bit(high, k - 8)
  {
    Pow2Of16();
    GluedBit(low, high, 8, k);
  }

  lemma {:induction false} JoinXor(a: u8, b: u8, c: u8, d: u8)
    ensures Xor16(Join(a, b), Join(c, d)) == Join(XorByte(a, c), XorByte(b, d))
  {
    forall k: nat | k < 16
      ensures Bit(Xor16(Join(a, b), Join(c, d)), k) == Bit(Join(XorByte(a, c), XorByte(b, d)), k)
    {
      JoinBit(a, b, k);
      JoinBit(c, d, k);
      JoinBit(XorByte(a, c), XorByte(b, d), k);
      XorBit(Join(a, b), Join(c, d), k);
      XorBit(a, c, k);
      if k >= 8 {
        XorBit(b, d, k - 8);
      }
    }
    SameWord(Xor16(Join(a, b), Join(c, d)), Join(XorByte(a, c), XorByte(b, d)));
  }

  lemma {:induction false} AbsorbByteXor(r: u16, s: u16, a: u8, b: u8)
    ensures AbsorbByte(Xor16(r, s), XorByte(a, b)) == Xor16(AbsorbByte(r, a), AbsorbByte(s, b))
  {
    JoinXor(0, a, 0, b);
    XorSwapInner(r, s, High(a), High(b));
    StepsXor(Xor16(r, High(a)), Xor16(s, High(b)), BYTE_BITS);
  }

  /** The CRC register is linear in register and data together. */
  lemma {:induction false} AbsorbXor(r: u16, s: u16, a: seq<u8>, b: seq<u8>)
    requires |a| == |b|
    ensures Absorb(Xor16(r, s), Difference(a, b)) == Xor16(Absorb(r, a), Absorb(s, b))
    decreases |a|
  {
    if a == [] {
    } else {
      var n := |a| - 1;
      AbsorbXor(r, s, a[..n], b[..n]);
      assert Difference(a, b)[..n] == Difference(a[..n], b[..n]);
      AbsorbByteXor(Absorb(r, a[..n]), Absorb(s, b[..n]), a[n], b[n]);
    }
  }
}
