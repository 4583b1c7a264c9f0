/** What the trailing CRC detects. A string is valid when its last two bytes hold, low
    byte first, the CRC of the bytes before them. The difference of two valid strings is
    a sum of powers of x, one for each differing bit, that vanishes; every guarantee
    below is a statement about when such a sum can vanish. */
module ErrorDetection {
  import opened Words
  import opened Bits
  import opened Crc16
  import opened CrcPowers

  /** The bits of a byte string in transmission order: most significant bit of byte 0 first. */
  function BitString(s: seq<u8>): (bits: seq<bool>)
    ensures |bits| == 8 * |s|
  {
    seq(8 * |s|, j requires 0 <= j < 8 * |s| => Bit(s[j / 8], 7 - j % 8))
  }

  /** Number of bits set among the first `n`. */
  function Weight(bits: seq<bool>, n: nat): nat
    requires n <= |bits|
  {
    if n == 0 then 0 else Weight(bits, n - 1) + if bits[n - 1] then 1 else 0
  }

  /** Number of bit positions in which two strings of one length differ. */
  function Distance(a: seq<u8>, b: seq<u8>): nat
    requires |a| == |b|
  {
    Weight(BitString(Difference(a, b)), 8 * |a|)
  }

  function CrcField(s: seq<u8>): u16
    requires |s| >= 2
  {
    Join(s[|s| - 2], s[|s| - 1])
  }

  predicate CrcValid(s: seq<u8>) {
    |s| >= 2 && CrcField(s) == Crc(s[..|s| - 2])
  }

  function Syndrome(e: seq<u8>): u16
    requires |e| >= 2
  {
    Xor16(Absorb(0, e[..|e| - 2]), CrcField(e))
  }

  /** Whether an error is detected depends on the error alone. */
  lemma {:induction false} ValidIffSyndromeVanishes(a: seq<u8>, b: seq<u8>)
    requires |a| == |b| && CrcValid(a)
    ensures CrcValid(b) <==> Syndrome(Difference(a, b)) == 0
  {
    var n, e := |a| - 2, Difference(a, b);
    var crcA, crcB, fieldA, fieldB := Crc(a[..n]), Crc(b[..n]), CrcField(a), CrcField(b);
    assert e[..n] == Difference(a[..n], b[..n]);
    AbsorbXor(INITIAL_REGISTER, INITIAL_REGISTER, a[..n], b[..n]);
    XorSelf(INITIAL_REGISTER);
    assert Absorb(0, e[..n]) == Xor16(crcA, crcB);
    JoinXor(a[n], a[n + 1], b[n], b[n + 1]);
    assert CrcField(e) == Xor16(fieldA, fieldB);
    XorSwapInner(crcA, crcB, fieldA, fieldB);
    XorSelf(crcA);
    XorCommutes(0, Xor16(crcB, fieldB));
    XorZero(Xor16(crcB, fieldB));
    XorIsZero(crcB, fieldB);
  }

  // ---- The syndrome is a sum of powers, one for each bit set ----

  /** The power that bit `j` of a string with `n` payload bytes contributes. Payload bits
      count down from the top; the CRC field, sent low byte first, holds the powers
      7 down to 0 and then 15 down to 8. */
  function Exponent(n: nat, j: nat): nat
    requires j < 8 * n + 16
  {
    if j < 8 * n then 8 * n + 15 - j else if j < 8 * n + 8 then 8 * n + 7 - j else 8 * n + 23 - j
  }

  /** One power of x, or nothing when the bit is clear. */
  function Term(isSet: bool, exponent: nat): u16 {
    if isSet then Steps(1, exponent) else 0
  }

  /** The sum of the powers of the first `i` bits of a string with `n` payload bytes. */
  function Sum(bits: seq<bool>, n: nat, i: nat): u16
    requires |bits| == 8 * n + 16 && i <= |bits|
    decreases i
  {
    if i == 0 then 0 else Xor16(Sum(bits, n, i - 1), Term(bits[i - 1], Exponent(n, i - 1)))
  }

  /** The share of one byte: its first `q` bits, the leading one with power `top`. */
  function ByteSum(b: u8, q: nat, top: nat): u16
    requires q <= 8 && top >= 7
    decreases q, b, top
  {
    if q == 0 then 0 else Xor16(ByteSum(b, q - 1, top), Term(Bit(b, 8 - q), top + 1 - q))
  }

  lemma {:induction false} SumAhead(sum: u16, shifted: u16, isSet: bool, exponent: nat, ahead: nat, m: nat)
    requires Steps(sum, m) == shifted && ahead == exponent + m
    ensures Steps(Xor16(sum, Term(isSet, exponent)), m) == Xor16(shifted, Term(isSet, ahead))
  {
    StepsXor(sum, Term(isSet, exponent), m);
    StepsKernel(0, m);
    StepsAdd(1, exponent, m);
  }

  lemma {:induction false} ByteSumSteps(b: u8, q: nat, top: nat, m: nat)
    requires q <= 8 && top >= 7
    ensures Steps(ByteSum(b, q, top), m) == ByteSum(b, q, top + m)
    decreases q
  {
    if q == 0 {
      StepsKernel(0, m);
    } else {
      var bit, sum, shifted := Bit(b, 8 - q), ByteSum(b, q - 1, top), ByteSum(b, q - 1, top + m);
      ByteSumSteps(b, q - 1, top, m);
      SumAhead(sum, shifted, bit, top + 1 - q, top + m + 1 - q, m);
      assert ByteSum(b, q, top) == Xor16(sum, Term(bit, top + 1 - q));
      assert ByteSum(b, q, top + m) == Xor16(shifted, Term(bit, top + m + 1 - q));
    }
  }

  lemma {:induction false} LowPowerBit(n: nat, k: nat)
    requires n < 16 && k < 16
    ensures Bit(Steps(1, n), k) <==> k == n
    decreases n
  {
    if n == 0 {
      PowerOfTwoBit(0, k);
    } else {
      StepBit(Steps(1, n - 1), k);
      LowPowerBit(n - 1, 15);
      if k > 0 {
        LowPowerBit(n - 1, k - 1);
      }
    }
  }

  lemma {:induction false} ByteSumBit(b: u8, q: nat, s: nat, k: nat)
    requires q <= 8 && s <= 8 && k < 16
    ensures Bit(ByteSum(b, q, 7 + s), k) == (s + 8 - q <= k < s + 8 && Bit(b, k - s))
    decreases q
  {
    ZeroHasNoBit(k);
    if q == 0 {
    } else {
      ByteSumBit(b, q - 1, s, k);
      LowPowerBit(8 + s - q, k);
      XorBit(ByteSum(b, q - 1, 7 + s), Term(Bit(b, 8 - q), 8 + s - q), k);
    }
  }

  lemma {:induction false} ByteSumOfHigh(b: u8)
    ensures ByteSum(b, BYTE_BITS, 15) == High(b)
  {
    forall k: nat | k < 16
      ensures Bit(ByteSum(b, BYTE_BITS, 15), k) == Bit(High(b), k)
    {
      ByteSumBit(b, BYTE_BITS, 8, k);
      JoinBit(0, b, k);
      ZeroHasNoBit(k);
    }
    SameWord(ByteSum(b, BYTE_BITS, 15), High(b));
  }

  lemma {:induction false} ByteSumOfLow(b: u8)
    ensures ByteSum(b, BYTE_BITS, 7) == b
  {
    forall k: nat | k < 16
      ensures Bit(ByteSum(b, BYTE_BITS, 7), k) == Bit(Join(b, 0), k)
    {
      ByteSumBit(b, BYTE_BITS, 0, k);
      JoinBit(b, 0, k);
      if k >= 8 {
        ZeroHasNoBit(k - 8);
      }
    }
    SameWord(ByteSum(b, BYTE_BITS, 7), Join(b, 0));
  }

  /** Byte `b` sits at bits `at` to `at + 7`, with powers from `top` down. */
  ghost predicate Holds(bits: seq<bool>, n: nat, at: nat, b: u8, top: nat)
    requires |bits| == 8 * n + 16
  {
    at + 8 <= |bits| && top >= 7 &&
    forall j :: at <= j < at + 8 ==> bits[j] == Bit(b, 7 - (j - at)) && Exponent(n, j) == top - (j - at)
  }

  lemma {:induction false} ByteInBitString(s: seq<u8>, n: nat, k: nat, top: nat)
    requires |s| == n + 2 && k < |s| && top == Exponent(n, 8 * k)
    ensures Holds(BitString(s), n, 8 * k, s[k], top)
  {
    forall j | 8 * k <= j < 8 * k + 8
      ensures BitString(s)[j] == Bit(s[k], 7 - (j - 8 * k))
    {
      assert j / 8 == k && j % 8 == j - 8 * k;
    }
  }

  lemma {:induction false} SumOverByte(bits: seq<bool>, n: nat, at: nat, b: u8, q: nat, top: nat)
    requires |bits| == 8 * n + 16 && Holds(bits, n, at, b, top) && q <= 8
    ensures Sum(bits, n, at + q) == Xor16(Sum(bits, n, at), ByteSum(b, q, top))
    decreases q
  {
    if q == 0 {
      XorZero(Sum(bits, n, at));
    } else {
      SumOverByte(bits, n, at, b, q - 1, top);
      assert bits[at + q - 1] == Bit(b, 8 - q);
      XorAssociates(Sum(bits, n, at), ByteSum(b, q - 1, top), Term(Bit(b, 8 - q), top + 1 - q));
    }
  }

  lemma {:induction false} SumOverWholeByte(e: seq<u8>, n: nat, k: nat, top: nat)
    requires |e| == n + 2 && k < |e| && top == Exponent(n, 8 * k)
    ensures top >= 7
    ensures Sum(BitString(e), n, 8 * (k + 1)) == Xor16(Sum(BitString(e), n, 8 * k), ByteSum(e[k], BYTE_BITS, top))
  {
    ByteInBitString(e, n, k, top);
    SumOverByte(BitString(e), n, 8 * k, e[k], BYTE_BITS, top);
  }

  /** Absorbing a byte and running on adds the byte's share of powers. */
  lemma {:induction false} AbsorbThenRun(before: u16, b: u8, m: nat)
    ensures Steps(AbsorbByte(before, b), m) ==
            Xor16(Steps(before, BYTE_BITS + m), ByteSum(b, BYTE_BITS, 15 + (BYTE_BITS + m)))
  {
    StepsAdd(Xor16(before, High(b)), BYTE_BITS, m);
    StepsXor(before, High(b), BYTE_BITS + m);
    ByteSumOfHigh(b);
    ByteSumSteps(b, BYTE_BITS, 15, BYTE_BITS + m);
  }

  lemma {:induction false} AbsorbLast(e: seq<u8>, k: nat)
    requires 0 < k <= |e|
    ensures Absorb(0, e[..k]) == AbsorbByte(Absorb(0, e[..k - 1]), e[k - 1])
  {
    assert e[..k][..k - 1] == e[..k - 1];
  }

  lemma {:induction false} SumOverPayloadByte(e: seq<u8>, n: nat, k: nat, m: nat)
    requires |e| == n + 2 && 0 < k <= n && m == 8 * (n - k)
    ensures Sum(BitString(e), n, 8 * k) ==
            Xor16(Sum(BitString(e), n, 8 * (k - 1)), ByteSum(e[k - 1], BYTE_BITS, 15 + (BYTE_BITS + m)))
  {
    assert 8 * (k - 1) < 8 * n && 15 + (BYTE_BITS + m) == 8 * n + 15 - 8 * (k - 1);
    SumOverWholeByte(e, n, k - 1, 15 + (BYTE_BITS + m));
  }

  lemma {:induction false} PayloadSumStep(e: seq<u8>, n: nat, k: nat, m: nat)
    requires |e| == n + 2 && 0 < k <= n && m == 8 * (n - k)
    requires Steps(Absorb(0, e[..k - 1]), BYTE_BITS + m) == Sum(BitString(e), n, 8 * (k - 1))
    ensures Steps(Absorb(0, e[..k]), m) == Sum(BitString(e), n, 8 * k)
  {
    AbsorbLast(e, k);
    AbsorbThenRun(Absorb(0, e[..k - 1]), e[k - 1], m);
    SumOverPayloadByte(e, n, k, m);
  }

  lemma {:induction false} PayloadSum(e: seq<u8>, n: nat, k: nat, m: nat)
    requires |e| == n + 2 && k <= n && m == 8 * (n - k)
    ensures Steps(Absorb(0, e[..k]), m) == Sum(BitString(e), n, 8 * k)
    decreases k
  {
    if k == 0 {
      StepsKernel(0, m);
    } else {
      PayloadSum(e, n, k - 1, BYTE_BITS + m);
      PayloadSumStep(e, n, k, m);
    }
  }

  lemma {:induction false} FieldShare(payload: u16, low: u8, high: u8)
    ensures Xor16(Xor16(payload, Join(low, 0)), Join(0, high)) == Xor16(payload, Join(low, high))
  {
    XorAssociates(payload, Join(low, 0), Join(0, high));
    JoinXor(low, 0, 0, high);
    XorZero(low);
    XorCommutes(0, high);
    XorZero(high);
  }

  lemma {:induction false} SyndromeIsSum(e: seq<u8>, n: nat)
    requires |e| == n + 2
    ensures Syndrome(e) == Sum(BitString(e), n, 8 * |e|)
  {
    PayloadSum(e, n, n, 0);
    SumOverWholeByte(e, n, n, 7);
    SumOverWholeByte(e, n, n + 1, 15);
    ByteSumOfLow(e[n]);
    ByteSumOfHigh(e[n + 1]);
    FieldShare(Absorb(0, e[..n]), e[n], e[n + 1]);
  }

  /** Two valid strings differ by a sum of powers that vanishes. */
  lemma {:induction false} VanishingSum(a: seq<u8>, b: seq<u8>, n: nat)
    requires |a| == |b| == n + 2 && CrcValid(a) && CrcValid(b)
    ensures Sum(BitString(Difference(a, b)), n, 8 * |a|) == 0
  {
    ValidIffSyndromeVanishes(a, b);
    SyndromeIsSum(Difference(a, b), n);
  }

  // ---- Parity ----

  /** Whether an odd number of the low `w` bits of `r` are set. */
  predicate OddBits(r: nat, w: nat)
    decreases w, r
  {
    if w == 0 then false else OddBits(r, w - 1) != Bit(r, w - 1)
  }

  lemma {:induction false} OddBitsXor(a: nat, b: nat, w: nat)
    ensures OddBits(Xor(a, b), w) == (OddBits(a, w) != OddBits(b, w))
    decreases w
  {
    if w == 0 {
    } else {
      OddBitsXor(a, b, w - 1);
      XorBit(a, b, w - 1);
    }
  }

  /** Taps below position `w`, counted modulo two: one, then two, then three. */
  predicate OddTaps(w: nat) {
    0 < w <= 5 || w > 12
  }

  lemma {:induction false} OddBitsStep(r: u16, w: nat)
    requires 0 < w <= 16
    ensures OddBits(Step(r), w) == (OddBits(r, w - 1) != (Bit(r, 15) && OddTaps(w)))
    decreases w
  {
    StepBit(r, w - 1);
    if w == 1 {
    } else {
      OddBitsStep(r, w - 1);
    }
  }

  /** The generator has an even number of terms, so a step keeps the register's parity. */
  lemma {:induction false} StepKeepsParity(r: u16)
    ensures OddBits(Step(r), WORD_BITS) == OddBits(r, WORD_BITS)
  {
    OddBitsStep(r, WORD_BITS);
    assert OddBits(r, WORD_BITS) == (OddBits(r, WORD_BITS - 1) != Bit(r, WORD_BITS - 1));
  }

  lemma {:induction false} StepsKeepParity(r: u16, n: nat)
    ensures OddBits(Steps(r, n), WORD_BITS) == OddBits(r, WORD_BITS)
    decreases n
  {
    if n == 0 {
    } else {
      StepsKeepParity(r, n - 1);
      StepKeepsParity(Steps(r, n - 1));
    }
  }

  lemma {:induction false} OddBitsOfZeroAndOne(w: nat)
    ensures !OddBits(0, w) && OddBits(1, w) == (w > 0)
    decreases w
  {
    if w == 0 {
    } else {
      OddBitsOfZeroAndOne(w - 1);
      ZeroHasNoBit(w - 1);
      PowerOfTwoBit(0, w - 1);
    }
  }

  lemma {:induction false} TermParity(isSet: bool, exponent: nat)
    ensures OddBits(Term(isSet, exponent), WORD_BITS) == isSet
  {
    OddBitsOfZeroAndOne(WORD_BITS);
    StepsKeepParity(1, exponent);
  }

  lemma {:induction false} SumParityNext(sum: u16, term: u16, isSet: bool, count: nat)
    requires OddBits(term, WORD_BITS) == isSet && (OddBits(sum, WORD_BITS) <==> count % 2 == 1)
    ensures OddBits(Xor(sum, term), WORD_BITS) <==> (if isSet then count + 1 else count) % 2 == 1
  {
    OddBitsXor(sum, term, WORD_BITS);
  }

  lemma {:induction false} SumParity(bits: seq<bool>, n: nat, i: nat)
    requires |bits| == 8 * n + 16 && i <= |bits|
    ensures OddBits(Sum(bits, n, i), WORD_BITS) <==> Weight(bits, i) % 2 == 1
    decreases i
  {
    if i == 0 {
      OddBitsOfZeroAndOne(WORD_BITS);
    } else {
      SumParity(bits, n, i - 1);
      TermParity(bits[i - 1], Exponent(n, i - 1));
      SumParityNext(Sum(bits, n, i - 1), Term(bits[i - 1], Exponent(n, i - 1)), bits[i - 1], Weight(bits, i - 1));
    }
  }

  /** Two valid strings of one length, whatever that length is, differ in an even number
      of bits: every odd number of bit errors is detected. */
  lemma {:induction false} OddErrorsDetected(a: seq<u8>, b: seq<u8>)
    requires |a| == |b| && CrcValid(a) && CrcValid(b)
    ensures Distance(a, b) % 2 == 0
  {
    var n := |a| - 2;
    VanishingSum(a, b, n);
    SumParity(BitString(Difference(a, b)), n, 8 * |a|);
    OddBitsOfZeroAndOne(WORD_BITS);
  }

  // ---- Few errors ----

  lemma {:induction false} NoBitSet(bits: seq<bool>, n: nat, i: nat)
    requires |bits| == 8 * n + 16 && i <= |bits| && Weight(bits, i) == 0
    ensures Sum(bits, n, i) == 0
    ensures forall j :: 0 <= j < i ==> !bits[j]
    decreases i
  {
    if i == 0 {
    } else {
      NoBitSet(bits, n, i - 1);
      XorZero(0);
    }
  }

  lemma {:induction false} OneBitSet(bits: seq<bool>, n: nat, i: nat) returns (j: nat)
    requires |bits| == 8 * n + 16 && i <= |bits| && Weight(bits, i) == 1
    ensures j < i && bits[j] && Sum(bits, n, i) == Steps(1, Exponent(n, j))
    decreases i
  {
    if bits[i - 1] {
      j := i - 1;
      NoBitSet(bits, n, j);
      XorCommutes(0, Steps(1, Exponent(n, j)));
      XorZero(Steps(1, Exponent(n, j)));
    } else {
      j := OneBitSet(bits, n, i - 1);
      XorZero(Sum(bits, n, i - 1));
    }
  }

  lemma {:induction false} ExponentInjective(n: nat, i: nat, j: nat)
    requires i < j < 8 * n + 16
    ensures Exponent(n, i) != Exponent(n, j)
    ensures Exponent(n, i) < 8 * n + 16 && Exponent(n, j) < 8 * n + 16
  {
  }

  lemma {:induction false} TwoPowersDiffer(n: nat, i: nat, j: nat)
    requires i < j < 8 * n + 16 <= LONGEST_PACKET_BITS
    ensures Xor16(Steps(1, Exponent(n, i)), Steps(1, Exponent(n, j))) != 0
  {
    ExponentInjective(n, i, j);
    var p, q := Exponent(n, i), Exponent(n, j);
    if p < q {
      PowersDistinct(p, q);
    } else {
      PowersDistinct(q, p);
    }
    XorIsZero(Steps(1, p), Steps(1, q));
  }

  lemma {:induction false} TwoBitsSet(bits: seq<bool>, n: nat, i: nat)
    requires |bits| == 8 * n + 16 <= LONGEST_PACKET_BITS && i <= |bits| && Weight(bits, i) == 2
    ensures Sum(bits, n, i) != 0
    decreases i
  {
    if bits[i - 1] {
      var j := OneBitSet(bits, n, i - 1);
      TwoPowersDiffer(n, j, i - 1);
    } else {
      TwoBitsSet(bits, n, i - 1);
      XorZero(Sum(bits, n, i - 1));
    }
  }

  lemma {:induction false} SomeBitDiffers(a: seq<u8>, b: seq<u8>)
    requires |a| == |b| && a != b
    ensures Distance(a, b) > 0
  {
    var e := Difference(a, b);
    var bits := BitString(e);
    if Weight(bits, |bits|) == 0 {
      forall k | 0 <= k < |a|
        ensures a[k] == b[k]
      {
        forall q: nat | q < 8
          ensures Bit(e[k], q) == Bit(0, q)
        {
          var j := 8 * k + (7 - q);
          assert j / 8 == k && j % 8 == 7 - q;
          AllClear(bits, |bits|, j);
          ZeroHasNoBit(q);
        }
        Pow2Of16();
        SameBits(e[k], 0, 8);
        XorIsZero(a[k], b[k]);
      }
    }
  }

  lemma {:induction false} AllClear(bits: seq<bool>, i: nat, j: nat)
    requires j < i <= |bits| && Weight(bits, i) == 0
    ensures !bits[j]
    decreases i
  {
    if j == i - 1 {
    } else {
      AllClear(bits, i - 1, j);
    }
  }

  /** Minimum distance: valid strings no longer than a telemetry packet that are not
      equal differ in at least four bits, so one, two or three bit errors anywhere,
      CRC field included, are detected. */
  lemma {:induction false} FewErrorsDetected(a: seq<u8>, b: seq<u8>)
    requires |a| == |b| && 8 * |a| <= LONGEST_PACKET_BITS
    requires CrcValid(a) && CrcValid(b) && a != b
    ensures Distance(a, b) >= 4
  {
    SomeBitDiffers(a, b);
    OddErrorsDetected(a, b);
    TwoErrorsDetected(a, b);
  }

  lemma {:induction false} TwoErrorsDetected(a: seq<u8>, b: seq<u8>)
    requires |a| == |b| && 8 * |a| <= LONGEST_PACKET_BITS && CrcValid(a) && CrcValid(b)
    ensures Distance(a, b) != 2
  {
    VanishingSum(a, b, |a| - 2);
    if Distance(a, b) == 2 {
      TwoBitsSet(BitString(Difference(a, b)), |a| - 2, 8 * |a|);
    }
  }

  // ---- What the distance counts ----

  function DifferingBits(a: seq<u8>, b: seq<u8>): set<nat>
    requires |a| == |b|
  {
    set j: nat | j < 8 * |a| && BitString(a)[j] != BitString(b)[j]
  }

  lemma {:induction false} DifferenceBit(a: seq<u8>, b: seq<u8>, j: nat)
    requires |a| == |b| && j < 8 * |a|
    ensures BitString(Difference(a, b))[j] == (BitString(a)[j] != BitString(b)[j])
  {
    XorBit(a[j / 8], b[j / 8], 7 - j % 8);
  }

  lemma {:induction false} WeightCounts(bits: seq<bool>, i: nat)
    requires i <= |bits|
    ensures Weight(bits, i) == |set j: nat | j < i && bits[j]|
    decreases i
  {
    var here := set j: nat | j < i && bits[j];
    if i > 0 {
      WeightCounts(bits, i - 1);
      var before := set j: nat | j < i - 1 && bits[j];
      assert here == if bits[i - 1] then before + {i - 1} else before;
    } else {
      assert here == {};
    }
  }

  lemma {:induction false} DistanceCounts(a: seq<u8>, b: seq<u8>)
    requires |a| == |b|
    ensures Distance(a, b) == |DifferingBits(a, b)|
  {
    var bits := BitString(Difference(a, b));
    WeightCounts(bits, |bits|);
    forall j: nat | j < 8 * |a|
      ensures bits[j] == (BitString(a)[j] != BitString(b)[j])
    {
      DifferenceBit(a, b, j);
    }
    assert DifferingBits(a, b) == set j: nat | j < |bits| && bits[j];
  }

  // ---- Bursts ----

  /** Every bit set lies in the window of at most sixteen payload bits that ends before `last`. */
  ghost predicate Burst(bits: seq<bool>, n: nat, start: nat, last: nat) {
    |bits| == 8 * n + 16 && start <= last <= start + 16 && last <= 8 * n &&
    forall j :: 0 <= j < |bits| && bits[j] ==> start <= j < last
  }

  /** The window up to bit `i`, read as a word whose lowest bit is bit `last - 1`. */
  function Window(bits: seq<bool>, start: nat, last: nat, i: nat): u16
    requires start <= i <= last <= |bits|
    decreases i
  {
    if i == start then 0 else Xor16(Window(bits, start, last, i - 1), Term(bits[i - 1], last - i))
  }

  lemma {:induction false} WindowBit(bits: seq<bool>, start: nat, last: nat, i: nat, k: nat)
    requires start <= i <= last <= |bits| && last - start <= 16 && k < 16
    ensures Bit(Window(bits, start, last, i), k) == (start <= last - 1 - k < i && bits[last - 1 - k])
    decreases i
  {
    ZeroHasNoBit(k);
    if i == start {
    } else {
      WindowBit(bits, start, last, i - 1, k);
      LowPowerBit(last - i, k);
      XorBit(Window(bits, start, last, i - 1), Term(bits[i - 1], last - i), k);
    }
  }

  lemma {:induction false} TermAhead(isSet: bool, exponent: nat, m: nat)
    ensures Steps(Term(isSet, exponent), m) == Term(isSet, exponent + m)
  {
    StepsKernel(0, m);
    StepsAdd(1, exponent, m);
  }

  lemma {:induction false} SumOfBurst(bits: seq<bool>, n: nat, start: nat, last: nat, i: nat)
    requires Burst(bits, n, start, last) && start <= i <= last
    ensures Sum(bits, n, i) == Steps(Window(bits, start, last, i), 8 * n + 16 - last)
    decreases i
  {
    var m := 8 * n + 16 - last;
    if i == start {
      ClearSum(bits, n, start);
      StepsKernel(0, m);
    } else {
      SumOfBurst(bits, n, start, last, i - 1);
      StepsXor(Window(bits, start, last, i - 1), Term(bits[i - 1], last - i), m);
      TermAhead(bits[i - 1], last - i, m);
    }
  }

  lemma {:induction false} ClearSum(bits: seq<bool>, n: nat, i: nat)
    requires |bits| == 8 * n + 16 && i <= |bits|
    requires forall j :: 0 <= j < i ==> !bits[j]
    ensures Sum(bits, n, i) == 0
    decreases i
  {
    if i == 0 {
    } else {
      ClearSum(bits, n, i - 1);
      XorZero(0);
    }
  }

  lemma {:induction false} SumPastBurst(bits: seq<bool>, n: nat, last: nat, i: nat)
    requires |bits| == 8 * n + 16 && last <= i <= |bits|
    requires forall j :: last <= j < i ==> !bits[j]
    ensures Sum(bits, n, i) == Sum(bits, n, last)
    decreases i
  {
    if i == last {
    } else {
      SumPastBurst(bits, n, last, i - 1);
      XorZero(Sum(bits, n, i - 1));
    }
  }

  lemma {:induction false} BurstDoesNotVanish(bits: seq<bool>, n: nat, start: nat, last: nat, j: nat)
    requires Burst(bits, n, start, last) && j < |bits| && bits[j]
    ensures Sum(bits, n, |bits|) != 0
  {
    var word := Window(bits, start, last, last);
    SumPastBurst(bits, n, last, |bits|);
    SumOfBurst(bits, n, start, last, last);
    WindowBit(bits, start, last, last, last - 1 - j);
    ZeroHasNoBit(last - 1 - j);
    StepsKernel(word, 8 * n + 16 - last);
  }

  /** Valid strings of any length that differ only within sixteen consecutive payload
      bits are equal: every such error burst is detected. */
  lemma {:induction false} BurstsDetected(a: seq<u8>, b: seq<u8>, start: nat)
    requires |a| == |b| && CrcValid(a) && CrcValid(b)
    requires forall j :: j in DifferingBits(a, b) ==> start <= j < start + 16 && j < 8 * (|a| - 2)
    ensures a == b
  {
    if a != b {
      var n, bits := |a| - 2, BitString(Difference(a, b));
      forall j: nat | j < |bits| && bits[j]
        ensures j in DifferingBits(a, b)
      {
        DifferenceBit(a, b, j);
      }
      DistanceCounts(a, b);
      SomeBitDiffers(a, b);
      var j :| j in DifferingBits(a, b);
      DifferenceBit(a, b, j);
      VanishingSum(a, b, n);
      var last := if start + 16 <= 8 * n then start + 16 else 8 * n;
      BurstDoesNotVanish(bits, n, start, last, j);
    }
  }

  // ---- Parity of the data itself ----

  function Zeros(n: nat): (z: seq<u8>)
    ensures |z| == n
  {
    seq(n, i => 0)
  }

  lemma {:induction false} ZerosKeepParity(r: u16, n: nat)
    ensures OddBits(Absorb(r, Zeros(n)), WORD_BITS) == OddBits(r, WORD_BITS)
    decreases n
  {
    if n == 0 {
    } else {
      ZerosKeepParity(r, n - 1);
      assert Zeros(n)[..n - 1] == Zeros(n - 1);
      var before := Absorb(r, Zeros(n - 1));
      XorZero(before);
      StepsKeepParity(before, BYTE_BITS);
    }
  }

  lemma {:induction false} CrcOfData(bytes: seq<u8>)
    ensures Crc(bytes) == Xor16(Absorb(INITIAL_REGISTER, Zeros(|bytes|)), Absorb(0, bytes))
  {
    AbsorbXor(INITIAL_REGISTER, 0, Zeros(|bytes|), bytes);
    XorZero(INITIAL_REGISTER);
    forall i | 0 <= i < |bytes|
      ensures XorByte(0, bytes[i]) == bytes[i]
    {
      XorCommutes(0, bytes[i]);
      XorZero(bytes[i]);
    }
    assert Difference(Zeros(|bytes|), bytes) == bytes;
  }

  lemma {:induction false} AllOnes(w: nat, k: nat)
    requires k < w
    ensures Bit(Pow2(w) - 1, k)
    decreases w
  {
    if k == 0 {
    } else {
      assert (Pow2(w) - 1) / 2 == Pow2(w - 1) - 1;
      AllOnes(w - 1, k - 1);
    }
  }

  lemma {:induction false} OddBitsOfAllOnes(w: nat, u: nat)
    requires u <= w
    ensures OddBits(Pow2(w) - 1, u) == (u % 2 == 1)
    decreases u
  {
    if u == 0 {
    } else {
      OddBitsOfAllOnes(w, u - 1);
      AllOnes(w, u - 1);
    }
  }

  /** The initial register does not affect the parity of the CRC. */
  lemma {:induction false} CrcParityFromZero(bytes: seq<u8>)
    ensures OddBits(Crc(bytes), WORD_BITS) == OddBits(Absorb(0, bytes), WORD_BITS)
  {
    CrcOfData(bytes);
    OddBitsXor(Absorb(INITIAL_REGISTER, Zeros(|bytes|)), Absorb(0, bytes), WORD_BITS);
    ZerosKeepParity(INITIAL_REGISTER, |bytes|);
    Pow2Of16();
    OddBitsOfAllOnes(WORD_BITS, WORD_BITS);
  }

  lemma {:induction false} SameWeight(a: seq<bool>, b: seq<bool>, i: nat)
    requires i <= |a| && i <= |b| && a[..i] == b[..i]
    ensures Weight(a, i) == Weight(b, i)
    decreases i
  {
    if i == 0 {
    } else {
      assert a[..i - 1] == a[..i][..i - 1] && b[..i - 1] == b[..i][..i - 1];
      assert a[i - 1] == a[..i][i - 1] && b[i - 1] == b[..i][i - 1];
      SameWeight(a, b, i - 1);
    }
  }

  lemma {:induction false} ClearTail(bits: seq<bool>, i: nat, j: nat)
    requires i <= j <= |bits| && forall k :: i <= k < j ==> !bits[k]
    ensures Weight(bits, j) == Weight(bits, i)
    decreases j
  {
    if i == j {
    } else {
      ClearTail(bits, i, j - 1);
    }
  }

  lemma {:induction false} PaddedBit(bytes: seq<u8>, k: nat)
    requires k < 8 * |bytes| + 16
    ensures BitString(bytes + [0, 0])[k] == (k < 8 * |bytes| && BitString(bytes)[k])
  {
    var b := (bytes + [0, 0])[k / 8];
    if k < 8 * |bytes| {
      assert b == bytes[k / 8];
    } else {
      assert b == 0;
      ZeroHasNoBit(7 - k % 8);
    }
  }

  lemma {:induction false} PaddedWeight(data: seq<bool>, padded: seq<bool>)
    requires |padded| == |data| + 16
    requires forall k :: 0 <= k < |padded| ==> padded[k] == (k < |data| && data[k])
    ensures Weight(padded, |padded|) == Weight(data, |data|)
  {
    ClearTail(padded, |data|, |padded|);
    SameWeight(padded, data, |data|);
  }

  lemma {:induction false} SyndromeParity(e: seq<u8>)
    requires |e| >= 2
    ensures OddBits(Syndrome(e), WORD_BITS) <==> Weight(BitString(e), |BitString(e)|) % 2 == 1
  {
    SyndromeIsSum(e, |e| - 2);
    SumParity(BitString(e), |e| - 2, 8 * |e|);
  }

  lemma {:induction false} SyndromeOfPadded(bytes: seq<u8>)
    ensures Syndrome(bytes + [0, 0]) == Absorb(0, bytes)
  {
    assert (bytes + [0, 0])[..|bytes|] == bytes;
    XorZero(Absorb(0, bytes));
  }

  /** For data of any length the parity of the CRC is the parity of the data. */
  lemma {:induction false} CrcParity(bytes: seq<u8>)
    ensures OddBits(Crc(bytes), WORD_BITS) <==> Weight(BitString(bytes), 8 * |bytes|) % 2 == 1
  {
    var padded := bytes + [0, 0];
    forall k | 0 <= k < |BitString(padded)|
      ensures BitString(padded)[k] == (k < |BitString(bytes)| && BitString(bytes)[k])
    {
      PaddedBit(bytes, k);
    }
    PaddedWeight(BitString(bytes), BitString(padded));
    SyndromeParity(padded);
    SyndromeOfPadded(bytes);
    CrcParityFromZero(bytes);
  }

  /** A valid string of any length has an even number of bits set. */
  lemma {:induction false} ValidHasEvenWeight(s: seq<u8>)
    requires CrcValid(s)
    ensures Weight(BitString(s), 8 * |s|) % 2 == 0
  {
    SyndromeParity(s);
    OddBitsXor(Absorb(0, s[..|s| - 2]), CrcField(s), WORD_BITS);
    CrcParityFromZero(s[..|s| - 2]);
  }

  // ---- Four errors can hide ----

  /** `s` with the last payload bit and the three bits of the CRC field that it feeds flipped. */
  function Disguise(s: seq<u8>): (t: seq<u8>)
    requires |s| >= 3
    ensures |t| == |s|
  {
    var n := |s| - 3;
    s[..n] + [XorByte(s[n], 0x01), XorByte(s[n + 1], 0x21), XorByte(s[n + 2], 0x10)]
  }

  lemma {:induction false} XorTwice(a: u8, b: u8)
    ensures XorByte(a, XorByte(a, b)) == b
  {
    XorAssociates(a, a, b);
    XorSelf(a);
    XorCommutes(0, b);
    XorZero(b);
  }

  lemma {:induction false} DisguiseDifference(s: seq<u8>)
    requires |s| >= 3
    ensures Difference(s, Disguise(s)) == Zeros(|s| - 3) + [0x01, 0x21, 0x10]
  {
    var n, e := |s| - 3, Difference(s, Disguise(s));
    XorTwice(s[n], 0x01);
    XorTwice(s[n + 1], 0x21);
    XorTwice(s[n + 2], 0x10);
    forall i | 0 <= i < n
      ensures e[i] == 0
    {
      XorSelf(s[i]);
    }
    assert e == Zeros(n) + [0x01, 0x21, 0x10];
  }

  lemma {:induction false} AbsorbZeros(n: nat)
    ensures Absorb(0, Zeros(n)) == 0
  {
    if n == 0 {
    } else {
      AbsorbZeros(n - 1);
      assert Zeros(n)[..n - 1] == Zeros(n - 1);
      XorZero(0);
      StepsKernel(0, BYTE_BITS);
    }
  }

  lemma {:induction false} LowPower(n: nat)
    requires n < 16
    ensures Steps(1, n) == Pow2(n)
  {
    forall k: nat | k < 16
      ensures Bit(Steps(1, n), k) == Bit(Pow2(n), k)
    {
      LowPowerBit(n, k);
      PowerOfTwoBit(n, k);
    }
    Pow2Of16();
    Pow2Grows(n, 16);
    SameBits(Steps(1, n), Pow2(n), 16);
  }

  lemma {:induction false} Pow2Grows(n: nat, w: nat)
    requires n < w
    ensures Pow2(n) < Pow2(w)
    decreases w
  {
    if n == w - 1 {
    } else {
      Pow2Grows(n, w - 1);
    }
  }

  /** The last payload bit contributes x^16, which is the generator without its leading term. */
  lemma LastBitFeeds()
    ensures AbsorbByte(0, 1) == POLYNOMIAL
  {
    Pow2Of16();
    LowPower(BYTE_BITS);
    LowPower(BYTE_BITS + 7);
    XorCommutes(0, High(1));
    XorZero(High(1));
    StepsAdd(1, BYTE_BITS, BYTE_BITS);
    assert Steps(1, BYTE_BITS + BYTE_BITS) == Step(Steps(1, BYTE_BITS + 7));
    XorCommutes(0, POLYNOMIAL);
    XorZero(POLYNOMIAL);
  }

  lemma {:induction false} DisguiseSyndrome(n: nat)
    ensures Syndrome(Zeros(n) + [0x01, 0x21, 0x10]) == 0
  {
    var e: seq<u8> := Zeros(n) + [0x01, 0x21, 0x10];
    assert e[..n + 1][..n] == Zeros(n);
    AbsorbZeros(n);
    assert Absorb(0, e[..n + 1]) == AbsorbByte(0, 1);
    LastBitFeeds();
    XorSelf(POLYNOMIAL);
  }

  lemma {:induction false} DisguiseBits(n: nat, j: nat)
    requires j < 8 * (n + 3)
    ensures BitString(Zeros(n) + [0x01, 0x21, 0x10])[j] <==>
            j == 8 * n + 7 || j == 8 * n + 10 || j == 8 * n + 15 || j == 8 * n + 19
  {
    var e: seq<u8> := Zeros(n) + [0x01, 0x21, 0x10];
    var k := 7 - j % 8;
    assert j == 8 * (j / 8) + (7 - k);
    if j / 8 < n {
      ZeroHasNoBit(k);
    } else if j / 8 == n {
      PowerOfTwoBit(0, k);
    } else if j / 8 == n + 1 {
      assert 0x21 == 1 + Pow2(5) * 1;
      GluedBit(1, 1, 5, k);
      PowerOfTwoBit(0, if k < 5 then k else k - 5);
    } else {
      assert Pow2(4) == 0x10;
      PowerOfTwoBit(4, k);
    }
  }

  lemma {:induction false} DisguiseIsValid(s: seq<u8>)
    requires CrcValid(s) && |s| >= 3
    ensures CrcValid(Disguise(s))
  {
    DisguiseDifference(s);
    DisguiseSyndrome(|s| - 3);
    ValidIffSyndromeVanishes(s, Disguise(s));
  }

  lemma {:induction false} DisguiseDiffers(s: seq<u8>, j: nat)
    requires |s| >= 3 && j < 8 * |s|
    ensures j in DifferingBits(s, Disguise(s)) <==>
            j in {8 * |s| - 17, 8 * |s| - 14, 8 * |s| - 9, 8 * |s| - 5}
  {
    DisguiseDifference(s);
    DifferenceBit(s, Disguise(s), j);
    DisguiseBits(|s| - 3, j);
  }

  /** The guarantees are tight: every valid string has a valid neighbour at distance four,
      and the four bits, thirteen positions from first to last, straddle the CRC field. */
  lemma {:induction false} FourErrorsCanHide(s: seq<u8>)
    requires CrcValid(s) && |s| >= 3
    ensures CrcValid(Disguise(s)) && Distance(s, Disguise(s)) == 4
    ensures DifferingBits(s, Disguise(s)) == {8 * |s| - 17, 8 * |s| - 14, 8 * |s| - 9, 8 * |s| - 5}
    ensures Disguise(s) != s
  {
    DisguiseIsValid(s);
    var hidden: set<nat> := {8 * |s| - 17, 8 * |s| - 14, 8 * |s| - 9, 8 * |s| - 5};
    var found := DifferingBits(s, Disguise(s));
    forall j: nat
      ensures j in found <==> j in hidden
    {
      if j < 8 * |s| {
        DisguiseDiffers(s, j);
      }
    }
    assert found == hidden;
    assert 8 * |s| - 17 in found;
    DistanceCounts(s, Disguise(s));
  }
}
