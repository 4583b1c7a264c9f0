/** The CRC as the remainder of a polynomial division, worked out bit by bit on paper: no
    register and no shift. The first sixteen bits of the data are complemented and sixteen
    zero bits are appended, which is what a register preset to all ones amounts to. */
module LongDivision {
  import opened Words
  import opened Bits
  import opened Crc16
  import opened ErrorDetection
  import CrcPowers

  /** x^16 + x^12 + x^5 + 1, leading coefficient first. */
  const GENERATOR: seq<bool> :=
    [true, false, false, false, true, false, false, false, false, false, false, true,
     false, false, false, false, true]

  /** One line of the division: the leading bit goes, after the generator is subtracted
      under it if it is set. */
  function Reduced(bits: seq<bool>): (rest: seq<bool>)
    requires |bits| > 16
    ensures |rest| == |bits| - 1
  {
    seq(|bits| - 1, i requires 0 <= i < |bits| - 1 =>
      bits[i + 1] != (bits[0] && i < 16 && GENERATOR[i + 1]))
  }

  function Remainder(bits: seq<bool>): (rest: seq<bool>)
    requires |bits| >= 16
    ensures |rest| == 16
    decreases |bits|
  {
    if |bits| == 16 then bits else Remainder(Reduced(bits))
  }

  /** The data as it is divided. */
  function Dividend(data: seq<u8>): (bits: seq<bool>)
    requires |data| >= 2
    ensures |bits| == 8 * |data| + 16
  {
    Complemented(BitString(data)) + NoBits(16)
  }

  function NoBits(n: nat): (bits: seq<bool>)
    ensures |bits| == n && forall i :: 0 <= i < n ==> !bits[i]
  {
    seq(n, i => false)
  }

  function Complemented(bits: seq<bool>): (flipped: seq<bool>)
    requires |bits| >= 16
    ensures |flipped| == |bits|
  {
    seq(|bits|, i requires 0 <= i < |bits| => bits[i] != (i < 16))
  }

  /** The bits of a register, most significant first. */
  function WordBits(r: u16): seq<bool> {
    seq(16, i requires 0 <= i < 16 => Bit(r, 15 - i))
  }

  // ---- A bit string as a polynomial modulo the generator ----

  function Digit(bit: bool): u16 {
    if bit then 1 else 0
  }

  /** Times x, plus a coefficient; kept folded as `Bits.Xor` is. */
  function Append(r: u16, bit: bool): u16 {
    DelayedAppend(r, bit, 2)
  }

  function DelayedAppend(r: u16, bit: bool, delay: nat): u16
    decreases r, delay
  {
    if delay > 0 then DelayedAppend(r, bit, delay - 1) else Xor16(Step(r), Digit(bit))
  }

  lemma {:induction false} UnfoldAppend(r: u16, bit: bool)
    ensures Append(r, bit) == Xor16(Step(r), Digit(bit))
  {
    assert DelayedAppend(r, bit, 2) == DelayedAppend(r, bit, 1) == DelayedAppend(r, bit, 0);
  }

  /** Horner's rule. */
  function Horner(bits: seq<bool>): u16
    decreases |bits|
  {
    if bits == [] then 0 else Append(Horner(bits[..|bits| - 1]), bits[|bits| - 1])
  }

  /** The same from a value on. */
  function Continue(r: u16, bits: seq<bool>): u16
    decreases |bits|
  {
    if bits == [] then r else Append(Continue(r, bits[..|bits| - 1]), bits[|bits| - 1])
  }

  lemma {:induction false} HornerContinues(head: seq<bool>, tail: seq<bool>)
    ensures Horner(head + tail) == Continue(Horner(head), tail)
    decreases |tail|
  {
    if tail == [] {
      assert head + tail == head;
    } else {
      HornerContinues(head, tail[..|tail| - 1]);
      assert (head + tail)[..|head + tail| - 1] == head + tail[..|tail| - 1];
    }
  }

  lemma {:induction false} DigitBit(bit: bool, k: nat)
    ensures Bit(Digit(bit), k) == (bit && k == 0)
  {
    if bit {
      PowerOfTwoBit(0, k);
    } else {
      ZeroHasNoBit(k);
    }
  }

  lemma {:induction false} AppendBit(r: u16, bit: bool, k: nat)
    requires k < 16
    ensures Bit(Append(r, bit), k) ==
            ((if k == 0 then bit else Bit(r, k - 1)) != (Bit(r, 15) && Tap(k)))
  {
    UnfoldAppend(r, bit);
    StepBit(r, k);
    DigitBit(bit, k);
    XorBit(Step(r), Digit(bit), k);
  }

  /** Up to sixteen bits nothing is reduced. */
  lemma {:induction false} ShortHorner(bits: seq<bool>, k: nat)
    requires |bits| <= 16 && k < 16
    ensures Bit(Horner(bits), k) == (k < |bits| && bits[|bits| - 1 - k])
    decreases |bits|
  {
    if bits == [] {
      ZeroHasNoBit(k);
    } else {
      var n := |bits| - 1;
      AppendBit(Horner(bits[..n]), bits[n], k);
      ShortHorner(bits[..n], 15);
      if k > 0 {
        ShortHorner(bits[..n], k - 1);
      }
    }
  }

  lemma {:induction false} GeneratorTaps(k: nat)
    requires k < 16
    ensures GENERATOR[16 - k] == Tap(k)
  {
  }

  lemma {:induction false} FirstLineBit(bits: seq<bool>, k: nat)
    requires |bits| == 17 && k < 16
    ensures Bit(Horner(bits), k) == Bit(Horner(Reduced(bits)), k)
  {
    AppendBit(Horner(bits[..16]), bits[16], k);
    ShortHorner(bits[..16], 15);
    if k > 0 {
      ShortHorner(bits[..16], k - 1);
    }
    ShortHorner(Reduced(bits), k);
    GeneratorTaps(k);
  }

  /** A line of the division keeps the polynomial modulo the generator. */
  lemma {:induction false} ReducedSame(bits: seq<bool>)
    requires |bits| > 16
    ensures Horner(Reduced(bits)) == Horner(bits)
  {
    var head, tail := bits[..17], bits[17..];
    assert bits == head + tail;
    assert Reduced(bits) == Reduced(head) + tail;
    HornerContinues(head, tail);
    HornerContinues(Reduced(head), tail);
    forall k: nat | k < 16
      ensures Bit(Horner(head), k) == Bit(Horner(Reduced(head)), k)
    {
      FirstLineBit(head, k);
    }
    SameWord(Horner(head), Horner(Reduced(head)));
  }

  lemma {:induction false} RemainderIsHorner(bits: seq<bool>)
    requires |bits| >= 16
    ensures Remainder(bits) == WordBits(Horner(bits))
    decreases |bits|
  {
    if |bits| == 16 {
      forall i | 0 <= i < 16
        ensures bits[i] == WordBits(Horner(bits))[i]
      {
        ShortHorner(bits, 15 - i);
      }
    } else {
      ReducedSame(bits);
      RemainderIsHorner(Reduced(bits));
    }
  }

  // ---- The register does the same sum ----

  lemma {:induction false} AppendXor(a: u16, b: u16, bit: bool)
    ensures Append(Xor16(a, b), bit) == Xor16(Step(a), Append(b, bit))
  {
    UnfoldAppend(Xor16(a, b), bit);
    UnfoldAppend(b, bit);
    StepXor(a, b);
    XorAssociates(Step(a), Step(b), Digit(bit));
  }

  lemma {:induction false} ContinueXor(a: u16, b: u16, bits: seq<bool>)
    ensures Continue(Xor16(a, b), bits) == Xor16(Steps(a, |bits|), Continue(b, bits))
    decreases |bits|
  {
    if bits == [] {
    } else {
      var n := |bits| - 1;
      ContinueXor(a, b, bits[..n]);
      AppendXor(Steps(a, n), Continue(b, bits[..n]), bits[n]);
    }
  }

  lemma {:induction false} ContinueZeros(r: u16, n: nat)
    ensures Continue(r, NoBits(n)) == Steps(r, n)
    decreases n
  {
    if n == 0 {
    } else {
      ContinueZeros(r, n - 1);
      assert NoBits(n)[..n - 1] == NoBits(n - 1);
      UnfoldAppend(Steps(r, n - 1), false);
      XorZero(Step(Steps(r, n - 1)));
    }
  }

  lemma {:induction false} DigitSteps(bit: bool, m: nat)
    ensures Steps(Digit(bit), m) == Term(bit, m)
  {
    StepsKernel(0, m);
  }

  lemma {:induction false} HornerNextSum(sum: u16, before: u16, bit: bool, m: nat)
    requires sum == Steps(before, m + 1)
    ensures Xor16(sum, Term(bit, m)) == Steps(Append(before, bit), m)
  {
    UnfoldAppend(before, bit);
    StepsAdd(before, 1, m);
    assert Steps(before, 1) == Step(Steps(before, 0));
    StepsXor(Step(before), Digit(bit), m);
    DigitSteps(bit, m);
  }

  /** The sum of powers of the first `i` payload bits, by Horner's rule. */
  lemma {:induction false} SumIsHorner(bits: seq<bool>, n: nat, i: nat, m: nat)
    requires |bits| == 8 * n + 16 && i <= 8 * n && m == 8 * n + 16 - i
    ensures Sum(bits, n, i) == Steps(Horner(bits[..i]), m)
    decreases i
  {
    if i == 0 {
      StepsKernel(0, m);
    } else {
      SumIsHorner(bits, n, i - 1, m + 1);
      assert bits[..i][..i - 1] == bits[..i - 1];
      HornerNextSum(Sum(bits, n, i - 1), Horner(bits[..i - 1]), bits[i - 1], m);
    }
  }

  /** From a zero register the bytes are absorbed as their polynomial times x^16. */
  lemma {:induction false} AbsorbIsHorner(data: seq<u8>)
    ensures Absorb(0, data) == Steps(Horner(BitString(data)), WORD_BITS)
  {
    var n, padded := |data|, data + [0, 0];
    assert padded[..n] == data;
    PayloadSum(padded, n, n, 0);
    SumIsHorner(BitString(padded), n, 8 * n, WORD_BITS);
    assert BitString(padded)[..8 * n] == BitString(data);
  }

  lemma {:induction false} AbsorbZeroByte(before: u16, r: u16, m: nat)
    requires before == Steps(r, m)
    ensures AbsorbByte(before, 0) == Steps(r, m + BYTE_BITS)
  {
    XorZero(before);
    StepsAdd(r, m, BYTE_BITS);
  }

  lemma {:induction false} AbsorbSnoc(r: u16, data: seq<u8>, b: u8)
    ensures Absorb(r, data + [b]) == AbsorbByte(Absorb(r, data), b)
  {
    assert (data + [b])[..|data|] == data;
  }

  lemma {:induction false} AbsorbZerosSteps(r: u16, n: nat, m: nat)
    requires m == 8 * n
    ensures Absorb(r, Zeros(n)) == Steps(r, m)
    decreases n
  {
    if n == 0 {
    } else {
      AbsorbZerosSteps(r, n - 1, m - BYTE_BITS);
      assert Zeros(n) == Zeros(n - 1) + [0];
      AbsorbSnoc(r, Zeros(n - 1), 0);
      AbsorbZeroByte(Absorb(r, Zeros(n - 1)), r, m - BYTE_BITS);
    }
  }

  // ---- Complementing the first bits is presetting the register ----

  lemma {:induction false} AllOnesBit(k: nat)
    requires k < 16
    ensures Bit(0xFFFF, k)
  {
    Pow2Of16();
    AllOnes(16, k);
  }

  lemma {:induction false} ComplementedHead(bits: seq<bool>)
    requires |bits| == 16
    ensures Horner(Complemented(bits)) == Xor16(0xFFFF, Horner(bits))
  {
    forall k: nat | k < 16
      ensures Bit(Horner(Complemented(bits)), k) == Bit(Xor16(0xFFFF, Horner(bits)), k)
    {
      ShortHorner(Complemented(bits), k);
      ShortHorner(bits, k);
      XorBit(0xFFFF, Horner(bits), k);
      AllOnesBit(k);
    }
    SameWord(Horner(Complemented(bits)), Xor16(0xFFFF, Horner(bits)));
  }

  lemma {:induction false} ComplementedHorner(bits: seq<bool>)
    requires |bits| >= 16
    ensures Horner(Complemented(bits)) == Xor16(Steps(0xFFFF, |bits| - 16), Horner(bits))
  {
    var head, tail := bits[..16], bits[16..];
    assert bits == head + tail;
    assert Complemented(bits) == Complemented(head) + tail;
    HornerContinues(head, tail);
    HornerContinues(Complemented(head), tail);
    ComplementedHead(head);
    ContinueXor(0xFFFF, Horner(head), tail);
  }

  lemma {:induction false} PaddedHorner(bits: seq<bool>)
    ensures Horner(bits + NoBits(16)) == Steps(Horner(bits), WORD_BITS)
  {
    HornerContinues(bits, NoBits(16));
    ContinueZeros(Horner(bits), WORD_BITS);
  }

  lemma {:induction false} ShiftedSum(padded: u16, flipped: u16, plain: u16, m: nat, n: nat)
    requires padded == Steps(flipped, WORD_BITS) && flipped == Xor16(Steps(0xFFFF, m), plain) && n == m + 16
    ensures padded == Xor16(Steps(0xFFFF, n), Steps(plain, WORD_BITS))
  {
    StepsXor(Steps(0xFFFF, m), plain, WORD_BITS);
    StepsAdd(0xFFFF, m, WORD_BITS);
  }

  lemma {:induction false} DividendHorner(bits: seq<bool>, flipped: seq<bool>, padded: seq<bool>)
    requires |bits| >= 16 && flipped == Complemented(bits) && padded == flipped + NoBits(16)
    ensures Horner(padded) == Xor16(Steps(0xFFFF, |bits|), Steps(Horner(bits), WORD_BITS))
  {
    PaddedHorner(flipped);
    ComplementedHorner(bits);
    ShiftedSum(Horner(padded), Horner(flipped), Horner(bits), |bits| - 16, |bits|);
  }

  lemma {:induction false} CrcIsHorner(data: seq<u8>)
    requires |data| >= 2
    ensures Crc(data) == Horner(Dividend(data))
  {
    CrcOfData(data);
    AbsorbZerosSteps(INITIAL_REGISTER, |data|, |BitString(data)|);
    AbsorbIsHorner(data);
    DividendHorner(BitString(data), Complemented(BitString(data)), Dividend(data));
  }

  /** For all data of two bytes or more the CRC is the remainder of the long division. */
  lemma {:induction false} CrcIsRemainder(data: seq<u8>)
    requires |data| >= 2
    ensures WordBits(Crc(data)) == Remainder(Dividend(data))
  {
    CrcIsHorner(data);
    RemainderIsHorner(Dividend(data));
  }

  // ---- Leading zero bytes count ----

  lemma FirstTurnsOfOnes()
    ensures Step(0xFFFF) == 0xEFDF && Step(0xEFDF) == 0xCF9F && Step(0xCF9F) == 0x8F1F && Step(0x8F1F) == 0x0E1F
  {
    CrcPowers.StepOnFields(15, 127, 31);
    CrcPowers.StepOnFields(14, 126, 31);
    CrcPowers.StepOnFields(12, 124, 31);
    CrcPowers.StepOnFields(8, 120, 31);
  }

  lemma {:induction false} EightTurnsOfOnes(n: nat)
    requires n + 8 == BYTE_BITS
    ensures Steps(0xFFFF, n + 8) == 0xE1F0
  {
    FirstTurnsOfOnes();
    assert Steps(0xFFFF, n) == 0xFFFF;
    assert Steps(0xFFFF, n + 1) == 0xEFDF;
    assert Steps(0xFFFF, n + 2) == 0xCF9F;
    assert Steps(0xFFFF, n + 3) == 0x8F1F;
    assert Steps(0xFFFF, n + 4) == 0x0E1F;
    assert Steps(0xFFFF, n + 5) == 0x1C3E;
    assert Steps(0xFFFF, n + 6) == 0x387C;
    assert Steps(0xFFFF, n + 7) == 0x70F8;
  }

  lemma {:induction false} AbsorbConcat(r: u16, a: seq<u8>, b: seq<u8>)
    ensures Absorb(r, a + b) == Absorb(Absorb(r, a), b)
    decreases |b|
  {
    if b == [] {
      assert a + b == a;
    } else {
      var n := |b| - 1;
      AbsorbConcat(r, a, b[..n]);
      AbsorbSnoc(r, a + b[..n], b[n]);
      AbsorbSnoc(Absorb(r, a), b[..n], b[n]);
      assert a + b == (a + b[..n]) + [b[n]] && b == b[..n] + [b[n]];
    }
  }

  /** Different registers stay different whatever is absorbed. */
  lemma {:induction false} AbsorbInjective(r: u16, s: u16, data: seq<u8>)
    requires Absorb(r, data) == Absorb(s, data)
    ensures r == s
  {
    AbsorbXor(r, s, data, data);
    forall i | 0 <= i < |data|
      ensures Difference(data, data)[i] == 0
    {
      XorSelf(data[i]);
    }
    assert Difference(data, data) == Zeros(|data|);
    XorSelf(Absorb(r, data));
    AbsorbZerosSteps(Xor16(r, s), |data|, 8 * |data|);
    StepsKernel(Xor16(r, s), 8 * |data|);
    XorIsZero(r, s);
  }

  /** A leading zero byte always changes the CRC, as it would not with a zero register. */
  lemma {:induction false} LeadingZeroCounts(data: seq<u8>)
    ensures Crc([0] + data) != Crc(data)
  {
    AbsorbConcat(INITIAL_REGISTER, [0], data);
    assert Zeros(1) == [0];
    AbsorbZerosSteps(INITIAL_REGISTER, 1, BYTE_BITS);
    EightTurnsOfOnes(0);
    if Crc([0] + data) == Crc(data) {
      AbsorbInjective(Absorb(INITIAL_REGISTER, [0]), INITIAL_REGISTER, data);
    }
  }
}
