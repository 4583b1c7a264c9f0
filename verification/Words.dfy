/** The fixed-width unsigned integers of the flight software, as ranges of `int`.
    Arithmetic that may leave a range is reduced explicitly where it happens. */
module Words {
  const U8_SPAN := 0x100
  const U16_SPAN := 0x1_0000
  const U32_SPAN := 0x1_0000_0000
  const U64_SPAN := 0x1_0000_0000_0000_0000

  type u8 = x: int | 0 <= x < U8_SPAN
  type u16 = x: int | 0 <= x < U16_SPAN
  type u32 = x: int | 0 <= x < U32_SPAN
  type u64 = x: int | 0 <= x < U64_SPAN

  const U64_MAX: u64 := 0xFFFF_FFFF_FFFF_FFFF

  /** `n += 1U` on a 64-bit counter. */
  function Increment(n: u64): u64 {
    (n + 1) % U64_SPAN
  }

  /** A 64-bit counter follows an unbounded count modulo 2^64. */
  lemma {:induction false} IncrementCounts(counter: u64, count: nat)
    requires counter == count % U64_SPAN
    ensures Increment(counter) == (count + 1) % U64_SPAN
  {
  }

  datatype Option<+T> = None | Some(value: T)
}
