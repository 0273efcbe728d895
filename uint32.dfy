/** C++ `uint32_t` arithmetic: values in [0, 2^32) and `+`/`-` reduced
    modulo 2^32, as the language defines for unsigned types. */
module Uint32 {

  const MODULUS: int := 0x1_0000_0000
  const MAX: int := 0xFFFF_FFFF

  type u32 = x: int | 0 <= x < 0x1_0000_0000

  /** Wrapping `a + b`: the mathematical sum, less 2^32 when it carries
      out of 32 bits. */
  function Add(a: u32, b: u32): (r: u32)
    ensures a + b < MODULUS ==> r == a + b
    ensures a + b >= MODULUS ==> r == a + b - MODULUS
  {
    (a + b) % MODULUS
  }

  /** Wrapping `a - b`: the unique `u32` that, added to `b`, gives `a`. */
  function Sub(a: u32, b: u32): (r: u32)
    ensures Add(b, r) == a
    ensures a >= b ==> r == a - b
    ensures a < b ==> r == MODULUS - (b - a)
  {
    (a - b) % MODULUS
  }

  /** Subtraction undoes addition of the same value. */
  lemma SubAddCancel(a: u32, b: u32)
    ensures Sub(Add(a, b), b) == a
  {
  }

  /** The difference of two readings does not change when both are
      shifted by the same amount, wrap-around included. */
  lemma SubShiftInvariant(a: u32, b: u32, d: u32)
    ensures Sub(Add(a, d), Add(b, d)) == Sub(a, b)
  {
  }

  /** One tick of a free-running counter: `t + 1`, wrapping from the
      largest value back to zero. */
  function Succ(t: u32): u32 {
    if t == MAX then 0 else t + 1
  }

  /** The counter's reading after `k` ticks starting from `s`. */
  function Advance(s: u32, k: nat): u32 {
    if k == 0 then s else Succ(Advance(s, k - 1))
  }

  /** `k` ticks move the counter by `k` modulo 2^32. */
  lemma {:induction false} AdvanceIsAdd(s: u32, k: nat)
    ensures Advance(s, k) == (s + k) % MODULUS
  {
    if k > 0 {
      AdvanceIsAdd(s, k - 1);
    }
  }

  /** Wrapping subtraction recovers the number of ticks between two
      readings, modulo 2^32: exactly `k` whenever fewer than 2^32 ticks
      have passed, however often the counter wrapped in between. */
  lemma {:induction false} ElapsedAfterTicks(s: u32, k: nat)
    ensures Sub(Advance(s, k), s) == k % MODULUS
  {
    AdvanceIsAdd(s, k);
  }
}
