/**
 * The numeric value of the C++ `u16`/`u32` words, which the model keeps as
 * bit-vectors, and the way back from a number to a `u16`. The numbers are
 * what the Python side computes with.
 */
module Words {

  /** The upper half of a 32-bit word. */
  function Hi(x: bv32): bv16 {
    (x >> 16) as bv16
  }

  /** The lower half of a 32-bit word. */
  function Lo(x: bv32): bv16 {
    (x & 0xFFFF) as bv16
  }

  lemma JoinValue(h: bv16, l: bv16, y: bv32)
    requires y == ((h as bv32) << 16) | (l as bv32)
    ensures y as int == h as int * 65536 + l as int
  {
  }

  lemma Split(x: bv32)
    ensures x == ((Hi(x) as bv32) << 16) | (Lo(x) as bv32)
  {
  }

  /**
   * The number a 32-bit word stands for, built from its two halves; the
   * numeric lemmas about 32-bit words are stated with it, which keeps their
   * proofs to 16-bit conversions.
   */
  function Value32(x: bv32): (n: nat)
    ensures n < 0x1_0000_0000
  {
    Hi(x) as int * 65536 + Lo(x) as int
  }

  /** `Value32` is the number Dafny itself gives a 32-bit word. */
  lemma WordValue(x: bv32)
    ensures x as int == Value32(x)
  {
    Split(x);
    JoinValue(Hi(x), Lo(x), x);
  }

  lemma ShiftInZero(z: bv16, y: bv16)
    requires z < 0x8000 && y == z << 1
    ensures y as int == 2 * z as int
  {
  }

  lemma ShiftInOne(z: bv16, y: bv16)
    requires z < 0x8000 && y == (z << 1) | 1
    ensures y as int == 2 * z as int + 1
  {
  }

  /** The `u16` whose number is `v`, built one bit at a time. */
  function ToU16(v: nat): (r: bv16)
    requires v <= 0xFFFF
    ensures r as int == v
  {
    if v == 0 then 0
    else
      var z := ToU16(v / 2);
      if v % 2 == 0 then
        ShiftInZero(z, z << 1);
        z << 1
      else
        ShiftInOne(z, (z << 1) | 1);
        (z << 1) | 1
  }
}
