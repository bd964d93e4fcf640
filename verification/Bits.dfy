/** Bit-vector facts about packed 32-bit registers. */
module Bits {

  /** The start of a byte of a word. */
  predicate ByteShift(s: bv32) {
    s == 0 || s == 8 || s == 16 || s == 24
  }

  /** The start of a two-bit field of a word. */
  predicate PairShift(s: bv32) {
    || s == 0 || s == 2 || s == 4 || s == 6 || s == 8 || s == 10 || s == 12 || s == 14
    || s == 16 || s == 18 || s == 20 || s == 22 || s == 24 || s == 26 || s == 28 || s == 30
  }

  lemma ByteSet(reg: bv32, s: bv32, t: bv32, v: bv32)
    requires ByteShift(s) && ByteShift(t) && v <= 0xFF
    ensures (((reg & !(0xFF << s)) | (v << s)) >> t) & 0xFF == if s == t then v else (reg >> t) & 0xFF
  {
  }

  lemma PairSet(reg: bv32, s: bv32, t: bv32, v: bv32)
    requires PairShift(s) && PairShift(t) && v <= 3
    ensures (((reg & !(3 << s)) | (v << s)) >> t) & 3 == if s == t then v else (reg >> t) & 3
  {
  }

  lemma BitSet(reg: bv32, s: bv32, t: bv32)
    requires s <= 31 && t <= 31
    ensures ((reg | (1 << s)) >> t) & 1 == if s == t then 1 else (reg >> t) & 1
  {
  }

  lemma OrTwice(a: bv32, b: bv32)
    ensures a | (a | b) == a | b
  {
  }

  // Two indices in the same word of a register array have different shifts.

  lemma ByteIndex(base: bv64, i: bv32, j: bv32)
    requires i != j
    ensures base + (i / 4 * 4) as bv64 == base + (j / 4 * 4) as bv64 ==> i % 4 * 8 != j % 4 * 8
  {
  }

  lemma PairIndex(base: bv64, i: bv32, j: bv32)
    requires i != j
    ensures base + (i / 16 * 4) as bv64 == base + (j / 16 * 4) as bv64 ==> i % 16 * 2 != j % 16 * 2
  {
  }

  lemma BitIndex(base: bv64, i: bv32, j: bv32)
    requires i != j
    ensures base + (i / 32 * 4) as bv64 == base + (j / 32 * 4) as bv64 ==> i % 32 != j % 32
  {
  }
}
