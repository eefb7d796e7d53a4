/**
 Sequence numbers of Babel (section 3.2.1 of RFC 8966): 16-bit integers compared
 modulo 2^16.
 */
module Seqno {
  import opened Basics

  /** Bit 15 of the 16-bit difference decides; distance exactly 2^15 answers 1 both ways. */
  function Compare(s1: u16, s2: u16): int {
    if s1 == s2 then 0
    else if (s2 - s1) % 0x10000 >= 0x8000 then 1 else -1
  }

  /** The signed 16-bit difference. */
  function Minus(s1: u16, s2: u16): int {
    var d := (s1 - s2) % 0x10000;
    if d >= 0x8000 then d - 0x10000 else d
  }

  function Plus(s: u16, plus: int): u16 {
    (s + plus) % 0x10000
  }

  function Sign(x: int): int {
    if x > 0 then 1 else if x < 0 then -1 else 0
  }

  /** `s` lies in the half circle that starts at `base`. */
  predicate InWindow(base: u16, s: u16) {
    (s - base) % 0x10000 < 0x8000
  }

  /** Inside one half circle the modular comparison is the order of the offsets. */
  lemma {:induction false} CompareInWindow(base: u16, s1: u16, s2: u16)
    requires InWindow(base, s1) && InWindow(base, s2)
    ensures Compare(s1, s2) == Sign((s1 - base) % 0x10000 - (s2 - base) % 0x10000)
  {
  }

  /**
   For unbounded counters less than 2^15 apart the modular comparison and difference
   are the integer ones.
   */
  lemma {:induction false} RefinesIntegers(x: int, y: int)
    requires -0x8000 < x - y < 0x8000
    ensures Compare(x % 0x10000, y % 0x10000) == Sign(x - y)
    ensures Minus(x % 0x10000, y % 0x10000) == x - y
    ensures Plus(y % 0x10000, x - y) == x % 0x10000
  {
    var a, b := x % 0x10000, y % 0x10000;
    var kx, ky := x / 0x10000, y / 0x10000;
    assert x == kx * 0x10000 + a && y == ky * 0x10000 + b;
    assert kx - ky == 0 || kx - ky == 1 || kx - ky == -1;
    assert (b + (x - y) - a) == (kx - ky) * 0x10000;
  }

  /** The comparison is antisymmetric exactly when the two are not 2^15 apart. */
  lemma {:induction false} AntisymmetricIff(a: u16, b: u16)
    ensures Compare(a, b) == -Compare(b, a) <==> (a - b) % 0x10000 != 0x8000
  {
  }

  /** Beyond a half circle the comparison is not transitive. */
  lemma {:induction false} NotTransitive()
    ensures Compare(0x8000 - 1, 0) > 0 && Compare(0xFFFE, 0x8000 - 1) > 0 && !(Compare(0xFFFE, 0) > 0)
  {
  }
}
