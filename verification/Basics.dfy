/** Machine integers, network byte order, and optional values. */
module Basics {

  type u8 = x: int | 0 <= x < 0x100
  type u16 = x: int | 0 <= x < 0x10000
  type u32 = x: int | 0 <= x < 0x1_0000_0000

  datatype Option<+T> = None | Some(value: T)

  function Short(v: u16): seq<u8> { [v / 0x100, v % 0x100] }

  function Long(v: u32): seq<u8> { [v / 0x100_0000, v / 0x1_0000 % 0x100, v / 0x100 % 0x100, v % 0x100] }

  function GetShort(b: seq<u8>): u16
    requires |b| >= 2
  {
    (b[0] as int) * 0x100 + b[1] as int
  }

  function GetLong(b: seq<u8>): u32
    requires |b| >= 4
  {
    (b[0] as int) * 0x100_0000 + (b[1] as int) * 0x1_0000 + (b[2] as int) * 0x100 + b[3] as int
  }

  lemma {:induction false} ShortRoundTrip(v: u16, rest: seq<u8>)
    ensures GetShort(Short(v) + rest) == v
  {
  }

  lemma {:induction false} LongRoundTrip(v: u32, rest: seq<u8>)
    ensures GetLong(Long(v) + rest) == v
  {
    var b := Long(v) + rest;
    assert b[0] == v / 0x100_0000 && b[1] == v / 0x1_0000 % 0x100 && b[2] == v / 0x100 % 0x100 && b[3] == v % 0x100;
    assert v / 0x100_0000 == v / 0x1_0000 / 0x100;
    assert v / 0x1_0000 == v / 0x100 / 0x100;
  }

  /** The Babel metric of what cannot be reached. */
  const INFINITY: u16 := 0xFFFF

  lemma {:induction false} Regroup<T>(a: seq<T>, b: seq<T>, c: seq<T>)
    ensures a + (b + c) == a + b + c
  {
  }

  lemma {:induction false} MultipleAtLeast(n: nat, m: nat)
    requires n >= 1
    ensures n * m >= m
  {
    assert (n - 1) * m >= 0;
  }

  lemma {:induction false} ProductOrder(m: nat, x: nat, y: nat)
    requires m > 0
    ensures x <= y ==> m * x <= m * y
    ensures x < y ==> m * x < m * y
  {
    if x < y {
      MultipleAtLeast(y - x, m);
      assert m * y == m * x + (y - x) * m;
    }
  }
}
