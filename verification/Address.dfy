/** Bytes, 16-byte addresses and destination prefixes, as babeld stores them. */
module Address {
  import opened Basics

  type Addr = a: seq<u8> | |a| == 16 witness seq(16, _ => 0)

  /** A destination: address bytes and prefix length. */
  datatype Prefix = Prefix(addr: Addr, plen: u8)

  /** The sign of `memcmp` on equally long byte strings. */
  function Memcmp(a: seq<u8>, b: seq<u8>): int
    requires |a| == |b|
  {
    if |a| == 0 then 0
    else if a[0] != b[0] then (if a[0] < b[0] then -1 else 1)
    else Memcmp(a[1..], b[1..])
  }

  /** `route_compare`: by address, then by prefix length. */
  function ComparePrefix(p: Prefix, q: Prefix): int {
    var c := Memcmp(p.addr, q.addr);
    if c != 0 then c
    else if p.plen < q.plen then -1
    else if p.plen > q.plen then 1
    else 0
  }

  lemma {:induction false} MemcmpOrder(a: seq<u8>, b: seq<u8>)
    requires |a| == |b|
    ensures Memcmp(a, b) == -Memcmp(b, a)
    ensures Memcmp(a, b) == 0 <==> a == b
    ensures -1 <= Memcmp(a, b) <= 1
  {
    if |a| > 0 {
      MemcmpOrder(a[1..], b[1..]);
      assert a == [a[0]] + a[1..] && b == [b[0]] + b[1..];
    }
  }

  lemma {:induction false} MemcmpTransitive(a: seq<u8>, b: seq<u8>, c: seq<u8>)
    requires |a| == |b| == |c|
    requires Memcmp(a, b) < 0 && Memcmp(b, c) < 0
    ensures Memcmp(a, c) < 0
  {
    if |a| > 0 && a[0] == b[0] == c[0] {
      MemcmpTransitive(a[1..], b[1..], c[1..]);
    }
  }

  /** `route_compare` is the comparison of a strict total order. */
  lemma {:induction false} CompareOrder(p: Prefix, q: Prefix)
    ensures ComparePrefix(p, q) == -ComparePrefix(q, p)
    ensures ComparePrefix(p, q) == 0 <==> p == q
  {
    MemcmpOrder(p.addr, q.addr);
  }

  /** The first byte that differs decides. */
  lemma {:induction false} MemcmpFirst(a: seq<u8>, b: seq<u8>, i: nat)
    requires |a| == |b| && i < |a| && a[..i] == b[..i] && a[i] != b[i]
    ensures Memcmp(a, b) == if a[i] < b[i] then -1 else 1
  {
    if i > 0 {
      assert a[0] == a[..i][0] && b[0] == b[..i][0];
      assert a[1..][..i - 1] == a[..i][1..] && b[1..][..i - 1] == b[..i][1..];
      MemcmpFirst(a[1..], b[1..], i - 1);
    }
  }

  /** `route_compare` compares the bytes of the address, and then the length, as one string. */
  lemma {:induction false} CompareIsMemcmp(p: Prefix, q: Prefix)
    ensures ComparePrefix(p, q) == Memcmp(p.addr + [p.plen], q.addr + [q.plen])
  {
    MemcmpAppend(p.addr, q.addr, p.plen, q.plen);
  }

  lemma {:induction false} MemcmpAppend(a: seq<u8>, b: seq<u8>, x: u8, y: u8)
    requires |a| == |b|
    ensures
      Memcmp(a + [x], b + [y])
      == if Memcmp(a, b) != 0 then Memcmp(a, b) else if x < y then -1 else if x > y then 1 else 0
  {
    if |a| == 0 {
      assert (a + [x])[1..] == [] && (b + [y])[1..] == [];
    } else {
      assert (a + [x])[1..] == a[1..] + [x] && (b + [y])[1..] == b[1..] + [y];
      MemcmpAppend(a[1..], b[1..], x, y);
    }
  }

  lemma {:induction false} CompareTransitive(p: Prefix, q: Prefix, r: Prefix)
    requires ComparePrefix(p, q) < 0 && ComparePrefix(q, r) < 0
    ensures ComparePrefix(p, r) < 0
  {
    MemcmpOrder(p.addr, q.addr);
    MemcmpOrder(q.addr, r.addr);
    MemcmpOrder(p.addr, r.addr);
    if p.addr != q.addr && q.addr != r.addr {
      MemcmpTransitive(p.addr, q.addr, r.addr);
    }
  }

  // ---- Address families

  const V4PREFIX: seq<u8> := [0, 0, 0, 0, 0, 0, 0, 0, 0, 0, 0xFF, 0xFF]

  /** An IPv4 address or prefix stored in IPv6 form. */
  predicate V4Mapped(a: Addr) { a[..12] == V4PREFIX }

  /** Multicast, link-local, unspecified, loopback and reserved destinations. */
  predicate Martian(p: Prefix) {
    var a := p.addr;
    || (p.plen >= 8 && a[0] == 0xFF)
    || (p.plen >= 10 && a[0] == 0xFE && 0x80 <= a[1] < 0xC0)
    || (p.plen >= 128 && (forall i | 0 <= i < 15 :: a[i] == 0) && a[15] <= 1)
    || (p.plen >= 96 && V4Mapped(a)
        && ((p.plen >= 104 && (a[12] == 127 || a[12] == 0)) || (p.plen >= 100 && a[12] >= 0xE0)))
  }
}
