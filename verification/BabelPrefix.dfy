/** Compressed network prefixes on the wire (section 4.1.5 of RFC 8966). */
module BabelPrefix {
  import opened Basics
  import opened Address

  // ---- Masking

  /** The weight of the last bit that a mask of `k` leading ones keeps. */
  function LastBit(k: nat): (p: nat)
    requires 0 < k < 8
    ensures 1 < p < 0x100
  {
    match k
    case 1 => 128
    case 2 => 64
    case 3 => 32
    case 4 => 16
    case 5 => 8
    case 6 => 4
    case _ => 2
  }

  /** A byte with its `k` leading bits only. */
  function TopBits(b: u8, k: nat): u8
    requires 0 < k < 8
  {
    KeepsByte(b, LastBit(k));
    b / LastBit(k) * LastBit(k)
  }

  lemma {:induction false} KeepsByte(b: nat, p: nat)
    requires p > 0
    ensures 0 <= b / p * p <= b && b - b / p * p < p
  {
    assert b == p * (b / p) + b % p;
  }

  function MaskByte(b: u8, i: nat, plen: u8): u8 {
    if i < plen / 8 then b
    else if i == plen / 8 && plen % 8 != 0 then TopBits(b, plen % 8)
    else 0
  }

  function Mask(a: Addr, plen: u8): (m: Addr)
    ensures forall i | 0 <= i < 16 :: m[i] == if plen >= 128 then a[i] else MaskByte(a[i], i, plen)
  {
    if plen >= 128 then a else seq(16, i requires 0 <= i < 16 => MaskByte(a[i], i, plen))
  }

  predicate Masked(p: Prefix) { p.plen <= 128 && Mask(p.addr, p.plen) == p.addr }

  /** The number of bytes that hold the first `plen` bits. */
  function PrefixBytes(plen: nat): nat { (plen + 7) / 8 }

  lemma {:induction false} Quotient(q: int, d: int, r: int, p: int)
    requires 0 <= r < p && q * p == d * p + r
    ensures q == d
  {
    if q > d {
      MultipleAtLeast(q - d, p);
    } else if q < d {
      MultipleAtLeast(d - q, p);
    }
  }

  lemma {:induction false} TopBitsTwice(b: u8, k: nat)
    requires 0 < k < 8
    ensures TopBits(TopBits(b, k), k) == TopBits(b, k)
  {
    var p := LastBit(k);
    var t := b / p * p;
    assert t == t / p * p + t % p;
    Quotient(b / p, t / p, t % p, p);
  }

  /** Masking is a projection: it keeps the first bits and a second mask changes nothing. */
  lemma {:induction false} MaskTwice(a: Addr, plen: u8)
    ensures Mask(Mask(a, plen), plen) == Mask(a, plen)
  {
    if plen < 128 && plen % 8 != 0 {
      TopBitsTwice(a[plen / 8], plen % 8);
    }
  }

  /** What a masked prefix leaves out are zeros. */
  lemma {:induction false} MaskedTail(p: Prefix, i: nat)
    requires Masked(p) && PrefixBytes(p.plen) <= i < 16
    ensures p.addr[i] == 0
  {
    assert Mask(p.addr, p.plen)[i] == MaskByte(p.addr[i], i, p.plen);
  }

  lemma {:induction false} OddNotKept(b: u8, k: nat)
    requires 0 < k < 8 && TopBits(b, k) == b
    ensures b != 0xFF
  {
    assert 0xFF / 128 * 128 != 0xFF && 0xFF / 64 * 64 != 0xFF && 0xFF / 32 * 32 != 0xFF && 0xFF / 16 * 16 != 0xFF;
    assert 0xFF / 8 * 8 != 0xFF && 0xFF / 4 * 4 != 0xFF && 0xFF / 2 * 2 != 0xFF;
  }

  /** A masked prefix too short for IPv4 does not look like IPv4. */
  lemma {:induction false} ShortNotMapped(p: Prefix)
    requires Masked(p) && p.plen < 96
    ensures !V4Mapped(p.addr)
  {
    if p.plen <= 88 {
      MaskedTail(p, 11);
    } else {
      var k := p.plen % 8;
      assert Mask(p.addr, p.plen)[11] == TopBits(p.addr[11], k);
      OddNotKept(p.addr[11], k);
    }
    assert p.addr[..12][11] == p.addr[11];
  }

  // ---- Parsing

  function Zeros(n: nat): (z: seq<u8>)
    ensures |z| == n && forall i | 0 <= i < n :: z[i] == 0
  {
    seq(n, _ => 0)
  }

  function Pad(s: seq<u8>): (a: Addr)
    requires |s| <= 16
    ensures a[..|s|] == s
  {
    s + Zeros(16 - |s|)
  }

  const LLPREFIX: seq<u8> := [0xFE, 0x80, 0, 0, 0, 0, 0, 0]

  predicate LinkLocal(a: Addr) { a[..8] == LLPREFIX }

  /** What the bytes of a prefix follow: a fixed head, or one taken from an earlier prefix. */
  function Head(ae: u8, omitted: u8, last: Option<Addr>): Option<seq<u8>> {
    match ae
    case 1 =>
      if omitted == 0 then Some(V4PREFIX)
      else if omitted > 4 || last.None? || !V4Mapped(last.value) then None
      else Some(last.value[..12 + omitted])
    case 2 =>
      if omitted == 0 then Some([])
      else if omitted > 16 || last.None? || V4Mapped(last.value) then None
      else Some(last.value[..omitted])
    case 3 => Some(LLPREFIX)
    case _ => None
  }

  /** The part of the `pb` bytes that is already in the head. */
  function InHead(ae: u8, omitted: u8): nat { if ae == 3 then 8 else omitted }

  /** `plen` negative stands for a whole address. */
  function SizeOf(ae: u8, plen: int): nat {
    if plen >= 0 then PrefixBytes(plen) else if ae == 1 then 4 else 16
  }

  /** The number of bytes read, and the prefix they stand for. */
  function NetworkPrefix(ae: u8, plen: int, omitted: u8, p: seq<u8>, last: Option<Addr>): (r: Option<(nat, Addr)>)
    requires -1 <= plen < 0x100
    ensures r.Some? ==> r.value.0 <= |p| && (ae == 1 ==> plen <= 32) && plen <= 128
  {
    var pb := SizeOf(ae, plen);
    if pb > 16 || (ae == 1 && pb > 4) then None
    else if ae == 0 then Some((0, Pad([])))
    else
      var head := Head(ae, omitted, last);
      if head.None? || pb < InHead(ae, omitted) || |p| < pb - InHead(ae, omitted) then None
      else
        var n := pb - InHead(ae, omitted);
        Some((n, Mask(Pad(head.value + p[..n]), if plen < 0 then 128 else if ae == 1 then plen + 96 else plen)))
  }

  /**
   What can be read as a prefix: of the right length, all there, and with omitted bytes only where the last prefix of
   the same family has them.
   */
  predicate Readable(ae: u8, plen: u8, omitted: u8, len: nat, last: Option<Addr>) {
    match ae
    case 0 => plen <= 128
    case 1 =>
      && plen <= 32 && omitted <= PrefixBytes(plen) <= omitted as int + len
      && (omitted > 0 ==> last.Some? && V4Mapped(last.value))
    case 2 =>
      && plen <= 128 && omitted <= PrefixBytes(plen) <= omitted as int + len
      && (omitted > 0 ==> last.Some? && !V4Mapped(last.value))
    case 3 => 56 < plen <= 128 && PrefixBytes(plen) <= 8 + len
    case _ => false
  }

  /** For all bytes: exactly that is read, and what is read is masked. */
  lemma {:induction false} ReadableIff(ae: u8, plen: u8, omitted: u8, p: seq<u8>, last: Option<Addr>)
    ensures
      var r := NetworkPrefix(ae, plen, omitted, p, last);
      && (r.Some? <==> Readable(ae, plen, omitted, |p|, last))
      && (r.Some? && ae != 0 ==> Masked(Prefix(r.value.1, if ae == 1 then plen + 96 else plen)))
  {
    var r := NetworkPrefix(ae, plen, omitted, p, last);
    if r.Some? && ae != 0 {
      var pb := SizeOf(ae, plen);
      var n := pb - InHead(ae, omitted);
      MaskTwice(Pad(Head(ae, omitted, last).value + p[..n]), if ae == 1 then plen + 96 else plen);
    }
  }

  // ---- Writing

  predicate IsV4(p: Prefix) { p.plen >= 96 && V4Mapped(p.addr) }

  /** The bytes that follow the first `omit` of a prefix on the wire. */
  function PrefixTail(p: Prefix, omit: nat): (s: seq<u8>)
    requires p.plen <= 128 && if IsV4(p) then omit == 0 else omit <= p.plen / 8
    ensures |s| == PrefixBytes(WireLength(p)) - omit <= 16
  {
    if IsV4(p) then p.addr[12..12 + PrefixBytes(p.plen - 96)] else p.addr[omit..PrefixBytes(p.plen)]
  }

  function Family(p: Prefix): u8 { if IsV4(p) then 1 else 2 }

  function WireLength(p: Prefix): u8 { if IsV4(p) then p.plen - 96 else p.plen }

  /** A masked prefix is its leading bytes. */
  lemma {:induction false} PadMasked(p: Prefix)
    requires Masked(p)
    ensures Pad(p.addr[..PrefixBytes(p.plen)]) == p.addr
  {
    var pb := PrefixBytes(p.plen);
    forall i | pb <= i < 16 ensures p.addr[i] == 0 {
      MaskedTail(p, i);
    }
  }

  /** A masked prefix written without its first `omit` bytes is read back, whatever follows it,
      by a reader whose last prefix shares those bytes. */
  lemma {:induction false} PrefixRoundTrip(p: Prefix, omit: nat, last: Option<Addr>, rest: seq<u8>)
    requires Masked(p) && if IsV4(p) then omit == 0 else omit <= p.plen / 8
    requires omit > 0 ==> last.Some? && !V4Mapped(last.value) && last.value[..omit] == p.addr[..omit]
    ensures
      var tail := PrefixTail(p, omit);
      NetworkPrefix(Family(p), WireLength(p), omit, tail + rest, last) == Some((|tail|, p.addr))
  {
    PadMasked(p);
    var tail := PrefixTail(p, omit);
    assert (tail + rest)[..|tail|] == tail;
    var pb := PrefixBytes(p.plen);
    if IsV4(p) {
      assert PrefixBytes(p.plen - 96) + 12 == pb;
      assert V4PREFIX + tail == p.addr[..pb];
    } else {
      assert p.addr[..omit] + tail == p.addr[..pb];
      assert omit == 0 ==> [] + tail == p.addr[..pb];
    }
  }

  // ---- Destinations that are not routed

  /** All of `p` lies inside the block. */
  predicate Inside(p: Prefix, block: Prefix) { p.plen >= block.plen && Mask(p.addr, block.plen) == block.addr }

  function Block6(b0: u8, b1: u8, last: u8, plen: u8): Prefix { Prefix([b0, b1] + Zeros(13) + [last], plen) }

  function Block4(b: u8, plen: u8): Prefix
    requires plen <= 32
  {
    Prefix(V4PREFIX + [b, 0, 0, 0], plen + 96)
  }

  /** Multicast, link-local, unspecified and loopback; and 127/8, 0/8, 224/4 and 240/4. */
  const BLOCKS: seq<Prefix> := [
    Block6(0xFF, 0, 0, 8), Block6(0xFE, 0x80, 0, 10), Block6(0, 0, 0, 128), Block6(0, 0, 1, 128),
    Block4(127, 8), Block4(0, 8), Block4(224, 4), Block4(240, 4)
  ]

  lemma {:induction false} MaskIs(a: Addr, plen: u8, b: Addr)
    requires plen < 128
    ensures Mask(a, plen) == b <==> forall i | 0 <= i < 16 :: MaskByte(a[i], i, plen) == b[i]
  {
  }

  lemma {:induction false} InFF(a: Addr)
    ensures Mask(a, 8) == Block6(0xFF, 0, 0, 8).addr <==> a[0] == 0xFF
  {
    var b := Block6(0xFF, 0, 0, 8).addr;
    MaskIs(a, 8, b);
    assert MaskByte(a[0], 0, 8) == a[0] && b[0] == 0xFF;
  }

  lemma {:induction false} InFE80(a: Addr)
    ensures Mask(a, 10) == Block6(0xFE, 0x80, 0, 10).addr <==> a[0] == 0xFE && 0x80 <= a[1] < 0xC0
  {
    var b := Block6(0xFE, 0x80, 0, 10).addr;
    MaskIs(a, 10, b);
    assert MaskByte(a[0], 0, 10) == a[0] && b[0] == 0xFE;
    assert MaskByte(a[1], 1, 10) == a[1] / 64 * 64 && b[1] == 0x80;
    assert a[1] / 64 * 64 == 0x80 <==> 0x80 <= a[1] < 0xC0;
  }

  lemma {:induction false} InHosts(a: Addr, last: u8)
    ensures Mask(a, 128) == Block6(0, 0, last, 128).addr <==> (forall i | 0 <= i < 15 :: a[i] == 0) && a[15] == last
  {
    var b := Block6(0, 0, last, 128).addr;
    assert forall i | 0 <= i < 15 :: b[i] == 0;
    assert b[15] == last;
  }

  lemma {:induction false} In4(a: Addr, b: u8, plen: u8)
    requires plen == 8 || (plen == 4 && b % 16 == 0)
    ensures Mask(a, plen + 96) == Block4(b, plen).addr <==>
      V4Mapped(a) && (if plen == 8 then a[12] == b else a[12] / 16 * 16 == b)
  {
    var c := Block4(b, plen).addr;
    MaskIs(a, plen + 96, c);
    assert forall i | 0 <= i < 12 :: MaskByte(a[i], i, plen + 96) == a[i] && c[i] == V4PREFIX[i];
    assert V4Mapped(a) <==> forall i | 0 <= i < 12 :: a[i] == V4PREFIX[i];
    assert MaskByte(a[12], 12, plen + 96) == (if plen == 8 then a[12] else a[12] / 16 * 16) && c[12] == b;
    assert forall i | 13 <= i < 16 :: MaskByte(a[i], i, plen + 96) == 0 && c[i] == 0;
  }

  lemma {:induction false} BlockCases(p: Prefix)
    ensures (exists i :: 0 <= i < |BLOCKS| && Inside(p, BLOCKS[i])) <==>
              || Inside(p, Block6(0xFF, 0, 0, 8)) || Inside(p, Block6(0xFE, 0x80, 0, 10))
              || Inside(p, Block6(0, 0, 0, 128)) || Inside(p, Block6(0, 0, 1, 128))
              || Inside(p, Block4(127, 8)) || Inside(p, Block4(0, 8))
              || Inside(p, Block4(224, 4)) || Inside(p, Block4(240, 4))
  {
    hide Inside, Block4, Block6;
    assert BLOCKS[0] == Block6(0xFF, 0, 0, 8) && BLOCKS[1] == Block6(0xFE, 0x80, 0, 10);
    assert BLOCKS[2] == Block6(0, 0, 0, 128) && BLOCKS[3] == Block6(0, 0, 1, 128);
    assert BLOCKS[4] == Block4(127, 8) && BLOCKS[5] == Block4(0, 8);
    assert BLOCKS[6] == Block4(224, 4) && BLOCKS[7] == Block4(240, 4);
  }

  lemma {:induction false} InsideSix(p: Prefix)
    ensures Inside(p, Block6(0xFF, 0, 0, 8)) <==> p.plen >= 8 && p.addr[0] == 0xFF
    ensures Inside(p, Block6(0xFE, 0x80, 0, 10)) <==> p.plen >= 10 && p.addr[0] == 0xFE && 0x80 <= p.addr[1] < 0xC0
  {
    hide Mask, Zeros;
    InFF(p.addr);
    InFE80(p.addr);
  }

  lemma {:induction false} InsideHost(p: Prefix, last: u8)
    ensures Inside(p, Block6(0, 0, last, 128))
       <==> p.plen >= 128 && (forall i | 0 <= i < 15 :: p.addr[i] == 0) && p.addr[15] == last
  {
    hide Mask, Zeros;
    InHosts(p.addr, last);
  }

  lemma {:induction false} InsideFour(p: Prefix)
    ensures Inside(p, Block4(127, 8)) || Inside(p, Block4(0, 8))
       <==> p.plen >= 104 && V4Mapped(p.addr) && (p.addr[12] == 127 || p.addr[12] == 0)
    ensures Inside(p, Block4(224, 4)) || Inside(p, Block4(240, 4))
       <==> p.plen >= 100 && V4Mapped(p.addr) && p.addr[12] >= 0xE0
  {
    hide Mask, V4Mapped;
    In4(p.addr, 127, 8);
    In4(p.addr, 0, 8);
    In4(p.addr, 224, 4);
    In4(p.addr, 240, 4);
    var a := p.addr[12];
    assert a / 16 * 16 == 224 || a / 16 * 16 == 240 <==> a >= 0xE0;
  }

  /** The destinations that updates are ignored for are exactly those inside these blocks. */
  lemma {:induction false} MartianIff(p: Prefix)
    ensures Martian(p) <==> exists i :: 0 <= i < |BLOCKS| && Inside(p, BLOCKS[i])
  {
    hide Inside, V4Mapped, Block4, Block6;
    BlockCases(p);
    InsideSix(p);
    InsideHost(p, 0);
    InsideHost(p, 1);
    InsideFour(p);
  }
}
