/**
 What becomes of a reader of AS paths once a length octet is wrong: it never finds back to what was written.
 The round trip over the wire is right exactly for the paths whose length octets are.
 */
module AsPathStray {
  import opened Basics
  import opened AsPath
  import opened AsPathWire

  // ---- Sequences as they are written

  /** A chunk of single hops; its length octet may be too small. */
  datatype Piece = Piece(octet: u8, hops: seq<Asn>)

  predicate PieceOk(x: Piece) { 0 < x.octet <= |x.hops| }

  predicate AllPiecesOk(xs: seq<Piece>) { forall x | x in xs :: PieceOk(x) }

  function PieceBytes(x: Piece, wide: bool): seq<u8> { [2, x.octet] + Data(x.hops, wide) }

  function PiecesBytes(xs: seq<Piece>, wide: bool): seq<u8> {
    if |xs| == 0 then [] else PieceBytes(xs[0], wide) + PiecesBytes(xs[1..], wide)
  }

  /** The hops as a reader is to see them. */
  function SeenHops(s: seq<Asn>, wide: bool): seq<Item> { Hops(SeenAll(s, wide)) }

  function PiecesItems(xs: seq<Piece>, wide: bool): seq<Item> {
    if |xs| == 0 then [] else SeenHops(xs[0].hops, wide) + PiecesItems(xs[1..], wide)
  }

  // ---- A reader that is ahead

  /** The bytes still to be explained: hops left of the present chunk, further chunks, and what is no sequence. */
  function Stream(hs: seq<Asn>, xs: seq<Piece>, tail: seq<u8>, wide: bool): seq<u8> {
    Data(hs, wide) + PiecesBytes(xs, wide) + tail
  }

  predicate EndsRun(tail: seq<u8>) { |tail| > 0 ==> tail[0] != 2 }

  /** The first `m` pairs of bytes look like the head of a sequence. */
  predicate Heads(t: seq<u8>, m: nat) { 2 * m <= |t| && forall i | 0 <= i < m :: t[2 * i] == 2 }

  /** What is meant by the bytes still to be explained; `more` is for the tail. */
  function Meant(hs: seq<Asn>, xs: seq<Piece>, more: seq<Item>, wide: bool): seq<Item> {
    SeenHops(hs, wide) + PiecesItems(xs, wide) + more
  }

  /** Reading `c` more AS numbers and then segments from `b` yields `items`. */
  ghost predicate Yields(b: seq<u8>, c: nat, wide: bool, items: seq<Item>) {
    && |b| >= Octets(c, wide)
    && var q := ParseRaw(b[Octets(c, wide)..], wide);
      q.Some? && items == Hops(GetData(b, c, wide)) + Denote(q.value)
  }

  lemma {:induction false} Digits(x: int, y: int, r: u8, s: u8)
    requires x * 0x100 + r == y * 0x100 + s
    ensures x == y && r == s
  {
  }

  lemma {:induction false} GetLongBytes(a: seq<u8>, b: seq<u8>)
    requires |a| >= 4 && |b| >= 4 && GetLong(a) == GetLong(b)
    ensures a[..4] == b[..4]
  {
    var a0: int, a1: int, a2: int, b0: int, b1: int, b2: int := a[0], a[1], a[2], b[0], b[1], b[2];
    Digits((a0 * 0x100 + a1) * 0x100 + a2, (b0 * 0x100 + b1) * 0x100 + b2, a[3], b[3]);
    Digits(a0 * 0x100 + a1, b0 * 0x100 + b1, a[2], b[2]);
    Digits(a0, b0, a[1], b[1]);
  }

  lemma {:induction false} GetAsnBytes(a: seq<u8>, b: seq<u8>, wide: bool)
    requires |a| >= Octets(1, wide) && |b| >= Octets(1, wide) && GetAsn(a, wide) == GetAsn(b, wide)
    ensures a[..Octets(1, wide)] == b[..Octets(1, wide)]
  {
    if wide {
      GetLongBytes(a, b);
    }
  }

  lemma {:induction false} StreamHop(hs: seq<Asn>, xs: seq<Piece>, tail: seq<u8>, wide: bool)
    requires hs != []
    ensures
      var t, n := Stream(hs, xs, tail, wide), Octets(1, wide);
      |t| >= n && Stream(hs[1..], xs, tail, wide) == t[n..] && GetAsn(t, wide) == Seen(hs[0], wide)
  {
    hide PiecesBytes;
    var rest := Data(hs[1..], wide) + PiecesBytes(xs, wide) + tail;
    assert Stream(hs, xs, tail, wide) == AsnBytes(hs[0], wide) + rest;
    AsnRoundTrip(hs[0], wide, rest);
  }

  lemma {:induction false} MeantHop(hs: seq<Asn>, xs: seq<Piece>, more: seq<Item>, wide: bool)
    requires hs != []
    ensures Meant(hs, xs, more, wide) == [Hop(Seen(hs[0], wide))] + Meant(hs[1..], xs, more, wide)
  {
    hide PiecesItems;
    assert SeenHops(hs, wide) == [Hop(Seen(hs[0], wide))] + SeenHops(hs[1..], wide);
  }

  lemma {:induction false} ReadHop(b: seq<u8>, c: nat, wide: bool)
    requires c > 0 && |b| >= Octets(c, wide)
    ensures |b[Octets(1, wide)..]| >= Octets(c - 1, wide)
    ensures Hops(GetData(b, c, wide)) == [Hop(GetAsn(b, wide))] + Hops(GetData(b[Octets(1, wide)..], c - 1, wide))
  {
  }

  lemma {:induction false} YieldsHop(b: seq<u8>, c: nat, wide: bool, items: seq<Item>)
    requires c > 0 && Yields(b, c, wide, items)
    ensures
      var n := Octets(1, wide);
      |b| >= n && |items| > 0 && items[0] == Hop(GetAsn(b, wide)) && Yields(b[n..], c - 1, wide, items[1..])
  {
    hide ParseRaw, Denote, GetData, GetAsn, Hops;
    var n := Octets(1, wide);
    ReadHop(b, c, wide);
    var q := ParseRaw(b[Octets(c, wide)..], wide).value;
    assert b[n..][Octets(c - 1, wide)..] == b[Octets(c, wide)..];
    var h := Hops(GetData(b[n..], c - 1, wide));
    assert items == [Hop(GetAsn(b, wide))] + (h + Denote(q));
  }

  /** One hop: what the reader takes for it, further on, is a copy of it. */
  lemma {:induction false} HopStep(hs: seq<Asn>, xs: seq<Piece>, tail: seq<u8>, more: seq<Item>, m: nat, c: nat,
                                   wide: bool)
    requires hs != [] && c > 0
    requires var t := Stream(hs, xs, tail, wide); 2 * m <= |t| && Yields(t[2 * m..], c, wide, Meant(hs, xs, more, wide))
    ensures
      var t, n := Stream(hs, xs, tail, wide), Octets(1, wide);
      var u := Stream(hs[1..], xs, tail, wide);
      && |t| >= 2 * m + n && t[2 * m..2 * m + n] == t[..n] && u == t[n..]
      && Yields(u[2 * m..], c - 1, wide, Meant(hs[1..], xs, more, wide))
  {
    hide Stream, Meant, Yields, GetAsn, Seen;
    var t, n := Stream(hs, xs, tail, wide), Octets(1, wide);
    var b := t[2 * m..];
    StreamHop(hs, xs, tail, wide);
    MeantHop(hs, xs, more, wide);
    YieldsHop(b, c, wide, Meant(hs, xs, more, wide));
    GetAsnBytes(b, t, wide);
    assert b[n..] == t[n..][2 * m..];
    assert b[..n] == t[2 * m..2 * m + n];
  }

  // ---- What it makes of the heads it has passed over

  /** The pair of bytes at `z` is the head the reader took for that of a segment of `a` numbers. */
  predicate Head(t: seq<u8>, z: nat, m: nat, a: u8) { z < m && 2 * m <= |t| && t[2 * z] == 2 && t[2 * z + 1] == a }

  /** If a copy of the first bytes follows the heads, all are heads after these bytes as well. */
  lemma {:induction false} HeadsOn(t: seq<u8>, m: nat, n: nat)
    requires (n == 2 || n == 4) && m > 0 && Heads(t, m) && |t| >= 2 * m + n && t[2 * m..2 * m + n] == t[..n]
    ensures Heads(t[n..], m)
  {
    forall x | 0 <= x < n ensures t[2 * m + x] == t[x] {
      assert t[2 * m..2 * m + n][x] == t[..n][x];
    }
    forall i | 0 <= i < m ensures t[n..][2 * i] == 2 {
      var k := i + n / 2;
      assert t[n..][2 * i] == t[2 * k];
      if k >= m {
        assert t[2 * k] == t[2 * (k - m)];
        if k - m >= m {
          assert t[2 * (k - m)] == t[2 * (k - m - m)];
        }
      }
    }
  }

  function HeadAfter(z: nat, m: nat, n: nat): int {
    if 2 * z >= n then z - n / 2 else if z + m - n / 2 >= 0 then z + m - n / 2 else 0
  }

  lemma {:induction false} HeadOn(t: seq<u8>, z: nat, m: nat, a: u8, n: nat)
    requires (n == 2 || n == 4) && Head(t, z, m, a) && |t| >= 2 * m + n && t[2 * m..2 * m + n] == t[..n]
    ensures HeadAfter(z, m, n) >= 0 && Head(t[n..], HeadAfter(z, m, n), m, a)
  {
    forall x | 0 <= x < n ensures t[2 * m + x] == t[x] {
      assert t[2 * m..2 * m + n][x] == t[..n][x];
    }
    if 2 * z < n && m == 1 && n == 4 {
      assert t[2] == t[0] && t[4] == t[2] && t[3] == t[1] && t[5] == t[3];
    }
  }

  // ---- It never finds back

  /** A reader that is to yield a hop takes the next bytes for the head of a sequence. */
  lemma {:induction false} TakesHead(b: seq<u8>, wide: bool, items: seq<Item>)
    requires Yields(b, 0, wide, items) && |items| > 0 && items[0].Hop?
    ensures |b| >= 2 && b[0] == 2 && b[1] > 0 && Yields(b[2..], b[1], wide, items)
  {
    assert b[0..] == b;
    var q := ParseRaw(b, wide).value;
    assert items == Denote(q);
    var n := Octets(b[1], wide);
    var rest := ParseRaw(b[2 + n..], wide).value;
    assert q[1..] == rest;
    assert items == Items(q[0]) + Denote(rest);
    assert q[0].kind == Sequence;
    assert b[2..][n..] == b[2 + n..];
  }

  /** After the last hop of a chunk the head of the next one follows, among the heads passed over. */
  lemma {:induction false} NextPiece(xs: seq<Piece>, tail: seq<u8>, more: seq<Item>, m: nat, wide: bool)
    requires EndsRun(tail) && m > 0 && Heads(Stream([], xs, tail, wide), m)
    ensures |xs| > 0
    ensures
      var u, v := Stream([], xs, tail, wide), Stream(xs[0].hops, xs[1..], tail, wide);
      && |u| >= 2 && u[1] == xs[0].octet && v == u[2..] && Heads(v, m - 1)
    ensures Meant([], xs, more, wide) == Meant(xs[0].hops, xs[1..], more, wide)
  {
    var u := Stream([], xs, tail, wide);
    assert u[2 * 0] == 2;
    assert |xs| == 0 ==> u == tail;
    hide Stream, Meant, PiecesBytes, Heads;
    PieceFirst(xs, tail, more, wide);
    HeadsPassed(u, m);
  }

  lemma {:induction false} HeadsPassed(u: seq<u8>, m: nat)
    requires m > 0 && Heads(u, m)
    ensures Heads(u[2..], m - 1)
  {
    forall i | 0 <= i < m - 1 ensures u[2..][2 * i] == 2 {
      assert u[2 * (i + 1)] == 2;
    }
  }

  lemma {:induction false} PieceFirst(xs: seq<Piece>, tail: seq<u8>, more: seq<Item>, wide: bool)
    requires |xs| > 0
    ensures Stream([], xs, tail, wide) == [2, xs[0].octet] + Stream(xs[0].hops, xs[1..], tail, wide)
    ensures Meant([], xs, more, wide) == Meant(xs[0].hops, xs[1..], more, wide)
  {
    hide Data;
    assert Data([], wide) == [];
    assert SeenHops([], wide) == [];
  }

  /** A reader that begins a segment where hops are still to come does not yield what is meant. */
  lemma {:induction false} Stuck(hs: seq<Asn>, xs: seq<Piece>, tail: seq<u8>, more: seq<Item>, g: nat, wide: bool)
    requires hs != [] && AllPiecesOk(xs) && EndsRun(tail) && Heads(Stream(hs, xs, tail, wide), g)
    ensures !Yields(Stream(hs, xs, tail, wide)[2 * g..], 0, wide, Meant(hs, xs, more, wide))
    decreases |Stream(hs, xs, tail, wide)| - 2 * g, 0
  {
    hide Stream, Meant, Yields;
    var t := Stream(hs, xs, tail, wide);
    var b := t[2 * g..];
    if Yields(b, 0, wide, Meant(hs, xs, more, wide)) {
      MeantHop(hs, xs, more, wide);
      TakesHead(b, wide, Meant(hs, xs, more, wide));
      assert t[2 * g] == b[0] && t[2 * g + 1] == b[1] && b[2..] == t[2 * (g + 1)..];
      Astray(hs, xs, tail, more, g + 1, b[1], b[1], g, wide);
    }
  }

  /**
   Nor does one that is inside a segment of `a` numbers, `c` of which are still to be read, and `m` pairs of bytes
   ahead: the segment ends before the hops of the present chunk do, or its head will turn up as that of a later chunk,
   which has at least as many hops.
   */
  lemma {:induction false} Astray(hs: seq<Asn>, xs: seq<Piece>, tail: seq<u8>, more: seq<Item>, m: nat, c: nat, a: u8,
                                  z: nat, wide: bool)
    requires hs != [] && AllPiecesOk(xs) && EndsRun(tail) && Heads(Stream(hs, xs, tail, wide), m)
    requires c < |hs| || (c <= a && Head(Stream(hs, xs, tail, wide), z, m, a))
    ensures !Yields(Stream(hs, xs, tail, wide)[2 * m..], c, wide, Meant(hs, xs, more, wide))
    decreases |Stream(hs, xs, tail, wide)| - 2 * m, 1
  {
    hide Stream, Meant, Yields, Head;
    var t, n := Stream(hs, xs, tail, wide), Octets(1, wide);
    if c == 0 {
      Stuck(hs, xs, tail, more, m, wide);
    } else if Yields(t[2 * m..], c, wide, Meant(hs, xs, more, wide)) {
      HopStep(hs, xs, tail, more, m, c, wide);
      AheadStep(t, m, c, |hs|, a, z, n);
      var z' := HeadAfter(z, m, n);
      if |hs| > 1 {
        Astray(hs[1..], xs, tail, more, m, c - 1, a, if z' >= 0 then z' else 0, wide);
      } else {
        assert hs[1..] == [];
        HeadInside(Stream([], xs, tail, wide), z', m, a);
        NextPiece(xs, tail, more, m, wide);
        var u, v := Stream([], xs, tail, wide), Stream(xs[0].hops, xs[1..], tail, wide);
        assert PieceOk(xs[0]);
        HeadPassed(u, v, z', m, a);
        assert v[2 * (m - 1)..] == u[2 * m..];
        Astray(xs[0].hops, xs[1..], tail, more, m - 1, c - 1, a, if z' > 0 then z' - 1 else 0, wide);
      }
    }
  }

  lemma {:induction false} AheadStep(t: seq<u8>, m: nat, c: nat, left: nat, a: u8, z: nat, n: nat)
    requires (n == 2 || n == 4) && Heads(t, m) && |t| >= 2 * m + n && t[2 * m..2 * m + n] == t[..n]
    requires c < left || Head(t, z, m, a)
    ensures Heads(t[n..], m)
    ensures c < left || (HeadAfter(z, m, n) >= 0 && Head(t[n..], HeadAfter(z, m, n), m, a))
  {
    hide Head;
    if m > 0 {
      HeadsOn(t, m, n);
    }
    if c >= left {
      HeadOn(t, z, m, a, n);
    }
  }

  lemma {:induction false} HeadInside(t: seq<u8>, z: nat, m: nat, a: u8)
    requires Head(t, z, m, a)
    ensures z < m
  {
  }

  lemma {:induction false} HeadPassed(u: seq<u8>, v: seq<u8>, z: nat, m: nat, a: u8)
    requires Head(u, z, m, a) && |u| >= 2 && v == u[2..]
    ensures if z == 0 then u[1] == a else Head(v, z - 1, m - 1, a)
  {
  }

  // ---- Paths

  /** What a path is to be read as. */
  ghost function Reading(p: Path, wide: bool): seq<Item> { Denote(SeenPath(p, wide)) }

  lemma {:induction false} ReadingFirst(p: Path, wide: bool)
    requires |p| > 0
    ensures Reading(p, wide) == Items(SeenSegment(p[0], wide)) + Reading(p[1..], wide)
    ensures p[0].kind == Sequence ==> Items(SeenSegment(p[0], wide)) == SeenHops(p[0].asns, wide)
  {
    assert SeenPath(p, wide)[1..] == SeenPath(p[1..], wide);
  }

  lemma {:induction false} SeenHopsConcat(a: seq<Asn>, b: seq<Asn>, wide: bool)
    ensures SeenHops(a + b, wide) == SeenHops(a, wide) + SeenHops(b, wide)
  {
    assert SeenAll(a + b, wide) == SeenAll(a, wide) + SeenAll(b, wide);
  }

  /** Sequences in a row are read as their hops. */
  lemma {:induction false} ReadingRun(p: Path, n: nat, wide: bool)
    requires n <= |p| && forall i | 0 <= i < n :: p[i].kind == Sequence
    ensures Reading(p, wide) == SeenHops(AllAsns(p[..n]), wide) + Reading(p[n..], wide)
  {
    hide SeenHops, Reading, Items;
    if n == 0 {
      assert p[..0] == [] && p[0..] == p;
      NoSeenHops(wide);
    } else {
      ReadingFirst(p, wide);
      ReadingRun(p[1..], n - 1, wide);
      assert p[1..][..n - 1] == p[..n][1..] && p[1..][n - 1..] == p[n..];
      SeenHopsConcat(p[0].asns, AllAsns(p[1..][..n - 1]), wide);
    }
  }

  lemma {:induction false} NoSeenHops(wide: bool)
    ensures SeenHops([], wide) == []
  {
  }

  // ---- The chunks of sequences at the beginning of a path

  function FullPieces(s: seq<Asn>): seq<Piece> {
    if |s| <= SEGMENT_MAX then [] else [Piece(SEGMENT_MAX, s[..SEGMENT_MAX])] + FullPieces(s[SEGMENT_MAX..])
  }

  function Lead(p: Path): seq<Piece> {
    if |p| == 0 || p[0].kind != Sequence then []
    else
      var k := PackCount(p[0], p[1..]);
      FullPieces(p[0].asns) + [Piece(LengthOctet(p, k), GroupHops(p))] + Lead(p[k + 1..])
  }

  function AfterLead(p: Path): Path {
    if |p| == 0 || p[0].kind != Sequence then p else AfterLead(p[PackCount(p[0], p[1..]) + 1..])
  }

  lemma {:induction false} PiecesConcat(xs: seq<Piece>, ys: seq<Piece>, wide: bool)
    ensures PiecesBytes(xs + ys, wide) == PiecesBytes(xs, wide) + PiecesBytes(ys, wide)
    ensures PiecesItems(xs + ys, wide) == PiecesItems(xs, wide) + PiecesItems(ys, wide)
  {
    hide PieceBytes, SeenHops;
    if |xs| == 0 {
      assert xs + ys == ys;
    } else {
      assert (xs + ys)[1..] == xs[1..] + ys;
      PiecesConcat(xs[1..], ys, wide);
      Regroup(PieceBytes(xs[0], wide), PiecesBytes(xs[1..], wide), PiecesBytes(ys, wide));
      Regroup(SeenHops(xs[0].hops, wide), PiecesItems(xs[1..], wide), PiecesItems(ys, wide));
    }
  }

  lemma {:induction false} FullPiecesOk(s: seq<Asn>, wide: bool)
    ensures AllPiecesOk(FullPieces(s)) && PiecesBytes(FullPieces(s), wide) == FullChunks(Sequence, s, wide)
    ensures PiecesItems(FullPieces(s), wide) + SeenHops(LastPart(s), wide) == SeenHops(s, wide)
    decreases |s|
  {
    if |s| <= SEGMENT_MAX {
      assert [] + SeenHops(s, wide) == SeenHops(s, wide);
    } else {
      var head, rest := s[..SEGMENT_MAX], s[SEGMENT_MAX..];
      FullPiecesOk(rest, wide);
      assert s == head + rest;
      hide SeenHops, Data;
      SeenHopsConcat(head, rest, wide);
      var x, ys := Piece(SEGMENT_MAX, head), FullPieces(rest);
      assert FullPieces(s) == [x] + ys && ([x] + ys)[1..] == ys;
      assert PieceBytes(x, wide) == Chunk(Sequence, head, wide);
      Regroup(SeenHops(head, wide), PiecesItems(ys, wide), SeenHops(LastPart(rest), wide));
    }
  }

  /** The octet counts at most the hops that follow it. */
  lemma {:induction false} GroupOctet(p: Path)
    requires |p| > 0 && NonEmpty(p)
    ensures var k := PackCount(p[0], p[1..]);
            0 < LengthOctet(p, k) <= |GroupHops(p)|
  {
    var k := PackCount(p[0], p[1..]);
    if k > 0 {
      assert p[1..k + 1] == p[1..k] + [p[k]];
      AllAsnsConcat(p[1..k], [p[k]]);
      assert AllAsns([p[k]]) == p[k].asns + [];
    }
  }

  /** The hops written for the first segment and those packed with it, after the full chunks. */
  function GroupHops(p: Path): seq<Asn>
    requires |p| > 0
  {
    LastPart(p[0].asns) + AllAsns(p[1..PackCount(p[0], p[1..]) + 1])
  }

  lemma {:induction false} GroupBytes(p: Path, wide: bool)
    requires |p| > 0 && p[0].kind == Sequence
    ensures
      var k := PackCount(p[0], p[1..]);
      Group(p, k, wide)
      == PiecesBytes(FullPieces(p[0].asns), wide) + PieceBytes(Piece(LengthOctet(p, k), GroupHops(p)), wide)
  {
    FullPiecesOk(p[0].asns, wide);
    hide FullPieces, PiecesBytes, FullChunks, LastPart, Data, PackCount;
  }

  lemma {:induction false} GroupReading(p: Path, wide: bool)
    requires |p| > 0 && p[0].kind == Sequence
    ensures
      Reading(p, wide)
      == PiecesItems(FullPieces(p[0].asns), wide) + SeenHops(GroupHops(p), wide)
         + Reading(p[PackCount(p[0], p[1..]) + 1..], wide)
  {
    var k := PackCount(p[0], p[1..]);
    var packed := AllAsns(p[1..k + 1]);
    if k > 0 {
      PackedSequences(p, k);
    }
    assert p[..k + 1][1..] == p[1..k + 1];
    assert AllAsns(p[..k + 1]) == p[0].asns + packed;
    hide FullPieces, PiecesItems, LastPart, SeenHops, Reading, PackCount, AllAsns;
    ReadingRun(p, k + 1, wide);
    FullPiecesOk(p[0].asns, wide);
    SeenHopsConcat(p[0].asns, packed, wide);
    SeenHopsConcat(LastPart(p[0].asns), packed, wide);
    Regroup(PiecesItems(FullPieces(p[0].asns), wide), SeenHops(LastPart(p[0].asns), wide), SeenHops(packed, wide));
  }

  lemma {:induction false} OnePiece(x: Piece, wide: bool)
    ensures PiecesBytes([x], wide) == PieceBytes(x, wide) && PiecesItems([x], wide) == SeenHops(x.hops, wide)
  {
    hide PieceBytes, SeenHops;
    assert [x][1..] == [];
    assert PieceBytes(x, wide) + [] == PieceBytes(x, wide);
  }

  lemma {:induction false} LeadOk(p: Path, wide: bool)
    requires NonEmpty(p)
    ensures AllPiecesOk(Lead(p)) && EndsRun(Wire(AfterLead(p), wide))
    ensures Wire(p, wide) == PiecesBytes(Lead(p), wide) + Wire(AfterLead(p), wide)
    ensures Reading(p, wide) == PiecesItems(Lead(p), wide) + Reading(AfterLead(p), wide)
    decreases |p|
  {
    if |p| > 0 && p[0].kind == Sequence {
      LeadGroup(p, wide);
    } else {
      NoLead(p, wide);
    }
  }

  lemma {:induction false} NoLead(p: Path, wide: bool)
    requires NonEmpty(p) && (|p| > 0 ==> p[0].kind != Sequence)
    ensures EndsRun(Wire(p, wide))
  {
    if |p| > 0 {
      SingleBytes(p, wide, Wire(p[1..], wide));
    }
  }

  lemma {:induction false} PiecesAround(fs: seq<Piece>, x: Piece, ys: seq<Piece>, wide: bool)
    ensures PiecesBytes(fs + [x] + ys, wide) == PiecesBytes(fs, wide) + PieceBytes(x, wide) + PiecesBytes(ys, wide)
    ensures PiecesItems(fs + [x] + ys, wide) == PiecesItems(fs, wide) + SeenHops(x.hops, wide) + PiecesItems(ys, wide)
    ensures AllPiecesOk(fs) && PieceOk(x) && AllPiecesOk(ys) ==> AllPiecesOk(fs + [x] + ys)
  {
    hide PiecesBytes, PiecesItems, PieceBytes, SeenHops;
    OnePiece(x, wide);
    PiecesConcat(fs, [x], wide);
    PiecesConcat(fs + [x], ys, wide);
  }

  lemma {:induction false} LeadUnfold(p: Path, wide: bool)
    requires |p| > 0 && p[0].kind == Sequence
    ensures
      var k := PackCount(p[0], p[1..]);
      && Lead(p) == FullPieces(p[0].asns) + [Piece(LengthOctet(p, k), GroupHops(p))] + Lead(p[k + 1..])
      && AfterLead(p) == AfterLead(p[k + 1..]) && Wire(p, wide) == Group(p, k, wide) + Wire(p[k + 1..], wide)
  {
    hide FullPieces, GroupHops, Group;
  }

  lemma {:induction false} LeadGroup(p: Path, wide: bool)
    requires NonEmpty(p) && |p| > 0 && p[0].kind == Sequence
    ensures AllPiecesOk(Lead(p)) && EndsRun(Wire(AfterLead(p), wide))
    ensures Wire(p, wide) == PiecesBytes(Lead(p), wide) + Wire(AfterLead(p), wide)
    ensures Reading(p, wide) == PiecesItems(Lead(p), wide) + Reading(AfterLead(p), wide)
    decreases |p|, 0
  {
    hide Lead, AfterLead, Wire, Group, FullPieces, PiecesBytes, PiecesItems, PieceBytes, SeenHops, LastPart, Reading,
         EndsRun, GroupHops, AllPiecesOk;
    var k := PackCount(p[0], p[1..]);
    var x := Piece(LengthOctet(p, k), GroupHops(p));
    var fs, r := FullPieces(p[0].asns), p[k + 1..];
    LeadUnfold(p, wide);
    GroupOctet(p);
    FullPiecesOk(p[0].asns, wide);
    GroupBytes(p, wide);
    GroupReading(p, wide);
    LeadOk(r, wide);
    PiecesAround(fs, x, Lead(r), wide);
    Regroup(PiecesBytes(fs, wide) + PieceBytes(x, wide), PiecesBytes(Lead(r), wide), Wire(AfterLead(r), wide));
    Regroup(PiecesItems(fs, wide) + SeenHops(x.hops, wide), PiecesItems(Lead(r), wide), Reading(AfterLead(r), wide));
  }

  // ---- Reading in step

  /** A chunk with a right length octet is read as what it is. */
  lemma {:induction false} ChunkInStep(kind: Kind, s: seq<Asn>, rest: seq<u8>, wide: bool, items: seq<Item>)
    requires 0 < |s| <= SEGMENT_MAX && Yields(Chunk(kind, s, wide) + rest, 0, wide, items)
    ensures
      var first := Items(SeenSegment(Segment(kind, s), wide));
      |items| >= |first| && items == first + items[|first|..] && Yields(rest, 0, wide, items[|first|..])
  {
    hide Chunk, Items;
    ParseChunk(kind, s, wide, rest);
    var b, t := Chunk(kind, s, wide) + rest, SeenSegment(Segment(kind, s), wide);
    assert b[0..] == b && rest[0..] == rest;
    var r := ParseRaw(rest, wide).value;
    assert ([t] + r)[1..] == r;
    assert items == Items(t) + Denote(r);
    assert items[|Items(t)|..] == Denote(r);
    assert GetData(rest, 0, wide) == [];
  }

  /** A segment is read as the chunks it was split into. */
  ghost function SplitItems(s: Segment, wide: bool): seq<Item> { Denote(SeenPath(Split(s), wide)) }

  lemma {:induction false} SegmentInStep(s: Segment, rest: seq<u8>, wide: bool, items: seq<Item>)
    requires s.asns != []
    requires Yields(FullChunks(s.kind, s.asns, wide) + (Chunk(s.kind, LastPart(s.asns), wide) + rest), 0, wide, items)
    ensures
      var first := SplitItems(s, wide);
      |items| >= |first| && items == first + items[|first|..] && Yields(rest, 0, wide, items[|first|..])
    decreases |s.asns|
  {
    hide Chunk, Items, Yields, Denote;
    var last := Chunk(s.kind, LastPart(s.asns), wide) + rest;
    SplitItemsOn(s, wide);
    if |s.asns| <= SEGMENT_MAX {
      assert FullChunks(s.kind, s.asns, wide) + last == last;
      ChunkInStep(s.kind, s.asns, rest, wide, items);
    } else {
      var head, t := s.asns[..SEGMENT_MAX], Segment(s.kind, s.asns[SEGMENT_MAX..]);
      var more := FullChunks(t.kind, t.asns, wide) + last;
      SplitStep(s, wide, last, []);
      ChunkInStep(s.kind, head, more, wide, items);
      var n := |Items(SeenSegment(Segment(s.kind, head), wide))|;
      SegmentInStep(t, rest, wide, items[n..]);
      var m := |SplitItems(t, wide)|;
      assert items[n..][m..] == items[n + m..];
      hide FullChunks, LastPart, Split;
      assert items == items[..n] + items[n..];
    }
  }

  lemma {:induction false} SplitItemsOn(s: Segment, wide: bool)
    requires s.asns != []
    ensures
      SplitItems(s, wide) ==
        if |s.asns| <= SEGMENT_MAX then Items(SeenSegment(s, wide))
        else Items(SeenSegment(Segment(s.kind, s.asns[..SEGMENT_MAX]), wide))
             + SplitItems(Segment(s.kind, s.asns[SEGMENT_MAX..]), wide)
  {
    hide Items;
    var ts := SeenPath(Split(s), wide);
    if |s.asns| <= SEGMENT_MAX {
      assert Split(s) == [s] && [s][1..] == [] && SeenPath([], wide) == [];
      assert SeenPath([s], wide) == [SeenSegment(s, wide)];
      assert ts[1..] == [] && Denote([]) == [];
      assert Items(ts[0]) + [] == Items(ts[0]);
    } else {
      var t := Segment(s.kind, s.asns[SEGMENT_MAX..]);
      assert Split(s)[1..] == Split(t);
      assert ts[1..] == SeenPath(Split(t), wide);
    }
  }

  /** Sequences are read as their hops; other segments as at least one item, and as more if they were split. */
  lemma {:induction false} SplitItemsAre(s: Segment, wide: bool)
    requires s.asns != []
    ensures s.kind == Sequence ==> SplitItems(s, wide) == SeenHops(s.asns, wide)
    ensures s.kind != Sequence ==> |SplitItems(s, wide)| >= (if |s.asns| > SEGMENT_MAX then 2 else 1)
    ensures s.kind != Sequence ==> forall x | x in SplitItems(s, wide) :: !x.Hop?
    decreases |s.asns|
  {
    hide SplitItems;
    SplitItemsOn(s, wide);
    if |s.asns| > SEGMENT_MAX {
      var head, t := s.asns[..SEGMENT_MAX], Segment(s.kind, s.asns[SEGMENT_MAX..]);
      SplitItemsAre(t, wide);
      assert s.asns == head + t.asns;
      SeenHopsConcat(head, t.asns, wide);
    }
  }

  // ---- What goes wrong stays wrong

  /** A path without wrong length octets and split sets. */
  predicate Sound(p: Path) { ShortSets(p) && AtMostPairs(p) }

  /** The bytes of a first segment with which nothing is packed. */
  lemma {:induction false} AloneBytes(p: Path, wide: bool)
    requires |p| > 0 && PackCount(p[0], p[1..]) == 0
    ensures Wire(p, wide) == FullChunks(p[0].kind, p[0].asns, wide)
                             + (Chunk(p[0].kind, LastPart(p[0].asns), wide) + Wire(p[1..], wide))
  {
    UnfoldSingle(p, wide);
    SingleBytes(p, wide, Wire(p[1..], wide));
  }

  lemma {:induction false} TailNonEmpty(p: Path, k: nat)
    requires NonEmpty(p) && k <= |p|
    ensures NonEmpty(p[k..])
  {
  }

  /** A reader that has already yielded items that are not hops, beyond what was written, stays ahead. */
  lemma {:induction false} ItemsAhead(p: Path, ahead: seq<Item>, items: seq<Item>, wide: bool)
    requires NonEmpty(p) && ahead != [] && (forall x | x in ahead :: !x.Hop?) && Reading(p, wide) == ahead + items
    ensures !Yields(Wire(p, wide), 0, wide, items)
    decreases |p|
  {
    hide Yields, Wire, FullChunks, LastPart, Chunk, SplitItems, Items;
    assert Reading(p, wide)[0] == ahead[0] && ahead[0] in ahead;
    ReadingStarts(p, wide);
    if Yields(Wire(p, wide), 0, wide, items) {
      var s, first := p[0], SplitItems(p[0], wide);
      AloneBytes(p, wide);
      SegmentInStep(s, Wire(p[1..], wide), wide, items);
      SplitItemsAre(s, wide);
      ReadingFirst(p, wide);
      var rest := items[|first|..];
      assert Reading(p[1..], wide) == Reading(p, wide)[1..];
      assert Reading(p[1..], wide) == (ahead[1..] + first) + rest;
      TailNonEmpty(p, 1);
      ItemsAhead(p[1..], ahead[1..] + first, rest, wide);
    }
  }

  /** A reading begins with a hop exactly if the path begins with a sequence; other segments stand for one item. */
  lemma {:induction false} ReadingStarts(p: Path, wide: bool)
    requires NonEmpty(p)
    ensures Reading(p, wide) == [] <==> p == []
    ensures p != [] ==> (Reading(p, wide)[0].Hop? <==> p[0].kind == Sequence)
    ensures p != [] && p[0].kind != Sequence ==>
              PackCount(p[0], p[1..]) == 0 && |Items(SeenSegment(p[0], wide))| == 1
  {
    if p != [] {
      ReadingFirst(p, wide);
    }
  }

  /** A split set or confederation segment yields items too many. */
  lemma {:induction false} SplitStray(p: Path, wide: bool)
    requires NonEmpty(p) && |p| > 0 && p[0].kind != Sequence && |p[0].asns| > SEGMENT_MAX
    ensures !Yields(Wire(p, wide), 0, wide, Reading(p, wide))
  {
    hide Yields, Wire, FullChunks, LastPart, Chunk, SplitItems, Items, Reading;
    var items, first := Reading(p, wide), SplitItems(p[0], wide);
    ReadingStarts(p, wide);
    if Yields(Wire(p, wide), 0, wide, items) {
      AloneBytes(p, wide);
      SegmentInStep(p[0], Wire(p[1..], wide), wide, items);
      SplitItemsAre(p[0], wide);
      ReadingFirst(p, wide);
      assert Reading(p[1..], wide) == items[1..];
      assert items[1..] == first[1..] + items[|first|..];
      TailNonEmpty(p, 1);
      ItemsAhead(p[1..], first[1..], items[|first|..], wide);
    }
  }

  /** A chunk with a length octet that is too small leads the reader astray. */
  lemma {:induction false} ChunkStray(hs: seq<Asn>, xs: seq<Piece>, tail: seq<u8>, more: seq<Item>, octet: u8,
                                      b: seq<u8>, wide: bool)
    requires octet < |hs| && AllPiecesOk(xs) && EndsRun(tail)
    requires b == PieceBytes(Piece(octet, hs), wide) + (PiecesBytes(xs, wide) + tail)
    ensures !Yields(b, 0, wide, Meant(hs, xs, more, wide))
  {
    hide Data, PiecesBytes;
    assert b == [2, octet] + Stream(hs, xs, tail, wide);
    hide Yields, Stream, Meant, EndsRun;
    var t, items := Stream(hs, xs, tail, wide), Meant(hs, xs, more, wide);
    if Yields(b, 0, wide, items) {
      MeantHop(hs, xs, more, wide);
      TakesHead(b, wide, items);
      assert b[2..] == t && t[2 * 0..] == t;
      Astray(hs, xs, tail, more, 0, octet, 0, 0, wide);
    }
  }

  /** A group with a wrong length octet is such a chunk. */
  lemma {:induction false} PackStray(p: Path, wide: bool)
    requires NonEmpty(p) && |p| > 0 && PackCount(p[0], p[1..]) >= 2
    ensures !Yields(Wire(p, wide), 0, wide, Reading(p, wide))
  {
    hide Yields, Wire, Reading, Lead, AfterLead, GroupHops, PieceBytes, PiecesBytes, PiecesItems, SeenHops, EndsRun,
         AllPiecesOk;
    var k := PackCount(p[0], p[1..]);
    var hs, r := GroupHops(p), p[k + 1..];
    WrongOctet(p);
    TailNonEmpty(p, k + 1);
    LeadOk(r, wide);
    WrongBytes(p, wide);
    WrongReading(p, wide);
    var xs, tail, more := Lead(r), Wire(AfterLead(r), wide), Reading(AfterLead(r), wide);
    Regroup(SeenHops(hs, wide), PiecesItems(xs, wide), more);
    ChunkStray(hs, xs, tail, more, LengthOctet(p, k), Wire(p, wide), wide);
  }

  lemma {:induction false} WrongOctet(p: Path)
    requires NonEmpty(p) && |p| > 0 && PackCount(p[0], p[1..]) >= 2
    ensures p[0].kind == Sequence && LengthOctet(p, PackCount(p[0], p[1..])) < |GroupHops(p)|
  {
    var k := PackCount(p[0], p[1..]);
    PackedSequences(p, k);
    GroupOctet(p);
    LengthOctetRightIff(p);
    assert p[1].asns != [];
  }

  lemma {:induction false} WrongBytes(p: Path, wide: bool)
    requires |p| > 0 && PackCount(p[0], p[1..]) >= 2
    ensures
      var k := PackCount(p[0], p[1..]);
      Wire(p, wide) == PieceBytes(Piece(LengthOctet(p, k), GroupHops(p)), wide) + Wire(p[k + 1..], wide)
  {
    hide *;
    PackedFirst(p);
    LeadUnfold(p, wide);
    GroupBytes(p, wide);
    NoPieces(wide);
  }

  lemma {:induction false} NoPieces(wide: bool)
    ensures PiecesBytes([], wide) == [] && PiecesItems([], wide) == []
  {
  }

  lemma {:induction false} WrongReading(p: Path, wide: bool)
    requires |p| > 0 && PackCount(p[0], p[1..]) >= 2
    ensures Reading(p, wide) == SeenHops(GroupHops(p), wide) + Reading(p[PackCount(p[0], p[1..]) + 1..], wide)
  {
    PackedFirst(p);
    hide SeenHops, Reading, GroupHops, PackCount;
    GroupReading(p, wide);
    assert PiecesItems([], wide) == [];
  }

  lemma {:induction false} PackedFirst(p: Path)
    requires |p| > 0 && PackCount(p[0], p[1..]) >= 1
    ensures p[0].kind == Sequence && FullPieces(p[0].asns) == []
  {
    assert Packable(p[0], p[1..][0]);
  }

  /** What is not sound is not read as what it means. */
  lemma {:induction false} UnsoundStray(p: Path, wide: bool)
    requires NonEmpty(p) && !Sound(p)
    ensures !Yields(Wire(p, wide), 0, wide, Reading(p, wide))
    decreases |p|
  {
    hide Yields, Wire, Reading;
    var k := PackCount(p[0], p[1..]);
    if k >= 2 {
      PackStray(p, wide);
    } else if k == 0 && p[0].kind != Sequence && |p[0].asns| > SEGMENT_MAX {
      SplitStray(p, wide);
    } else {
      TailNonEmpty(p, k + 1);
      UnsoundTail(p);
      UnsoundStray(p[k + 1..], wide);
      if Yields(Wire(p, wide), 0, wide, Reading(p, wide)) {
        if k == 0 {
          SingleInStep(p, wide);
        } else {
          PairInStep(p, wide);
        }
      }
    }
  }

  lemma {:induction false} UnsoundTail(p: Path)
    requires |p| > 0 && !Sound(p) && PackCount(p[0], p[1..]) <= 1
    requires p[0].kind == Sequence || |p[0].asns| <= SEGMENT_MAX
    ensures !Sound(p[PackCount(p[0], p[1..]) + 1..])
  {
    var k := PackCount(p[0], p[1..]);
    if k == 0 {
      ShortSetsTail(p);
    } else {
      PackedSequences(p, k);
      ShortSetsDrop(p, 2);
    }
  }

  lemma {:induction false} SingleInStep(p: Path, wide: bool)
    requires NonEmpty(p) && |p| > 0 && PackCount(p[0], p[1..]) == 0
    requires p[0].kind == Sequence || |p[0].asns| <= SEGMENT_MAX
    requires Yields(Wire(p, wide), 0, wide, Reading(p, wide))
    ensures Yields(Wire(p[1..], wide), 0, wide, Reading(p[1..], wide))
  {
    hide Yields, Wire, FullChunks, LastPart, Chunk, Items, Reading;
    AloneBytes(p, wide);
    SegmentInStep(p[0], Wire(p[1..], wide), wide, Reading(p, wide));
    SplitItemsAre(p[0], wide);
    SplitItemsOn(p[0], wide);
    ReadingFirst(p, wide);
    hide SplitItems, SeenHops;
    var n := |SplitItems(p[0], wide)|;
    assert Reading(p, wide)[n..] == Reading(p[1..], wide);
  }

  lemma {:induction false} PairInStep(p: Path, wide: bool)
    requires NonEmpty(p) && |p| > 0 && PackCount(p[0], p[1..]) == 1
    requires Yields(Wire(p, wide), 0, wide, Reading(p, wide))
    ensures Yields(Wire(p[2..], wide), 0, wide, Reading(p[2..], wide))
  {
    PairBytes(p, wide);
    PackedFirst(p);
    var both := p[0].asns + p[1].asns;
    assert Wire(p, wide) == Chunk(Sequence, both, wide) + Wire(p[2..], wide);
    assert GroupHops(p) == both;
    hide Yields, Wire, Chunk, Reading, GroupHops, SeenHops;
    GroupReading(p, wide);
    assert PiecesItems([], wide) == [];
    ChunkInStep(Sequence, both, Wire(p[2..], wide), wide, Reading(p, wide));
    var n := |SeenHops(both, wide)|;
    SeenSequence(both, wide);
    assert Reading(p, wide)[n..] == Reading(p[2..], wide);
  }

  lemma {:induction false} SeenSequence(s: seq<Asn>, wide: bool)
    ensures Items(SeenSegment(Segment(Sequence, s), wide)) == SeenHops(s, wide)
  {
  }

  // ---- The round trip

  lemma {:induction false} ParsedNonEmpty(b: seq<u8>, wide: bool)
    ensures ParseRaw(b, wide).Some? ==> NonEmpty(ParseRaw(b, wide).value)
    decreases |b|
  {
    if ParseRaw(b, wide).Some? && |b| > 0 {
      ParsedNonEmpty(b[2 + Octets(b[1], wide)..], wide);
    }
  }

  /** For all paths and both widths: what is read back is the normal form of what the reader is to see if and only if
      no set and no confederation segment has more than 255 members and no three sequences are packed into one. */
  lemma {:induction false} RoundTripIff(p: Path, wide: bool)
    requires NonEmpty(p)
    ensures Parse(Wire(p, wide), wide) == Some(Normalise(SeenPath(p, wide))) <==> ShortSets(p) && AtMostPairs(p)
  {
    if AtMostPairs(p) {
      if wide {
        RoundTrip(p);
        SeenWide(p);
      } else {
        NarrowRoundTrip(p);
      }
    } else {
      UnsoundStray(p, wide);
      if Parse(Wire(p, wide), wide) == Some(Normalise(SeenPath(p, wide))) {
        ReadMeans(p, wide);
      }
    }
  }

  lemma {:induction false} ReadMeans(p: Path, wide: bool)
    requires NonEmpty(p) && Parse(Wire(p, wide), wide) == Some(Normalise(SeenPath(p, wide)))
    ensures Yields(Wire(p, wide), 0, wide, Reading(p, wide))
  {
    hide ParseRaw, Wire, Normalise, Denote;
    var b := Wire(p, wide);
    ParsedNonEmpty(b, wide);
    if wide {
      SeenWide(p);
    } else {
      SeenNonEmpty(p);
    }
    var q := ParseRaw(b, wide).value;
    CanonicalForm(q, SeenPath(p, wide));
    assert b[0..] == b;
    assert GetData(b, 0, wide) == [] && Hops([]) + Denote(q) == Denote(q);
  }
}
