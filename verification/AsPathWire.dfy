/**
 AS paths on the wire (section 4.3 of RFC 4271, section 3 of RFC 6793): segments of at
 most 255 AS numbers of two or four octets each.
 */
module AsPathWire {
  import opened Basics
  import opened AsPath

  const SEGMENT_MAX := 255
  const AS_TRANS: Asn := 23456
  const AS_MAX: Asn := 0xFFFF

  function Code(k: Kind): u8 {
    match k
    case Set => 1
    case Sequence => 2
    case ConfedSequence => 3
    case ConfedSet => 4
  }

  function KindOf(c: u8): Option<Kind> {
    match c
    case 1 => Some(Set)
    case 2 => Some(Sequence)
    case 3 => Some(ConfedSequence)
    case 4 => Some(ConfedSet)
    case _ => None
  }

  /** The octets taken by `n` AS numbers. */
  function Octets(n: nat, wide: bool): nat { if wide then 4 * n else 2 * n }

  // ---- AS numbers

  /** What a peer that reads two octets sees. */
  function Seen(a: Asn, wide: bool): Asn { if wide || a <= AS_MAX then a else AS_TRANS }

  function SeenAll(s: seq<Asn>, wide: bool): (r: seq<Asn>)
    ensures |r| == |s| && forall i | 0 <= i < |s| :: r[i] == Seen(s[i], wide)
  {
    seq(|s|, i requires 0 <= i < |s| => Seen(s[i], wide))
  }

  function AsnBytes(a: Asn, wide: bool): (b: seq<u8>)
    ensures |b| == Octets(1, wide)
  {
    if wide then Long(a) else Short(Seen(a, false))
  }

  function GetAsn(b: seq<u8>, wide: bool): Asn
    requires |b| >= Octets(1, wide)
  {
    if wide then GetLong(b) else GetShort(b)
  }

  function Data(s: seq<Asn>, wide: bool): (b: seq<u8>)
    ensures |b| == Octets(|s|, wide)
  {
    if |s| == 0 then [] else AsnBytes(s[0], wide) + Data(s[1..], wide)
  }

  function GetData(b: seq<u8>, n: nat, wide: bool): (s: seq<Asn>)
    requires |b| >= Octets(n, wide)
    ensures |s| == n
  {
    if n == 0 then [] else [GetAsn(b, wide)] + GetData(b[Octets(1, wide)..], n - 1, wide)
  }

  lemma {:induction false} AsnRoundTrip(a: Asn, wide: bool, rest: seq<u8>)
    ensures GetAsn(AsnBytes(a, wide) + rest, wide) == Seen(a, wide)
  {
    if wide {
      LongRoundTrip(a, rest);
    } else {
      ShortRoundTrip(Seen(a, false), rest);
    }
  }

  lemma {:induction false} DataRoundTrip(s: seq<Asn>, wide: bool, rest: seq<u8>)
    ensures GetData(Data(s, wide) + rest, |s|, wide) == SeenAll(s, wide)
  {
    if |s| > 0 {
      var b := Data(s, wide) + rest;
      var tail := Data(s[1..], wide) + rest;
      assert b == AsnBytes(s[0], wide) + tail;
      AsnRoundTrip(s[0], wide, tail);
      assert b[Octets(1, wide)..] == tail;
      DataRoundTrip(s[1..], wide, rest);
      assert SeenAll(s, wide) == [Seen(s[0], wide)] + SeenAll(s[1..], wide);
    }
  }

  lemma {:induction false} DataConcat(s: seq<Asn>, t: seq<Asn>, wide: bool)
    ensures Data(s + t, wide) == Data(s, wide) + Data(t, wide)
  {
    if |s| == 0 {
      assert s + t == t;
    } else {
      assert (s + t)[1..] == s[1..] + t;
      DataConcat(s[1..], t, wide);
    }
  }

  // ---- Writing

  predicate Packable(s: Segment, t: Segment) {
    s.kind == Sequence && t.kind == Sequence && |s.asns| + |t.asns| <= SEGMENT_MAX
  }

  /** How many of the following segments are written into the chunk of `s`. */
  function PackCount(s: Segment, rest: Path): (k: nat)
    ensures k <= |rest| && forall i | 0 <= i < k :: Packable(s, rest[i])
  {
    if |rest| > 0 && Packable(s, rest[0]) then 1 + PackCount(s, rest[1..]) else 0
  }

  function Chunk(k: Kind, s: seq<Asn>, wide: bool): seq<u8>
    requires |s| <= SEGMENT_MAX
  {
    [Code(k), |s|] + Data(s, wide)
  }

  /** The full chunks of 255 that precede the last one. */
  function FullChunks(k: Kind, s: seq<Asn>, wide: bool): seq<u8> {
    if |s| <= SEGMENT_MAX then []
    else Chunk(k, s[..SEGMENT_MAX], wide) + FullChunks(k, s[SEGMENT_MAX..], wide)
  }

  function LastPart(s: seq<Asn>): (r: seq<Asn>)
    ensures |r| <= SEGMENT_MAX && |r| <= |s| && (|s| <= SEGMENT_MAX ==> r == s) && (s != [] ==> r != [])
  {
    if |s| <= SEGMENT_MAX then s else LastPart(s[SEGMENT_MAX..])
  }

  /** The length octet: it counts the last part and the last packed segment only. */
  function LengthOctet(p: Path, k: nat): u8
    requires 0 < |p| && k < |p| && (k > 0 ==> Packable(p[0], p[k]))
  {
    |LastPart(p[0].asns)| + if k > 0 then |p[k].asns| else 0
  }

  /** The bytes written for the first segment and those packed with it. */
  function Group(p: Path, k: nat, wide: bool): seq<u8>
    requires 0 < |p| && k < |p| && (k > 0 ==> Packable(p[0], p[k]))
  {
    FullChunks(p[0].kind, p[0].asns, wide) + [Code(p[0].kind), LengthOctet(p, k)]
    + Data(LastPart(p[0].asns) + AllAsns(p[1..k + 1]), wide)
  }

  function Wire(p: Path, wide: bool): seq<u8> {
    if |p| == 0 then []
    else
      var k := PackCount(p[0], p[1..]);
      Group(p, k, wide) + Wire(p[k + 1..], wide)
  }

  // ---- Reading

  function ParseRaw(b: seq<u8>, wide: bool): Option<Path> {
    if |b| == 0 then Some([])
    else if |b| <= 2 then None
    else
      var size := 2 + Octets(b[1], wide);
      if size > |b| || b[1] == 0 || KindOf(b[0]).None? then None
      else
        var rest := ParseRaw(b[size..], wide);
        if rest.None? then None
        else Some([Segment(KindOf(b[0]).value, GetData(b[2..], b[1], wide))] + rest.value)
  }

  function Parse(b: seq<u8>, wide: bool): Option<Path> {
    if |b| % 2 != 0 then None
    else
      var raw := ParseRaw(b, wide);
      if raw.None? then None else Some(Normalise(raw.value))
  }

  // ---- What arrives

  function Split(s: Segment): Path
    decreases |s.asns|
  {
    if |s.asns| <= SEGMENT_MAX then [s]
    else [Segment(s.kind, s.asns[..SEGMENT_MAX])] + Split(Segment(s.kind, s.asns[SEGMENT_MAX..]))
  }

  /** The segments as they are written, when at most one is packed into another at a time. */
  function Emitted(p: Path): Path {
    if |p| == 0 then []
    else
      var k := PackCount(p[0], p[1..]);
      if k == 0 then Split(p[0]) + Emitted(p[1..])
      else [Segment(Sequence, p[0].asns + AllAsns(p[1..k + 1]))] + Emitted(p[k + 1..])
  }

  /** No three segments in a row are written as one. */
  predicate AtMostPairs(p: Path)
    decreases |p|
  {
    |p| == 0 || var k := PackCount(p[0], p[1..]); k <= 1 && AtMostPairs(p[k + 1..])
  }

  function SeenSegment(s: Segment, wide: bool): Segment { Segment(s.kind, SeenAll(s.asns, wide)) }

  function SeenPath(p: Path, wide: bool): Path {
    if |p| == 0 then [] else [SeenSegment(p[0], wide)] + SeenPath(p[1..], wide)
  }

  lemma {:induction false} SeenConcat(p: Path, q: Path, wide: bool)
    ensures SeenPath(p + q, wide) == SeenPath(p, wide) + SeenPath(q, wide)
  {
    if |p| == 0 {
      assert p + q == q;
    } else {
      assert (p + q)[1..] == p[1..] + q;
      SeenConcat(p[1..], q, wide);
    }
  }

  lemma {:induction false} SeenWide(p: Path)
    ensures SeenPath(p, true) == p
  {
    if |p| > 0 {
      assert SeenAll(p[0].asns, true) == p[0].asns;
      SeenWide(p[1..]);
      assert p == [p[0]] + p[1..];
    }
  }

  /** Reading one chunk. */
  lemma {:induction false} ParseChunk(k: Kind, s: seq<Asn>, wide: bool, rest: seq<u8>)
    requires 0 < |s| <= SEGMENT_MAX
    ensures
      var r := ParseRaw(rest, wide);
      ParseRaw(Chunk(k, s, wide) + rest, wide)
      == if r.Some? then Some([SeenSegment(Segment(k, s), wide)] + r.value) else None
  {
    ParseStep(k, |s|, Data(s, wide), wide, rest);
    DataRoundTrip(s, wide, rest);
  }

  lemma {:induction false} ParseStep(k: Kind, n: u8, d: seq<u8>, wide: bool, rest: seq<u8>)
    requires n > 0 && |d| == Octets(n, wide)
    ensures
      var r := ParseRaw(rest, wide);
      ParseRaw([Code(k), n] + d + rest, wide)
      == if r.Some? then Some([Segment(k, GetData(d + rest, n, wide))] + r.value) else None
  {
    var b := [Code(k), n] + d + rest;
    assert b[0] == Code(k) && b[1] == n;
    assert b[2..] == d + rest;
    assert b[2 + Octets(n, wide)..] == rest;
  }

  lemma {:induction false} ParseSplit(s: Segment, wide: bool, rest: seq<u8>)
    requires s.asns != [] && ParseRaw(rest, wide).Some?
    ensures
      ParseRaw(FullChunks(s.kind, s.asns, wide) + (Chunk(s.kind, LastPart(s.asns), wide) + rest), wide)
      == Some(SeenPath(Split(s), wide) + ParseRaw(rest, wide).value)
    decreases |s.asns|
  {
    var last := Chunk(s.kind, LastPart(s.asns), wide) + rest;
    if |s.asns| <= SEGMENT_MAX {
      ParseChunk(s.kind, s.asns, wide, rest);
      assert FullChunks(s.kind, s.asns, wide) + last == last;
      assert SeenPath(Split(s), wide) == [SeenSegment(s, wide)];
    } else {
      var t := Segment(s.kind, s.asns[SEGMENT_MAX..]);
      var head := s.asns[..SEGMENT_MAX];
      ParseSplit(t, wide, rest);
      ParseChunk(s.kind, head, wide, FullChunks(t.kind, t.asns, wide) + last);
      SplitStep(s, wide, last, ParseRaw(rest, wide).value);
    }
  }

  lemma {:induction false} SplitStep(s: Segment, wide: bool, last: seq<u8>, r: Path)
    requires |s.asns| > SEGMENT_MAX
    ensures
      var head, t := s.asns[..SEGMENT_MAX], Segment(s.kind, s.asns[SEGMENT_MAX..]);
      && FullChunks(s.kind, s.asns, wide) + last
         == Chunk(s.kind, head, wide) + (FullChunks(t.kind, t.asns, wide) + last)
      && SeenPath(Split(s), wide) + r
         == [SeenSegment(Segment(s.kind, head), wide)] + (SeenPath(Split(t), wide) + r)
  {
    var head, t := s.asns[..SEGMENT_MAX], Segment(s.kind, s.asns[SEGMENT_MAX..]);
    var a, b := Chunk(s.kind, head, wide), FullChunks(t.kind, t.asns, wide);
    assert FullChunks(s.kind, s.asns, wide) == a + b;
    assert (a + b) + last == a + (b + last);
    assert Split(s)[1..] == Split(t);
    var x, y := [SeenSegment(Segment(s.kind, head), wide)], SeenPath(Split(t), wide);
    assert SeenPath(Split(s), wide) == x + y;
    assert (x + y) + r == x + (y + r);
  }

  /** The wire form of a path, when no length octet is wrong, is read as the segments emitted. */
  lemma {:induction false} ParseEmitted(p: Path, wide: bool)
    requires NonEmpty(p) && AtMostPairs(p)
    ensures ParseRaw(Wire(p, wide), wide) == Some(SeenPath(Emitted(p), wide))
    decreases |p|
  {
    if |p| > 0 {
      if PackCount(p[0], p[1..]) == 0 {
        ParseEmitted(p[1..], wide);
        ParseSingle(p, wide);
      } else {
        assert AtMostPairs(p[2..]);
        ParseEmitted(p[2..], wide);
        ParsePair(p, wide);
      }
    }
  }

  lemma {:induction false} ParseSingle(p: Path, wide: bool)
    requires |p| > 0 && p[0].asns != [] && PackCount(p[0], p[1..]) == 0
    requires ParseRaw(Wire(p[1..], wide), wide) == Some(SeenPath(Emitted(p[1..]), wide))
    ensures ParseRaw(Wire(p, wide), wide) == Some(SeenPath(Emitted(p), wide))
  {
    var rest, e := Wire(p[1..], wide), Emitted(p[1..]);
    UnfoldSingle(p, wide);
    SingleBytes(p, wide, rest);
    ParseSplit(p[0], wide, rest);
    SeenConcat(Split(p[0]), e, wide);
  }

  lemma {:induction false} UnfoldSingle(p: Path, wide: bool)
    requires |p| > 0 && PackCount(p[0], p[1..]) == 0
    ensures Wire(p, wide) == Group(p, 0, wide) + Wire(p[1..], wide)
    ensures Emitted(p) == Split(p[0]) + Emitted(p[1..])
  {
  }

  lemma {:induction false} ParsePair(p: Path, wide: bool)
    requires |p| > 0 && p[0].asns != [] && PackCount(p[0], p[1..]) == 1
    requires ParseRaw(Wire(p[2..], wide), wide) == Some(SeenPath(Emitted(p[2..]), wide))
    ensures ParseRaw(Wire(p, wide), wide) == Some(SeenPath(Emitted(p), wide))
  {
    PairBytes(p, wide);
    ParseChunk(Sequence, p[0].asns + p[1].asns, wide, Wire(p[2..], wide));
    var s := Segment(Sequence, p[0].asns + p[1].asns);
    assert Emitted(p) == [s] + Emitted(p[2..]);
    assert Emitted(p)[1..] == Emitted(p[2..]);
  }

  lemma {:induction false} SingleBytes(p: Path, wide: bool, rest: seq<u8>)
    requires |p| > 0
    ensures Group(p, 0, wide) + rest
         == FullChunks(p[0].kind, p[0].asns, wide) + (Chunk(p[0].kind, LastPart(p[0].asns), wide) + rest)
  {
    assert LastPart(p[0].asns) + AllAsns(p[1..1]) == LastPart(p[0].asns);
  }

  /** Two packed segments are written as one chunk of both. */
  lemma {:induction false} PairBytes(p: Path, wide: bool)
    requires |p| > 0 && PackCount(p[0], p[1..]) == 1
    ensures
      var both := p[0].asns + p[1].asns;
      && Packable(p[0], p[1])
      && Group(p, 1, wide) == Chunk(Sequence, both, wide)
      && AllAsns(p[1..2]) == p[1].asns
  {
    assert Packable(p[0], p[1..][0]);
    assert p[1..2] == [p[1]] && p[1..2][1..] == [];
    assert AllAsns(p[1..2]) == p[1].asns + [];
    assert FullChunks(p[0].kind, p[0].asns, wide) == [];
    assert LastPart(p[0].asns) + AllAsns(p[1..1 + 1]) == p[0].asns + p[1].asns;
    assert LengthOctet(p, 1) == |p[0].asns + p[1].asns|;
  }

  // ---- Meaning of what arrives

  predicate ShortSets(p: Path) {
    forall i | 0 <= i < |p| && p[i].kind != Sequence :: |p[i].asns| <= SEGMENT_MAX
  }

  lemma {:induction false} SplitMeaning(s: Segment)
    requires s.asns != []
    ensures NonEmpty(Split(s))
    ensures if s.kind == Sequence || |s.asns| <= SEGMENT_MAX then Denote(Split(s)) == Items(s)
            else |Denote(Split(s))| > 1
    decreases |s.asns|
  {
    if |s.asns| <= SEGMENT_MAX {
      assert Denote([s]) == Items(s) + [];
    } else {
      var h, t := Segment(s.kind, s.asns[..SEGMENT_MAX]), Segment(s.kind, s.asns[SEGMENT_MAX..]);
      SplitMeaning(t);
      assert Split(s) == [h] + Split(t);
      PrependedMeaning(h, Split(t));
      if s.kind == Sequence {
        HopsConcat(h.asns, t.asns);
        assert s.asns == h.asns + t.asns;
      } else {
        assert |Items(h)| == 1 && |Denote(Split(t))| >= 1;
      }
    }
  }

  lemma {:induction false} HopsConcat(a: seq<Asn>, b: seq<Asn>)
    ensures Hops(a + b) == Hops(a) + Hops(b)
  {
  }

  lemma {:induction false} PackedMeaning(s: Segment, rest: Path, k: nat)
    requires s.kind == Sequence && k <= |rest| && forall i | 0 <= i < k :: rest[i].kind == Sequence
    ensures Denote([s] + rest) == Hops(s.asns + AllAsns(rest[..k])) + Denote(rest[k..])
    decreases k
  {
    assert ([s] + rest)[1..] == rest;
    if k == 0 {
      assert s.asns + AllAsns(rest[..0]) == s.asns;
    } else {
      PackedMeaning(rest[0], rest[1..], k - 1);
      assert [rest[0]] + rest[1..] == rest;
      assert rest[1..][..k - 1] == rest[..k][1..];
      assert rest[1..][k - 1..] == rest[k..];
      HopsConcat(s.asns, AllAsns(rest[..k]));
    }
  }

  /** `e` is what is emitted for `p`: the same meaning, or more items if a set was split. */
  ghost predicate MeaningKept(p: Path, e: Path) {
    && NonEmpty(e)
    && if ShortSets(p) then Denote(e) == Denote(p) else |Denote(e)| > |Denote(p)|
  }

  lemma {:induction false} ShortSetsTail(p: Path)
    requires |p| > 0
    ensures ShortSets(p) <==> ShortSets(p[1..]) && (p[0].kind == Sequence || |p[0].asns| <= SEGMENT_MAX)
  {
    if ShortSets(p[1..]) && (p[0].kind == Sequence || |p[0].asns| <= SEGMENT_MAX) {
      forall i | 0 <= i < |p| && p[i].kind != Sequence ensures |p[i].asns| <= SEGMENT_MAX {
        assert i > 0 ==> p[i] == p[1..][i - 1];
      }
    }
  }

  lemma {:induction false} ShortSetsDrop(p: Path, k: nat)
    requires k <= |p| && forall i | 0 <= i < k :: p[i].kind == Sequence
    ensures ShortSets(p) <==> ShortSets(p[k..])
  {
    if k == 0 {
      assert p[0..] == p;
    } else {
      ShortSetsTail(p);
      ShortSetsDrop(p[1..], k - 1);
      assert p[1..][k - 1..] == p[k..];
    }
  }

  lemma {:induction false} EmittedSingle(p: Path)
    requires |p| > 0 && p[0].asns != [] && PackCount(p[0], p[1..]) == 0 && MeaningKept(p[1..], Emitted(p[1..]))
    ensures MeaningKept(p, Emitted(p))
  {
    SplitMeaning(p[0]);
    DenoteConcat(Split(p[0]), Emitted(p[1..]));
    ShortSetsTail(p);
  }

  lemma {:induction false} EmittedPacked(p: Path, k: nat)
    requires |p| > 0 && p[0].asns != [] && k == PackCount(p[0], p[1..]) && k > 0
    requires MeaningKept(p[k + 1..], Emitted(p[k + 1..]))
    ensures MeaningKept(p, Emitted(p))
  {
    var q, e := p[k + 1..], Emitted(p[k + 1..]);
    var s := Segment(Sequence, p[0].asns + AllAsns(p[1..k + 1]));
    PackedSequences(p, k);
    PackedDenote(p, k);
    ShortSetsDrop(p, k + 1);
    assert Emitted(p) == [s] + e;
    PrependedMeaning(s, e);
  }

  lemma {:induction false} PackedDenote(p: Path, k: nat)
    requires k < |p| && forall i | 0 <= i <= k :: p[i].kind == Sequence
    ensures Denote(p) == Hops(p[0].asns + AllAsns(p[1..k + 1])) + Denote(p[k + 1..])
  {
    assert p == [p[0]] + p[1..];
    assert p[1..][..k] == p[1..k + 1] && p[1..][k..] == p[k + 1..];
    PackedMeaning(p[0], p[1..], k);
  }

  lemma {:induction false} PackedSequences(p: Path, k: nat)
    requires |p| > 0 && k == PackCount(p[0], p[1..]) && k > 0
    ensures forall i | 0 <= i <= k :: p[i].kind == Sequence
  {
    forall i | 0 <= i <= k ensures p[i].kind == Sequence {
      assert Packable(p[0], p[1..][if i == 0 then 0 else i - 1]);
    }
  }

  lemma {:induction false} PrependedMeaning(s: Segment, e: Path)
    requires s.asns != [] && NonEmpty(e)
    ensures NonEmpty([s] + e) && Denote([s] + e) == Items(s) + Denote(e)
  {
    assert ([s] + e)[1..] == e;
  }

  /** Writing keeps the meaning exactly when no set or confederation segment is split. */
  lemma {:induction false} EmittedMeaning(p: Path)
    requires NonEmpty(p)
    ensures MeaningKept(p, Emitted(p))
    decreases |p|
  {
    if |p| > 0 {
      var k := PackCount(p[0], p[1..]);
      EmittedMeaning(p[k + 1..]);
      if k == 0 {
        EmittedSingle(p);
      } else {
        EmittedPacked(p, k);
      }
    }
  }

  /**
   The four-octet round trip: what is read back is the normal form of what was written if
   and only if no set and no confederation segment has more than 255 members.
   */
  lemma {:induction false} RoundTrip(p: Path)
    requires NonEmpty(p) && AtMostPairs(p)
    ensures Parse(Wire(p, true), true) == Some(Normalise(p)) <==> ShortSets(p)
  {
    ParseEmitted(p, true);
    SeenWide(Emitted(p));
    EvenWire(p, true);
    EmittedMeaning(p);
    CanonicalForm(Emitted(p), p);
  }

  /** In particular a normal path comes back unchanged exactly if it has no such segment. */
  lemma {:induction false} NormalRoundTrip(p: Path)
    requires Normal(p)
    ensures Parse(Wire(p, true), true) == Some(p) <==> ShortSets(p)
  {
    NormalAtMostPairs(p);
    RoundTrip(p);
    NormalFixed(p);
  }

  /** With two octets, every large AS number is read as AS_TRANS, under the same condition. */
  lemma {:induction false} NarrowRoundTrip(p: Path)
    requires NonEmpty(p) && AtMostPairs(p)
    ensures Parse(Wire(p, false), false) == Some(Normalise(SeenPath(p, false))) <==> ShortSets(p)
  {
    ParseEmitted(p, false);
    EvenWire(p, false);
    EmittedMeaning(p);
    SeenMeaning(Emitted(p));
    SeenMeaning(p);
    SeenNonEmpty(p);
    SeenNonEmpty(Emitted(p));
    CanonicalForm(SeenPath(Emitted(p), false), SeenPath(p, false));
  }

  lemma {:induction false} SeenNonEmpty(p: Path)
    requires NonEmpty(p)
    ensures NonEmpty(SeenPath(p, false)) && |SeenPath(p, false)| == |p|
  {
    if |p| > 0 {
      SeenNonEmpty(p[1..]);
    }
  }

  ghost function SeenSet(s: set<Asn>): set<Asn> { set x | x in s :: Seen(x, false) }

  ghost function SeenItem(i: Item): Item {
    match i
    case Hop(a) => Hop(Seen(a, false))
    case SetOf(m) => SetOf(SeenSet(m))
    case ConfedSeq(s) => ConfedSeq(SeenAll(s, false))
    case ConfedSetOf(m) => ConfedSetOf(SeenSet(m))
  }

  ghost function SeenItems(items: seq<Item>): (r: seq<Item>)
    ensures |r| == |items| && forall i | 0 <= i < |items| :: r[i] == SeenItem(items[i])
  {
    seq(|items|, i requires 0 <= i < |items| => SeenItem(items[i]))
  }

  lemma {:induction false} SeenElems(s: seq<Asn>)
    ensures Elems(SeenAll(s, false)) == SeenSet(Elems(s))
  {
    forall x ensures x in Elems(SeenAll(s, false)) <==> x in SeenSet(Elems(s)) {
      if x in SeenSet(Elems(s)) {
        var y :| y in Elems(s) && x == Seen(y, false);
        var i :| 0 <= i < |s| && s[i] == y;
        assert SeenAll(s, false)[i] == x;
      }
    }
  }

  lemma {:induction false} SeenSegmentMeaning(s: Segment)
    ensures Items(SeenSegment(s, false)) == SeenItems(Items(s))
  {
    SeenElems(s.asns);
  }

  /** The meaning of what a two-octet peer sees is the meaning, seen by it. */
  lemma {:induction false} SeenMeaning(p: Path)
    ensures Denote(SeenPath(p, false)) == SeenItems(Denote(p))
  {
    if |p| > 0 {
      SeenMeaning(p[1..]);
      SeenSegmentMeaning(p[0]);
      assert SeenPath(p, false)[1..] == SeenPath(p[1..], false);
      SeenItemsConcat(Items(p[0]), Denote(p[1..]));
    }
  }

  lemma {:induction false} SeenItemsConcat(a: seq<Item>, b: seq<Item>)
    ensures SeenItems(a + b) == SeenItems(a) + SeenItems(b)
  {
  }

  lemma {:induction false} EvenFullChunks(k: Kind, s: seq<Asn>, wide: bool)
    ensures |FullChunks(k, s, wide)| % 2 == 0
    decreases |s|
  {
    if |s| > SEGMENT_MAX {
      EvenFullChunks(k, s[SEGMENT_MAX..], wide);
    }
  }

  lemma {:induction false} EvenGroup(p: Path, k: nat, wide: bool)
    requires 0 < |p| && k < |p| && (k > 0 ==> Packable(p[0], p[k]))
    ensures |Group(p, k, wide)| % 2 == 0
  {
    EvenFullChunks(p[0].kind, p[0].asns, wide);
    assert Octets(|LastPart(p[0].asns) + AllAsns(p[1..k + 1])|, wide) % 2 == 0;
  }

  lemma {:induction false} EvenWire(p: Path, wide: bool)
    ensures |Wire(p, wide)| % 2 == 0
    decreases |p|
  {
    if |p| > 0 {
      var k := PackCount(p[0], p[1..]);
      EvenWire(p[k + 1..], wide);
      EvenGroup(p, k, wide);
    }
  }

  lemma {:induction false} NormalAtMostPairs(p: Path)
    requires Normal(p)
    ensures AtMostPairs(p)
    decreases |p|
  {
    if |p| > 0 {
      assert |p| > 1 ==> p[1..][0] == p[1];
      assert PackCount(p[0], p[1..]) == 0;
      NormalAtMostPairs(p[1..]);
    }
  }

  /** A two-octet peer sees AS 70000 as AS 23456. */
  lemma {:induction false} LargeIsTrans()
    ensures Parse(Wire([Segment(Sequence, [70000, 65535])], false), false) == Some([Segment(Sequence, [23456, 65535])])
  {
    var p := [Segment(Sequence, [70000, 65535])];
    assert p[1..] == [];
    NormalAtMostPairs(p);
    NarrowRoundTrip(p);
    assert SeenAll([70000, 65535], false) == [23456, 65535];
    var q := [Segment(Sequence, [23456, 65535])];
    assert SeenPath(p, false) == q && q[1..] == [];
    NormalFixed(q);
  }

  /** Three sequences in a row: the length octet says two, and the result is not readable. */
  lemma {:induction false} PackedThreeUnreadable()
    ensures
      var p := [Segment(Sequence, [1]), Segment(Sequence, [2]), Segment(Sequence, [3])];
      NonEmpty(p) && Parse(Wire(p, true), true) == None
  {
    PackedThree();
    hide Wire, Group;
    var rest := Data([3], true);
    ParseChunk(Sequence, [1, 2], true, rest);
    assert rest == AsnBytes(3, true) + [];
    assert rest[0] == 0;
  }

  lemma {:induction false} PackedThree()
    ensures
      var p := [Segment(Sequence, [1]), Segment(Sequence, [2]), Segment(Sequence, [3])];
      Wire(p, true) == Chunk(Sequence, [1, 2], true) + Data([3], true)
  {
    hide Parse;
    var p := [Segment(Sequence, [1]), Segment(Sequence, [2]), Segment(Sequence, [3])];
    assert p[1..] == [p[1], p[2]] && p[1..][1..] == [p[2]] && p[1..][1..][1..] == [];
    assert PackCount(p[0], p[1..]) == 2;
    assert p[1..3] == [p[1], p[2]] && p[1..3][1..] == [p[2]];
    assert AllAsns(p[1..3]) == [2, 3] by { assert AllAsns([p[2]]) == [3] + []; }
    assert p[3..] == [];
    var b := Wire(p, true);
    assert LastPart([1]) + [2, 3] == [1, 2, 3];
    assert b == Group(p, 2, true) + [];
    assert FullChunks(Sequence, [1], true) == [];
    assert [1, 2, 3] == [1, 2] + [3];
    DataConcat([1, 2], [3], true);
  }

  /** The length octet counts the AS numbers that follow iff all packed segments but the last are empty. */
  lemma {:induction false} LengthOctetRightIff(p: Path)
    requires |p| > 0
    ensures
      var k := PackCount(p[0], p[1..]);
      LengthOctet(p, k) == |LastPart(p[0].asns) + AllAsns(p[1..k + 1])|
      <==> forall i | 1 <= i < k :: p[i].asns == []
  {
    var k := PackCount(p[0], p[1..]);
    if k > 0 {
      assert p[1..k + 1] == p[1..k] + [p[k]];
      AllAsnsConcat(p[1..k], [p[k]]);
      assert AllAsns([p[k]]) == p[k].asns + [];
      AllAsnsEmpty(p[1..k]);
      assert forall i | 1 <= i < k :: p[i] == p[1..k][i - 1];
    } else {
      assert p[1..1] == [];
    }
  }

  lemma {:induction false} AllAsnsEmpty(p: Path)
    ensures AllAsns(p) == [] <==> forall i | 0 <= i < |p| :: p[i].asns == []
  {
    if |p| > 0 {
      AllAsnsEmpty(p[1..]);
      assert (forall i | 0 <= i < |p| :: p[i].asns == []) <==>
             p[0].asns == [] && forall i | 0 <= i < |p[1..]| :: p[1..][i].asns == [];
    }
  }

  // ---- The code

  /** Writes the full chunks of an overlong segment; what is left fits one more. */
  method PutFull(kind: Kind, asns: seq<Asn>, wide: bool) returns (out: seq<u8>, written: nat)
    ensures out == FullChunks(kind, asns, wide)
    ensures written <= |asns| && asns[written..] == LastPart(asns)
  {
    out, written := [], 0;
    assert asns[0..] == asns;
    while |asns| - written > SEGMENT_MAX
      invariant written <= |asns|
      invariant FullChunks(kind, asns, wide) == out + FullChunks(kind, asns[written..], wide)
      invariant LastPart(asns) == LastPart(asns[written..])
    {
      var rest := asns[written..];
      assert rest[SEGMENT_MAX..] == asns[written + SEGMENT_MAX..];
      Regroup(out, Chunk(kind, rest[..SEGMENT_MAX], wide), FullChunks(kind, rest[SEGMENT_MAX..], wide));
      out := out + Chunk(kind, rest[..SEGMENT_MAX], wide);
      written := written + SEGMENT_MAX;
    }
    assert out + [] == out;
  }

  /** Packs what follows into the last chunk, rewriting its length octet each time. */
  method PackFollowing(q: Path, last: seq<Asn>, wide: bool) returns (data: seq<u8>, length: u8, k: nat)
    requires |q| > 0 && last == LastPart(q[0].asns)
    ensures k == PackCount(q[0], q[1..])
    ensures length == LengthOctet(q, k) && data == Data(last + AllAsns(q[1..k + 1]), wide)
  {
    k, length, data := 0, |last|, Data(last, wide);
    assert last + AllAsns(q[1..1]) == last;
    while k + 1 < |q| && Packable(q[0], q[k + 1])
      invariant k < |q| && (k > 0 ==> Packable(q[0], q[k]))
      invariant PackCount(q[0], q[1..]) == k + PackCount(q[0], q[k + 1..])
      invariant length == LengthOctet(q, k) && data == Data(last + AllAsns(q[1..k + 1]), wide)
    {
      PackOne(last, q, k, wide);
      assert q[k + 1..][1..] == q[k + 2..];
      data := data + Data(q[k + 1].asns, wide);
      length := |last| + |q[k + 1].asns|;
      k := k + 1;
    }
  }

  /** Writes the first segment of a list and those packed with it. */
  method PutGroup(q: Path, wide: bool) returns (out: seq<u8>, k: nat)
    requires |q| > 0
    ensures k == PackCount(q[0], q[1..]) && out == Group(q, k, wide)
  {
    hide FullChunks, Data, LastPart, AllAsns, LengthOctet;
    var full, written := PutFull(q[0].kind, q[0].asns, wide);
    var data, length;
    data, length, k := PackFollowing(q, q[0].asns[written..], wide);
    out := full + [Code(q[0].kind), length] + data;
  }

  lemma {:induction false} PackOne(last: seq<Asn>, q: Path, k: nat, wide: bool)
    requires k + 1 < |q|
    ensures Data(last + AllAsns(q[1..k + 2]), wide)
         == Data(last + AllAsns(q[1..k + 1]), wide) + Data(q[k + 1].asns, wide)
  {
    var a, b := AllAsns(q[1..k + 1]), q[k + 1].asns;
    assert q[1..k + 2] == q[1..k + 1] + [q[k + 1]];
    AllAsnsConcat(q[1..k + 1], [q[k + 1]]);
    assert [q[k + 1]][1..] == [];
    assert AllAsns([q[k + 1]]) == b + [] == b;
    assert last + (a + b) == (last + a) + b;
    DataConcat(last + a, b, wide);
  }

  /** Writes a path to a stream with enough room; the count returned is that of the bytes written. */
  method Put(p: Path, wide: bool, room: nat) returns (out: seq<u8>, bytes: nat)
    requires |Wire(p, wide)| <= room
    ensures out == if p == [] || p[0].asns == [] then [] else Wire(p, wide)
    ensures bytes == |out|
  {
    out, bytes := [], 0;
    if p == [] || p[0].asns == [] {
      return;
    }
    var q := p;
    while |q| > 0 && 2 + Octets(|q[0].asns|, wide) <= room - |out|
      invariant bytes == |out| && Wire(p, wide) == out + Wire(q, wide)
      decreases |q|
    {
      var group, k := PutGroup(q, wide);
      Regroup(out, group, Wire(q[k + 1..], wide));
      out := out + group;
      bytes := bytes + |group|;
      q := q[k + 1..];
    }
    if |q| > 0 {
      EnoughRoom(q, wide);
    }
  }

  lemma {:induction false} EnoughRoom(p: Path, wide: bool)
    requires |p| > 0
    ensures |Wire(p, wide)| >= 2 + Octets(|p[0].asns|, wide)
  {
    FullChunksLength(p[0].kind, p[0].asns, wide);
    var k := PackCount(p[0], p[1..]);
    assert |Wire(p, wide)| >= |Group(p, k, wide)|;
  }

  lemma {:induction false} FullChunksLength(k: Kind, s: seq<Asn>, wide: bool)
    ensures |FullChunks(k, s, wide)| >= Octets(|s| - |LastPart(s)|, wide)
    decreases |s|
  {
    if |s| > SEGMENT_MAX {
      FullChunksLength(k, s[SEGMENT_MAX..], wide);
    }
  }

  function After(segs: Path, rest: Option<Path>): Option<Path> {
    if rest.None? then None else Some(segs + rest.value)
  }

  lemma {:induction false} AfterOne(segs: Path, seg: Segment, rest: Option<Path>)
    ensures After(segs, After([seg], rest)) == After(segs + [seg], rest)
  {
    if rest.Some? {
      assert segs + ([seg] + rest.value) == (segs + [seg]) + rest.value;
    }
  }

  /** Reads segments one by one, checking each length before it is trusted, and normalises. */
  method ParsePath(b: seq<u8>, wide: bool) returns (r: Option<Path>)
    ensures r == Parse(b, wide)
  {
    if |b| == 0 {
      return Some([]);
    }
    if |b| % 2 != 0 {
      return None;
    }
    var segs: Path := [];
    var rest := b;
    assert ParseRaw(b, wide).Some? ==> [] + ParseRaw(b, wide).value == ParseRaw(b, wide).value;
    while |rest| > 0
      invariant ParseRaw(b, wide) == After(segs, ParseRaw(rest, wide))
      decreases |rest|
    {
      if |rest| <= 2 {
        return None;
      }
      var kind, length := KindOf(rest[0]), rest[1];
      var size := 2 + Octets(length, wide);
      if size > |rest| || length == 0 || kind.None? {
        return None;
      }
      var seg := Segment(kind.value, GetData(rest[2..], length, wide));
      AfterOne(segs, seg, ParseRaw(rest[size..], wide));
      segs := segs + [seg];
      rest := rest[size..];
    }
    assert segs + [] == segs;
    var n := NormalisePath(segs);
    return Some(n);
  }
}
