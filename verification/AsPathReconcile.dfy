/**
 Reconciling the path an old, two-octet speaker forwards with the four-octet path carried
 beside it (section 4.2.3 of RFC 6793).
 */
module AsPathReconcile {
  import opened Basics
  import opened AsPath
  import opened AsPathWire

  function Min(x: int, y: int): int { if x <= y then x else y }
  function Max(x: int, y: int): int { if x <= y then y else x }

  /** What is copied of a segment when `hops` are wanted, and the hops then left. */
  function Copy(s: Segment, hops: int): (Segment, int)
    requires hops > 0
  {
    var n := |s.asns|;
    match s.kind
    case Set => (s, hops - 1)
    case ConfedSet => (s, hops - 1)
    case ConfedSequence => (s, Max(hops, n) - n)
    case Sequence => (Segment(Sequence, s.asns[..Min(n, hops)]), hops - n)
  }

  /** The first `hops` hops of a path; a confederation sequence is never cut. */
  function Take(p: Path, hops: int): Path {
    if |p| == 0 || hops <= 0 then []
    else [Copy(p[0], hops).0] + Take(p[1..], Copy(p[0], hops).1)
  }

  function HopsToTake(aspath: Path, as4path: Path): nat {
    var hops := CountHops(aspath) + CountConfeds(aspath) - CountHops(as4path);
    if hops < 0 then CountHops(aspath) else hops
  }

  function Reconcile(aspath: Path, as4path: Path): Path {
    var hops := HopsToTake(aspath, as4path);
    if hops == 0 then as4path else Normalise(Take(aspath, hops) + as4path)
  }

  // ---- What is taken, by meaning

  /** The hops an item counts for: a confederation sequence counts for all its members. */
  function Weight(i: Item): nat { if i.ConfedSeq? then |i.asns| else 1 }

  function Weights(items: seq<Item>): nat { if |items| == 0 then 0 else Weight(items[0]) + Weights(items[1..]) }

  /** The shortest beginning that weighs at least `hops`. */
  function TakeItems(items: seq<Item>, hops: int): seq<Item> {
    if |items| == 0 || hops <= 0 then [] else [items[0]] + TakeItems(items[1..], hops - Weight(items[0]))
  }

  lemma {:induction false} WeightsConcat(a: seq<Item>, b: seq<Item>)
    ensures Weights(a + b) == Weights(a) + Weights(b)
  {
    if |a| == 0 {
      assert a + b == b;
    } else {
      assert (a + b)[1..] == a[1..] + b;
      WeightsConcat(a[1..], b);
    }
  }

  lemma {:induction false} WeightsHops(s: seq<Asn>)
    ensures Weights(Hops(s)) == |s|
  {
    if |s| > 0 {
      assert Hops(s)[1..] == Hops(s[1..]);
      WeightsHops(s[1..]);
    }
  }

  /** A path weighs what aspath_count_hops and aspath_count_confeds count together. */
  lemma {:induction false} WeightCounts(p: Path)
    ensures Weights(Denote(p)) == CountHops(p) + CountConfeds(p)
  {
    if |p| > 0 {
      WeightCounts(p[1..]);
      WeightsConcat(Items(p[0]), Denote(p[1..]));
      if p[0].kind == Sequence {
        WeightsHops(p[0].asns);
      } else {
        assert Items(p[0])[1..] == [];
      }
    }
  }

  lemma {:induction false} TakeHops(s: seq<Asn>, rest: seq<Item>, hops: nat)
    ensures TakeItems(Hops(s) + rest, hops)
         == if hops <= |s| then Hops(s[..hops]) else Hops(s) + TakeItems(rest, hops - |s|)
  {
    hide Hops;
    if |s| == 0 {
      assert Hops(s) + rest == rest && s[..0] == [];
    } else if hops == 0 {
      assert s[..0] == [];
    } else {
      var t := s[1..];
      HopsFirst(s);
      assert (Hops(s) + rest)[0] == Hop(s[0]) && (Hops(s) + rest)[1..] == Hops(t) + rest;
      TakeHops(t, rest, hops - 1);
      if hops <= |s| {
        HopsFirst(s[..hops]);
        assert s[..hops][1..] == t[..hops - 1];
      }
    }
  }

  lemma {:induction false} HopsFirst(s: seq<Asn>)
    requires |s| > 0
    ensures Hops(s) == [Hop(s[0])] + Hops(s[1..])
  {
  }

  /** Copying a segment takes its items, and cuts sequences only. */
  lemma {:induction false} CopyMeaning(s: Segment, rest: seq<Item>, hops: nat)
    requires hops > 0 && s.asns != []
    ensures
      var (c, left) := Copy(s, hops);
      c.asns != [] && TakeItems(Items(s) + rest, hops) == Items(c) + TakeItems(rest, left)
  {
    var (c, left) := Copy(s, hops);
    if s.kind == Sequence {
      TakeHops(s.asns, rest, hops);
      assert s.asns[..|s.asns|] == s.asns;
    } else {
      assert (Items(s) + rest)[1..] == rest;
      assert [Items(s)[0]] == Items(s);
    }
  }

  /** Taking hops of a path takes the shortest beginning of its meaning that weighs as much. */
  lemma {:induction false} TakeMeaning(p: Path, hops: int)
    requires NonEmpty(p)
    ensures Denote(Take(p, hops)) == TakeItems(Denote(p), hops) && NonEmpty(Take(p, hops))
  {
    if |p| > 0 && hops > 0 {
      var (c, left) := Copy(p[0], hops);
      CopyMeaning(p[0], Denote(p[1..]), hops);
      TakeMeaning(p[1..], left);
      PrependedMeaning(c, Take(p[1..], left));
    }
  }

  /** Every item weighs something. */
  predicate AllWeigh(items: seq<Item>) { forall i | i in items :: Weight(i) > 0 }

  lemma {:induction false} PathWeighs(p: Path)
    requires NonEmpty(p)
    ensures AllWeigh(Denote(p))
  {
    if |p| > 0 {
      PathWeighs(p[1..]);
    }
  }

  /** Beyond a beginning `a`, as much is taken of the rest as goes beyond its weight. */
  lemma {:induction false} TakeBeyond(a: seq<Item>, b: seq<Item>, more: nat)
    requires AllWeigh(a)
    ensures TakeItems(a + b, Weights(a) + more) == a + TakeItems(b, more)
  {
    if |a| == 0 {
      assert a + b == b;
    } else {
      assert a[0] in a && (a + b)[1..] == a[1..] + b;
      TakeBeyond(a[1..], b, more);
    }
  }

  /** What reconciliation means: the beginning of AS_PATH that weighs as much as it has more, before AS4_PATH. */
  lemma {:induction false} ReconcileMeaning(aspath: Path, as4path: Path)
    requires NonEmpty(aspath)
    ensures
      Denote(Reconcile(aspath, as4path))
      == TakeItems(Denote(aspath), HopsToTake(aspath, as4path)) + Denote(as4path)
  {
    var hops := HopsToTake(aspath, as4path);
    TakeMeaning(aspath, hops);
    DenoteConcat(Take(aspath, hops), as4path);
    NormaliseMeaning(Take(aspath, hops) + as4path);
    assert [] + Denote(as4path) == Denote(as4path);
  }

  // ---- The round trip through an old speaker

  /** No confederation segments. */
  predicate Plain(p: Path) {
    forall i | 0 <= i < |p| :: p[i].kind == Sequence || p[i].kind == Set
  }

  lemma {:induction false} PlainIff(p: Path)
    requires NonEmpty(p)
    ensures Plain(p) <==> CountConfeds(p) == 0
  {
    if |p| > 0 {
      PlainIff(p[1..]);
      assert Plain(p) <==> (p[0].kind == Sequence || p[0].kind == Set) && Plain(p[1..]);
    }
  }

  lemma {:induction false} SeenWeights(items: seq<Item>)
    ensures Weights(SeenItems(items)) == Weights(items)
  {
    if |items| > 0 {
      assert SeenItems(items)[1..] == SeenItems(items[1..]);
      SeenWeights(items[1..]);
    }
  }

  /** What the old speaker sends weighs more than AS4_PATH by what it put before it, and by confederations in that. */
  lemma {:induction false} ExcessWeight(p: Path, q: Path)
    requires NonEmpty(p) && NonEmpty(q)
    ensures
      var a := Normalise(q + SeenPath(p, false));
      && NonEmpty(a) && Denote(a) == Denote(q) + SeenItems(Denote(p))
      && HopsToTake(a, p) == Weights(Denote(q)) + CountConfeds(p)
  {
    var sent := q + SeenPath(p, false);
    var a := Normalise(sent);
    SeenNonEmpty(p);
    NormaliseNonEmpty(sent);
    NormaliseMeaning(sent);
    DenoteConcat(q, SeenPath(p, false));
    SeenMeaning(p);
    WeightCounts(a);
    WeightCounts(p);
    WeightsConcat(Denote(q), SeenItems(Denote(p)));
    SeenWeights(Denote(p));
  }

  /**
   The AS4 round trip, with confederations: an old speaker put `q` before the two-octet view of `p`; reconciling what it
   sent with `p` gives the normal form of `q` before `p`, if and only if `p` itself has no confederation segments.
   */
  lemma {:induction false} As4RoundTrip(p: Path, q: Path)
    requires Normal(p) && NonEmpty(q)
    ensures Reconcile(Normalise(q + SeenPath(p, false)), p) == Normalise(q + p) <==> Plain(p)
  {
    hide Reconcile, Denote, Normalise, HopsToTake, TakeItems, Weights, AllWeigh, SeenItems, Plain;
    var a := Normalise(q + SeenPath(p, false));
    As4Meaning(p, q);
    PlainIff(p);
    DenoteConcat(q, p);
    NormaliseMeaning(q + p);
    ExcessWeight(p, q);
    ReconcileNormal(a, p);
    if Plain(p) {
      assert NonEmpty(q + p);
      SameNormal(Reconcile(a, p), q + p);
    }
  }

  /** What comes out means `q` and `p`, with part of `p` in between if that has confederations. */
  lemma {:induction false} As4Meaning(p: Path, q: Path)
    requires NonEmpty(p) && NonEmpty(q)
    ensures
      var d := Denote(Reconcile(Normalise(q + SeenPath(p, false)), p));
      if CountConfeds(p) == 0 then d == Denote(q) + Denote(p) else |d| > |Denote(q)| + |Denote(p)|
  {
    hide Reconcile, Denote, Normalise, HopsToTake, Weights, AllWeigh;
    var a, more := Normalise(q + SeenPath(p, false)), TakeItems(SeenItems(Denote(p)), CountConfeds(p));
    ExcessWeight(p, q);
    ReconcileMeaning(a, p);
    PathWeighs(q);
    TakeBeyond(Denote(q), SeenItems(Denote(p)), CountConfeds(p));
    if CountConfeds(p) == 0 {
      assert more == [] && Denote(q) + [] == Denote(q);
    } else {
      HasHops(p);
      assert |more| > 0;
    }
  }

  lemma {:induction false} ReconcileNormal(a: Path, p: Path)
    requires Normal(p) && NonEmpty(a)
    ensures Normal(Reconcile(a, p))
  {
    var hops := HopsToTake(a, p);
    TakeMeaning(a, hops);
    var all := Take(a, hops) + p;
    assert NonEmpty(all);
    NormaliseNonEmpty(all);
    NormaliseIdempotent(all);
    NormalIffFixed(Normalise(all));
  }

  /** A normal path is the normal form of whatever means the same. */
  lemma {:induction false} SameNormal(r: Path, s: Path)
    requires Normal(r) && NonEmpty(s) && Denote(r) == Denote(s)
    ensures r == Normalise(s)
  {
    NormalFixed(r);
    CanonicalForm(r, s);
  }

  lemma {:induction false} HasHops(q: Path)
    requires q != [] && NonEmpty(q)
    ensures |Denote(q)| > 0
  {
  }

  // ---- Fewer hops than AS4_PATH

  /** Everything is taken exactly if all but the last item weigh less than asked. */
  lemma {:induction false} TakeAllIff(items: seq<Item>, hops: int)
    ensures TakeItems(items, hops) == items <==> items == [] || Weights(items[..|items| - 1]) < hops
  {
    if |items| > 0 && hops > 0 {
      TakeAllIff(items[1..], hops - Weight(items[0]));
      if |items| == 1 {
        assert items[..0] == [];
      } else {
        assert items[..|items| - 1][1..] == items[1..][..|items[1..]| - 1];
      }
      assert [items[0]] + TakeItems(items[1..], hops - Weight(items[0])) == items
         <==> TakeItems(items[1..], hops - Weight(items[0])) == items[1..];
    }
  }

  /**
   An AS_PATH with fewer hops than AS4_PATH is to be kept whole, for the sake of loop detection. It is, if and only if
   all but its last item weigh less than its hops without confederations.
   */
  lemma {:induction false} FewerHopsIff(aspath: Path, as4path: Path)
    requires NonEmpty(aspath) && CountHops(aspath) + CountConfeds(aspath) < CountHops(as4path)
    ensures
      var items := Denote(aspath);
      Denote(Reconcile(aspath, as4path)) == items + Denote(as4path)
      <==> items == [] || Weights(items[..|items| - 1]) < CountHops(aspath)
  {
    var items, taken := Denote(aspath), TakeItems(Denote(aspath), CountHops(aspath));
    ReconcileMeaning(aspath, as4path);
    TakeAllIff(items, CountHops(aspath));
    assert taken + Denote(as4path) == items + Denote(as4path) ==> taken == items by {
      if taken + Denote(as4path) == items + Denote(as4path) {
        assert |taken| == |items|;
        assert (taken + Denote(as4path))[..|taken|] == taken && (items + Denote(as4path))[..|items|] == items;
      }
    }
  }

  /** So it is without confederations: no AS number of either path is lost. */
  lemma {:induction false} FewerHopsMembers(aspath: Path, as4path: Path)
    requires NonEmpty(aspath) && Plain(aspath) && CountHops(aspath) < CountHops(as4path)
    ensures Members(Reconcile(aspath, as4path)) == Members(aspath) + Members(as4path)
  {
    PlainIff(aspath);
    WeightCounts(aspath);
    PathWeighs(aspath);
    var items := Denote(aspath);
    if items != [] {
      var n := |items| - 1;
      WeightsConcat(items[..n], [items[n]]);
      assert items == items[..n] + [items[n]] && [items[n]][1..] == [];
      assert items[n] in items;
    }
    FewerHopsIff(aspath, as4path);
    CountsFromMeaning(Reconcile(aspath, as4path));
    CountsFromMeaning(aspath + as4path);
    DenoteConcat(aspath, as4path);
    MembersConcat(aspath, as4path);
  }

  /** With a confederation sequence, a hop of AS_PATH gets lost. */
  lemma {:induction false} FewerHopsLoses()
    ensures
      var aspath := [Segment(ConfedSequence, [1, 2]), Segment(Sequence, [3])];
      3 in Members(aspath) && 3 !in Members(Reconcile(aspath, [Segment(Sequence, [4, 5, 6, 7])]))
  {
    var s, t := Segment(ConfedSequence, [1, 2]), Segment(Sequence, [3]);
    var aspath, as4path := [s, t], [Segment(Sequence, [4, 5, 6, 7])];
    assert aspath[1..] == [t] && [t][1..] == [] && as4path[1..] == [];
    assert CountHops([t]) == 1 && CountConfeds([t]) == 0;
    assert HopsToTake(aspath, as4path) == 1;
    assert Copy(s, 1) == (s, 0);
    assert Take(aspath, 1) == [s];
    NormaliseCounts([s] + as4path);
    MembersConcat([s], as4path);
    assert [s][1..] == [];
    assert Members([t]) == Elems([3]);
  }

  lemma {:induction false} SameBefore(a: Path, b: Path, p: Path)
    requires NonEmpty(a) && NonEmpty(b) && NonEmpty(p) && Denote(a) == Denote(b)
    ensures Normalise(a + p) == Normalise(b + p)
  {
    DenoteConcat(a, p);
    DenoteConcat(b, p);
    CanonicalForm(a + p, b + p);
  }

  /**
   The same on the wire: `p` goes out as AS4_PATH, the old speaker's path `r` as AS_PATH,
   and the receiver recovers `q` before `p`.
   */
  lemma {:induction false} As4OverTheWire(p: Path, q: Path, r: Path)
    requires Normal(p) && NonEmpty(q) && Plain(p) && ShortSets(p)
    requires Normal(r) && ShortSets(r) && Denote(r) == Denote(q + SeenPath(p, false))
    requires forall a | a in Members(q) :: a <= AS_MAX
    ensures
      var aspath, as4path := Parse(Wire(r, false), false), Parse(Wire(p, true), true);
      aspath.Some? && as4path.Some? && Reconcile(aspath.value, as4path.value) == Normalise(q + p)
  {
    NormalRoundTrip(p);
    NormalAtMostPairs(r);
    NarrowRoundTrip(r);
    SeenNonEmpty(p);
    SeenNonEmpty(r);
    var sent := q + SeenPath(p, false);
    DenoteConcat(q, SeenPath(p, false));
    SeenMeaning(r);
    SeenMeaning(p);
    SeenMeaning(q);
    NarrowUnchanged(q);
    SeenTwice(Denote(p));
    SeenItemsConcat(Denote(q), SeenItems(Denote(p)));
    CanonicalForm(SeenPath(r, false), sent);
    As4RoundTrip(p, q);
  }

  lemma {:induction false} NarrowUnchanged(q: Path)
    requires forall a | a in Members(q) :: a <= AS_MAX
    ensures SeenPath(q, false) == q
  {
    if |q| > 0 {
      assert Members(q) == Elems(q[0].asns) + Members(q[1..]);
      assert forall i | 0 <= i < |q[0].asns| :: q[0].asns[i] in Elems(q[0].asns);
      assert SeenAll(q[0].asns, false) == q[0].asns;
      NarrowUnchanged(q[1..]);
      assert q == [q[0]] + q[1..];
    }
  }

  lemma {:induction false} SeenTwice(items: seq<Item>)
    ensures SeenItems(SeenItems(items)) == SeenItems(items)
  {
    forall i | 0 <= i < |items| ensures SeenItem(SeenItem(items[i])) == SeenItem(items[i]) {
      if items[i].SetOf? || items[i].ConfedSetOf? {
        SeenSetTwice(items[i].members);
      } else if items[i].ConfedSeq? {
        assert SeenAll(SeenAll(items[i].asns, false), false) == SeenAll(items[i].asns, false);
      }
    }
  }

  lemma {:induction false} SeenSetTwice(s: set<Asn>)
    ensures SeenSet(SeenSet(s)) == SeenSet(s)
  {
    forall x ensures x in SeenSet(SeenSet(s)) <==> x in SeenSet(s) {
      if x in SeenSet(s) {
        assert Seen(x, false) == x;
      }
    }
  }

  // ---- The code

  /** The switch on the segment type. */
  method CopySegment(seg: Segment, wanted: int) returns (copy: Segment, hops: int)
    requires wanted > 0
    ensures (copy, hops) == Copy(seg, wanted)
  {
    var cpasns := |seg.asns|;
    hops := wanted;
    match seg.kind {
      case Set => hops := hops - 1;
      case ConfedSet => hops := hops - 1;
      case ConfedSequence =>
        if hops < |seg.asns| {
          hops := |seg.asns|;
        }
        hops := hops - |seg.asns|;
      case Sequence =>
        cpasns := Min(|seg.asns|, hops);
        hops := hops - |seg.asns|;
    }
    assert seg.asns[..|seg.asns|] == seg.asns;
    copy := Segment(seg.kind, seg.asns[..cpasns]);
  }

  /** Copies segments until the hops are used up, merges and normalises. */
  method ReconcileAs4(aspath: Path, as4path: Path) returns (r: Path)
    ensures r == Reconcile(aspath, as4path)
  {
    var total := HopsToTake(aspath, as4path);
    if total == 0 {
      return as4path;
    }
    var newpath: Path := [];
    var rest, hops: int := aspath, total;
    while |rest| > 0 && hops > 0
      invariant Take(aspath, total) == newpath + Take(rest, hops)
      decreases |rest|
    {
      var copy, left := CopySegment(rest[0], hops);
      Regroup(newpath, [copy], Take(rest[1..], left));
      newpath := newpath + [copy];
      rest, hops := rest[1..], left;
    }
    assert newpath + [] == newpath;
    r := NormalisePath(newpath + as4path);
  }
}
