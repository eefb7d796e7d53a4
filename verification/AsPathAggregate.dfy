/**
 Aggregation of AS paths (section 9.2.2.2 of RFC 4271): the common leading part in order,
 then a set of everything else; and the cached aggregate of a set of routes.
 */
module AsPathAggregate {
  import opened Basics
  import opened AsPath

  /** The number of equal leading members. */
  function Match(a: seq<Asn>, b: seq<Asn>): (m: nat)
    ensures m <= |a| && m <= |b| && a[..m] == b[..m]
    ensures m < |a| && m < |b| ==> a[m] != b[m]
  {
    if |a| == 0 || |b| == 0 || a[0] != b[0] then 0
    else
      var m := 1 + Match(a[1..], b[1..]);
      assert a[..m] == [a[0]] + a[1..][..m - 1] && b[..m] == [b[0]] + b[1..][..m - 1];
      m
  }

  /** The common part, and what is left of both: the first `matched` of each rest are in it. */
  datatype Leading = Leading(common: Path, rest1: Path, rest2: Path, matched: nat)

  function Part(s: Segment, m: nat): Path
    requires m <= |s.asns|
  {
    if m == 0 then [] else [Segment(s.kind, s.asns[..m])]
  }

  function LeadingPart(p: Path, q: Path): Leading {
    if |p| == 0 || |q| == 0 || p[0].kind != q[0].kind then Leading([], p, q, 0)
    else
      var m := Match(p[0].asns, q[0].asns);
      if m == |p[0].asns| == |q[0].asns| then
        var r := LeadingPart(p[1..], q[1..]);
        r.(common := Part(p[0], m) + r.common)
      else Leading(Part(p[0], m), p, q, m)
  }

  /** Adds members one by one unless already there. */
  function AddAll(set0: seq<Asn>, s: seq<Asn>): seq<Asn>
    decreases |s|
  {
    if |s| == 0 then set0 else AddAll(if s[0] in set0 then set0 else set0 + [s[0]], s[1..])
  }

  function Drop(s: seq<Asn>, n: nat): seq<Asn> { if n <= |s| then s[n..] else [] }

  function SetPart(others: seq<Asn>): Path {
    if others == [] then [] else [Segment(Set, others)]
  }

  function Others(l: Leading): seq<Asn> {
    AddAll(AddAll([], Drop(AllAsns(l.rest1), l.matched)), Drop(AllAsns(l.rest2), l.matched))
  }

  /** The aggregate before normalisation. */
  function Unsorted(p: Path, q: Path): Path {
    var l := LeadingPart(p, q);
    l.common + SetPart(Others(l))
  }

  function Aggregate(p: Path, q: Path): Path { Normalise(Unsorted(p, q)) }

  // ---- Members

  lemma {:induction false} AddAllMembers(set0: seq<Asn>, s: seq<Asn>)
    ensures Elems(AddAll(set0, s)) == Elems(set0) + Elems(s)
    decreases |s|
  {
    if |s| > 0 {
      var t := if s[0] in set0 then set0 else set0 + [s[0]];
      AddAllMembers(t, s[1..]);
      ElemsConcat(set0, [s[0]]);
      ElemsConcat([s[0]], s[1..]);
      assert s == [s[0]] + s[1..];
    }
  }

  /** Common part and rests together hold the members of each path. */
  lemma {:induction false} LeadingMembers(p: Path, q: Path)
    ensures
      var l := LeadingPart(p, q);
      && l.matched <= |AllAsns(l.rest1)| && l.matched <= |AllAsns(l.rest2)|
      && Members(p) == Members(l.common) + Elems(AllAsns(l.rest1)[l.matched..])
      && Members(q) == Members(l.common) + Elems(AllAsns(l.rest2)[l.matched..])
  {
    var l := LeadingPart(p, q);
    if |p| == 0 || |q| == 0 || p[0].kind != q[0].kind {
      AllAsnsMembers(p);
      AllAsnsMembers(q);
      assert AllAsns(p)[0..] == AllAsns(p) && AllAsns(q)[0..] == AllAsns(q);
    } else {
      var m := Match(p[0].asns, q[0].asns);
      if m == |p[0].asns| == |q[0].asns| {
        LeadingMembers(p[1..], q[1..]);
        PartMembers(p[0], m);
        MembersConcat(Part(p[0], m), LeadingPart(p[1..], q[1..]).common);
        assert p[0].asns[..m] == p[0].asns && q[0].asns[..m] == q[0].asns;
      } else {
        SplitMembers(p, m);
        SplitMembers(q, m);
        PartMembers(p[0], m);
      }
    }
  }

  lemma {:induction false} PartMembers(s: Segment, m: nat)
    requires m <= |s.asns|
    ensures Members(Part(s, m)) == Elems(s.asns[..m])
  {
    if m > 0 {
      assert Part(s, m)[1..] == [];
    }
  }

  lemma {:induction false} SplitMembers(p: Path, m: nat)
    requires |p| > 0 && m <= |p[0].asns|
    ensures m <= |AllAsns(p)| && Members(p) == Elems(p[0].asns[..m]) + Elems(AllAsns(p)[m..])
  {
    AllAsnsMembers(p);
    var all := AllAsns(p);
    assert all == all[..m] + all[m..] && all[..m] == p[0].asns[..m];
    ElemsConcat(all[..m], all[m..]);
  }

  /** An aggregate holds exactly the AS numbers of both paths, so that loops are still seen. */
  lemma {:induction false} AggregateMembers(p: Path, q: Path)
    ensures Members(Aggregate(p, q)) == Members(p) + Members(q)
  {
    var l := LeadingPart(p, q);
    LeadingMembers(p, q);
    var a, b := Drop(AllAsns(l.rest1), l.matched), Drop(AllAsns(l.rest2), l.matched);
    var others := AddAll(AddAll([], a), b);
    AddAllMembers([], a);
    AddAllMembers(AddAll([], a), b);
    var tail := SetPart(others);
    MembersConcat(l.common, tail);
    NormaliseCounts(l.common + tail);
    if others != [] {
      assert tail[1..] == [];
    }
    assert Members(tail) == Elems(others);
  }

  /** `aspath_loop_check`: how often an AS number occurs. */
  function LoopCheck(s: seq<Asn>, a: Asn): nat {
    if |s| == 0 then 0 else (if s[0] == a then 1 else 0) + LoopCheck(s[1..], a)
  }

  lemma {:induction false} LoopCheckIff(s: seq<Asn>, a: Asn)
    ensures LoopCheck(s, a) > 0 <==> a in Elems(s)
  {
    if |s| > 0 {
      LoopCheckIff(s[1..], a);
      assert s == [s[0]] + s[1..];
    }
  }

  /** It counts every occurrence once. */
  lemma {:induction false} LoopCheckCounts(s: seq<Asn>, a: Asn)
    ensures LoopCheck(s, a) == multiset(s)[a]
  {
    if |s| > 0 {
      LoopCheckCounts(s[1..], a);
      assert s == [s[0]] + s[1..];
    }
  }

  /** A router that would see itself in one of the paths sees itself in the aggregate. */
  lemma {:induction false} AggregateKeepsLoops(p: Path, q: Path, a: Asn)
    ensures LoopCheck(AllAsns(Aggregate(p, q)), a) > 0
       <==> LoopCheck(AllAsns(p), a) > 0 || LoopCheck(AllAsns(q), a) > 0
  {
    AggregateMembers(p, q);
    AllAsnsMembers(p);
    AllAsnsMembers(q);
    AllAsnsMembers(Aggregate(p, q));
    LoopCheckIff(AllAsns(p), a);
    LoopCheckIff(AllAsns(q), a);
    LoopCheckIff(AllAsns(Aggregate(p, q)), a);
  }

  // ---- Order

  /** The first `k` items are single hops. */
  ghost predicate LeadsWithHops(d: seq<Item>, k: nat) {
    k <= |d| && forall i | 0 <= i < k :: d[i].Hop?
  }

  /** Both begin with the same `k` hops. */
  ghost predicate CommonHops(d: seq<Item>, e: seq<Item>, k: nat) {
    LeadsWithHops(d, k) && k <= |e| && d[..k] == e[..k]
  }

  /** The first segment holds all of the leading hops. */
  predicate HeadSeparate(p: Path) {
    && (|p| > 0 ==> p[0].asns != [])
    && (|p| > 1 ==> p[1].asns != [] && !(p[0].kind == Sequence && p[1].kind == Sequence))
  }

  predicate HeadHops(p: Path, k: nat) {
    |p| > 0 && p[0].kind == Sequence && k <= |p[0].asns|
  }

  lemma {:induction false} LeadingHops(p: Path, k: nat)
    requires HeadSeparate(p) && k > 0
    ensures LeadsWithHops(Denote(p), k) <==> HeadHops(p, k)
    ensures HeadHops(p, k) ==> Denote(p)[..k] == Hops(p[0].asns[..k])
  {
    if |p| > 0 {
      var d, n := Denote(p), |p[0].asns|;
      assert d[0] == Items(p[0])[0];
      if p[0].kind == Sequence && k > n {
        SecondHead(p);
        assert k <= |d| ==> !d[n].Hop?;
      }
    }
  }

  lemma {:induction false} SecondHead(p: Path)
    requires HeadSeparate(p) && |p| > 0 && p[0].kind == Sequence
    ensures var d, n := Denote(p), |p[0].asns|; |d| > n ==> !d[n].Hop?
  {
    if |p| > 1 {
      assert p[1..][0] == p[1];
      assert Denote(p)[|p[0].asns|] == Denote(p[1..])[0] == Items(p[1])[0];
    }
  }

  lemma {:induction false} MatchIs(a: seq<Asn>, b: seq<Asn>, k: nat)
    requires k <= |a| && k <= |b|
    ensures a[..k] == b[..k] <==> k <= Match(a, b)
  {
    var m := Match(a, b);
    if k <= m {
      assert a[..k] == a[..m][..k] && b[..k] == b[..m][..k];
    } else {
      assert a[..k][m] == a[m] && b[..k][m] == b[m];
    }
  }

  lemma {:induction false} MatchExact(a: seq<Asn>, b: seq<Asn>, m: nat)
    requires m <= |a| && m <= |b| && a[..m] == b[..m]
    requires m < |a| && m < |b| ==> a[m] != b[m]
    ensures m == Match(a, b)
  {
    MatchIs(a, b, m);
    if m < Match(a, b) {
      MatchIs(a, b, m + 1);
    }
  }

  /** A common part starts like both paths, or is empty. */
  predicate StartsLike(c: Path, p: Path, q: Path) {
    if |c| == 0 then |p| > 0 && |q| > 0 && p[0].kind == q[0].kind ==> Match(p[0].asns, q[0].asns) == 0
    else
      && |p| > 0 && |q| > 0 && p[0].kind == q[0].kind == c[0].kind
      && Match(p[0].asns, q[0].asns) > 0 && c[0].asns == p[0].asns[..Match(p[0].asns, q[0].asns)]
      && (|c| > 1 ==> |p| > 1 && c[1].kind == p[1].kind && c[1].asns != [])
  }

  lemma {:induction false} StartOfCommon(p: Path, q: Path)
    requires Normal(p) && Normal(q)
    ensures StartsLike(LeadingPart(p, q).common, p, q)
  {
    if |p| > 0 && |q| > 0 && p[0].kind == q[0].kind {
      var m := Match(p[0].asns, q[0].asns);
      if m == |p[0].asns| == |q[0].asns| {
        SecondOfCommon(p[1..], q[1..]);
      }
    }
  }

  lemma {:induction false} StartOfAggregate(c: Path, others: seq<Asn>, p: Path, q: Path, k: nat)
    requires Normal(p) && Normal(q) && k > 0 && StartsLike(c, p, q)
    ensures
      var u := c + SetPart(others);
      && HeadSeparate(u)
      && (HeadHops(u, k) <==> HeadHops(p, k) && HeadHops(q, k) && k <= Match(p[0].asns, q[0].asns))
      && (HeadHops(u, k) ==> u[0].asns[..k] == p[0].asns[..k])
  {
    var u := c + SetPart(others);
    if |c| > 0 {
      assert u[0] == c[0];
    }
  }

  lemma {:induction false} SecondOfCommon(p: Path, q: Path)
    ensures
      var c := LeadingPart(p, q).common;
      |c| > 0 && NonEmpty(p) ==> c[0].asns != [] && c[0].kind == p[0].kind
  {
  }

  lemma {:induction false} HopsEqual(a: seq<Asn>, b: seq<Asn>)
    ensures Hops(a) == Hops(b) <==> a == b
  {
    if Hops(a) == Hops(b) {
      assert |a| == |b|;
      forall i | 0 <= i < |a| ensures a[i] == b[i] {
        assert Hops(a)[i] == Hops(b)[i];
      }
    }
  }

  lemma {:induction false} CommonIsMatch(p: Path, q: Path, k: nat)
    requires HeadSeparate(p) && HeadSeparate(q) && k > 0
    ensures CommonHops(Denote(p), Denote(q), k)
       <==> HeadHops(p, k) && HeadHops(q, k) && k <= Match(p[0].asns, q[0].asns)
  {
    LeadingHops(p, k);
    LeadingHops(q, k);
    if HeadHops(p, k) && HeadHops(q, k) {
      MatchIs(p[0].asns, q[0].asns, k);
      HopsEqual(p[0].asns[..k], q[0].asns[..k]);
    } else if CommonHops(Denote(p), Denote(q), k) {
      var d, e := Denote(p), Denote(q);
      forall i | 0 <= i < k ensures e[i].Hop? {
        assert e[i] == e[..k][i] == d[..k][i] == d[i];
      }
    }
  }

  /** The aggregate begins with exactly the hops that both paths begin with, in order. */
  lemma {:induction false} AggregateKeepsOrder(p: Path, q: Path, k: nat)
    requires Normal(p) && Normal(q) && k > 0
    ensures
      var d := Denote(Aggregate(p, q));
      && (LeadsWithHops(d, k) <==> CommonHops(Denote(p), Denote(q), k))
      && (LeadsWithHops(d, k) ==> d[..k] == Denote(p)[..k])
  {
    var u := Unsorted(p, q);
    NormaliseMeaning(u);
    StartOfCommon(p, q);
    var l := LeadingPart(p, q);
    StartOfAggregate(l.common, Others(l), p, q, k);
    LeadingHops(u, k);
    LeadingHops(p, k);
    CommonIsMatch(p, q, k);
  }

  /** Normal segments of different kinds or members differ in the items they stand for. */
  lemma {:induction false} ItemsDiffer(s: Segment, t: Segment)
    requires s.asns != [] && (IsSet(s.kind) ==> Ascending(s.asns))
    requires t.asns != [] && (IsSet(t.kind) ==> Ascending(t.asns))
    requires s.kind != t.kind || (s.kind != Sequence && s.asns != t.asns)
    ensures Items(s)[0] != Items(t)[0]
  {
    if s.kind == t.kind && IsSet(s.kind) && Elems(s.asns) == Elems(t.asns) {
      AscendingUnique(s.asns, t.asns);
    }
  }

  /** `d` and `e` begin with the same `k` items. */
  ghost predicate Share(d: seq<Item>, e: seq<Item>, k: nat) { k <= |d| && k <= |e| && d[..k] == e[..k] }

  lemma {:induction false} ShareAt(d: seq<Item>, e: seq<Item>, k: nat, i: nat)
    requires Share(d, e, k) && i < k
    ensures d[i] == e[i]
  {
    assert d[i] == d[..k][i] && e[i] == e[..k][i];
  }

  lemma {:induction false} ShareRest(a: seq<Item>, d: seq<Item>, e: seq<Item>, k: nat)
    ensures k >= |a| ==> (Share(a + d, a + e, k) <==> Share(d, e, k - |a|))
    ensures k < |a| ==> Share(a + d, a + e, k)
  {
    if k >= |a| {
      var n := k - |a|;
      if Share(a + d, a + e, k) {
        forall i | 0 <= i < n ensures d[i] == e[i] { ShareAt(a + d, a + e, k, |a| + i); }
      }
      if Share(d, e, n) {
        assert (a + d)[..k] == a + d[..n] && (a + e)[..k] == a + e[..n];
      }
    }
  }

  lemma {:induction false} NormalTail(p: Path)
    requires Normal(p) && |p| > 0
    ensures Normal(p[1..])
  {
  }

  /** What sequences of hops share ends where they differ, or where one of them does. */
  lemma {:induction false} ShareHops(p: Path, q: Path, k: nat)
    requires Normal(p) && Normal(q) && |p| > 0 && |q| > 0 && p[0].kind == q[0].kind == Sequence
    requires Share(Denote(p), Denote(q), k) && !(p[0].asns == q[0].asns)
    ensures k <= Match(p[0].asns, q[0].asns)
  {
    var m := Match(p[0].asns, q[0].asns);
    if k > m {
      ShareAt(Denote(p), Denote(q), k, m);
      SecondHead(p);
      SecondHead(q);
    }
  }

  /** Where the first segments are equal, the common part begins with them. */
  lemma {:induction false} EqualHeads(p: Path, q: Path)
    requires Normal(p) && |p| > 0 && |q| > 0 && p[0] == q[0]
    ensures
      var c, d := LeadingPart(p, q).common, LeadingPart(p[1..], q[1..]).common;
      Denote(c) == Items(p[0]) + Denote(d)
  {
    var s, d := p[0], LeadingPart(p[1..], q[1..]).common;
    MatchExact(s.asns, s.asns, |s.asns|);
    assert s.asns[..|s.asns|] == s.asns;
    assert Part(s, |s.asns|) == [s];
    assert ([s] + d)[1..] == d;
  }

  /** Where they differ, hops are shared one by one, and other segments not at all. */
  lemma {:induction false} DifferentHeads(p: Path, q: Path, k: nat)
    requires Normal(p) && Normal(q) && |p| > 0 && |q| > 0 && p[0] != q[0] && Share(Denote(p), Denote(q), k) && k > 0
    ensures Share(Denote(LeadingPart(p, q).common), Denote(p), k)
  {
    if p[0].kind == q[0].kind == Sequence {
      ShareHops(p, q, k);
      var m := Match(p[0].asns, q[0].asns);
      assert Part(p[0], m)[1..] == [];
      assert Denote(Part(p[0], m)) == Hops(p[0].asns[..m]);
    } else {
      ShareAt(Denote(p), Denote(q), k, 0);
      ItemsDiffer(p[0], q[0]);
      assert false;
    }
  }

  /** The common part says all that both paths begin with, whatever the kinds of their segments. */
  lemma {:induction false} CommonKept(p: Path, q: Path, k: nat)
    requires Normal(p) && Normal(q) && Share(Denote(p), Denote(q), k)
    ensures Share(Denote(LeadingPart(p, q).common), Denote(p), k)
  {
    if k > 0 {
      if p[0] == q[0] {
        assert Denote(p) == Items(p[0]) + Denote(p[1..]) && Denote(q) == Items(p[0]) + Denote(q[1..]);
        hide Share, LeadingPart, Normal, Denote, Items;
        var c, n := LeadingPart(p[1..], q[1..]).common, |Items(p[0])|;
        EqualHeads(p, q);
        ShareRest(Items(p[0]), Denote(p[1..]), Denote(q[1..]), k);
        ShareRest(Items(p[0]), Denote(c), Denote(p[1..]), k);
        if k >= n {
          NormalTail(p);
          NormalTail(q);
          CommonKept(p[1..], q[1..], k - n);
        }
      } else {
        DifferentHeads(p, q, k);
      }
    }
  }

  /** The aggregate begins with all that both paths begin with: hops, sets and confederation segments, in order. */
  lemma {:induction false} AggregateKeepsCommon(p: Path, q: Path, k: nat)
    requires Normal(p) && Normal(q) && Share(Denote(p), Denote(q), k)
    ensures Share(Denote(Aggregate(p, q)), Denote(p), k)
  {
    var l := LeadingPart(p, q);
    CommonKept(p, q, k);
    NormaliseMeaning(Unsorted(p, q));
    DenoteConcat(l.common, SetPart(Others(l)));
    var d := Denote(l.common);
    assert (d + Denote(SetPart(Others(l))))[..k] == d[..k];
  }

  /** The common part, and after it what is left of either path. */
  lemma {:induction false} LeadingSplits(p: Path, q: Path)
    ensures
      var l := LeadingPart(p, q);
      && l.matched <= |AllAsns(l.rest1)| && l.matched <= |AllAsns(l.rest2)|
      && AllAsns(p) == AllAsns(l.common) + AllAsns(l.rest1)[l.matched..]
      && AllAsns(q) == AllAsns(l.common) + AllAsns(l.rest2)[l.matched..]
  {
    var l := LeadingPart(p, q);
    if |p| > 0 && |q| > 0 && p[0].kind == q[0].kind {
      var m := Match(p[0].asns, q[0].asns);
      if m == |p[0].asns| == |q[0].asns| {
        var r := LeadingPart(p[1..], q[1..]);
        LeadingSplits(p[1..], q[1..]);
        PartAsns(p[0], m);
        AllAsnsConcat(Part(p[0], m), r.common);
        assert p[0].asns[..m] == p[0].asns && q[0].asns[..m] == q[0].asns;
        Regroup(p[0].asns, AllAsns(r.common), AllAsns(r.rest1)[r.matched..]);
        Regroup(q[0].asns, AllAsns(r.common), AllAsns(r.rest2)[r.matched..]);
      } else {
        PartAsns(p[0], m);
        assert AllAsns(p) == AllAsns(p)[..m] + AllAsns(p)[m..] && AllAsns(p)[..m] == p[0].asns[..m];
        assert AllAsns(q) == AllAsns(q)[..m] + AllAsns(q)[m..] && AllAsns(q)[..m] == q[0].asns[..m];
      }
    }
  }

  lemma {:induction false} PartAsns(s: Segment, m: nat)
    requires m <= |s.asns|
    ensures AllAsns(Part(s, m)) == s.asns[..m]
  {
    if m > 0 {
      assert Part(s, m)[1..] == [];
    }
  }

  /** Exactly what an aggregate says: the common part, and one set of the AS numbers after it in either path. */
  lemma {:induction false} AggregateIs(p: Path, q: Path)
    ensures
      var c := LeadingPart(p, q).common;
      var n := |AllAsns(c)|;
      && n <= |AllAsns(p)| && n <= |AllAsns(q)| && AllAsns(p)[..n] == AllAsns(c) == AllAsns(q)[..n]
      && var others := Elems(AllAsns(p)[n..]) + Elems(AllAsns(q)[n..]);
        Denote(Aggregate(p, q)) == Denote(c) + if others == {} then [] else [SetOf(others)]
  {
    var l := LeadingPart(p, q);
    LeadingSplits(p, q);
    OthersAre(l);
    SetPartMeaning(Others(l));
    NormaliseMeaning(Unsorted(p, q));
    DenoteConcat(l.common, SetPart(Others(l)));
    hide LeadingPart, Denote, Others, SetPart, Normalise;
  }

  lemma {:induction false} OthersAre(l: Leading)
    ensures Elems(Others(l)) == Elems(Drop(AllAsns(l.rest1), l.matched)) + Elems(Drop(AllAsns(l.rest2), l.matched))
  {
    hide AddAll, AllAsns;
    var a, b := Drop(AllAsns(l.rest1), l.matched), Drop(AllAsns(l.rest2), l.matched);
    AddAllMembers([], a);
    AddAllMembers(AddAll([], a), b);
  }

  lemma {:induction false} SetPartMeaning(others: seq<Asn>)
    ensures Denote(SetPart(others)) == if Elems(others) == {} then [] else [SetOf(Elems(others))]
  {
    if others != [] {
      assert others[0] in Elems(others);
      assert SetPart(others)[1..] == [];
    }
  }

  // ---- The code

  /** The first loop of aspath_aggregate. */
  method CommonLeading(p: Path, q: Path) returns (l: Leading)
    ensures l == LeadingPart(p, q)
  {
    var common: Path := [];
    var seg1, seg2 := p, q;
    while |seg1| > 0 && |seg2| > 0
      invariant LeadingPart(p, q) == Prefixed(common, LeadingPart(seg1, seg2))
      decreases |seg1|
    {
      if seg1[0].kind != seg2[0].kind {
        assert common + [] == common;
        return Leading(common, seg1, seg2, 0);
      }
      var match1 := CountMatch(seg1[0].asns, seg2[0].asns);
      var part := Part(seg1[0], match1);
      if match1 != |seg1[0].asns| || |seg1[0].asns| != |seg2[0].asns| {
        return Leading(common + part, seg1, seg2, match1);
      }
      PrefixedTwice(common, part, LeadingPart(seg1[1..], seg2[1..]));
      common := common + part;
      seg1, seg2 := seg1[1..], seg2[1..];
    }
    assert common + [] == common;
    return Leading(common, seg1, seg2, 0);
  }

  function Prefixed(c: Path, l: Leading): Leading { l.(common := c + l.common) }

  lemma {:induction false} PrefixedTwice(c: Path, d: Path, l: Leading)
    ensures Prefixed(c, Prefixed(d, l)) == Prefixed(c + d, l)
  {
    assert c + (d + l.common) == (c + d) + l.common;
  }

  method CountMatch(a: seq<Asn>, b: seq<Asn>) returns (m: nat)
    ensures m == Match(a, b)
  {
    m := 0;
    while m < |a| && m < |b|
      invariant m <= |a| && m <= |b| && a[..m] == b[..m]
    {
      if a[m] != b[m] {
        break;
      }
      m := m + 1;
    }
    MatchExact(a, b, m);
  }

  method AddToSet(set0: seq<Asn>, s: seq<Asn>) returns (r: seq<Asn>)
    ensures r == AddAll(set0, s)
  {
    r := set0;
    var i := 0;
    assert s[0..] == s;
    while i < |s|
      invariant i <= |s| && AddAll(set0, s) == AddAll(r, s[i..])
    {
      assert s[i..][1..] == s[i + 1..];
      if s[i] !in r {
        r := r + [s[i]];
      }
      i := i + 1;
    }
  }

  method AggregatePaths(p: Path, q: Path) returns (r: Path)
    ensures r == Aggregate(p, q)
  {
    var l := CommonLeading(p, q);
    var others := AddToSet([], Drop(AllAsns(l.rest1), l.matched));
    others := AddToSet(others, Drop(AllAsns(l.rest2), l.matched));
    r := NormalisePath(l.common + SetPart(others));
  }

  // ---- The cached aggregate

  ghost function AllMembers(paths: set<Path>): set<Asn> {
    set p, a | p in paths && a in Members(p) :: a
  }

  /** One reference more. */
  function With(refs: map<Path, nat>, p: Path): map<Path, nat> {
    refs[p := if p in refs then refs[p] + 1 else 1]
  }

  /** One reference less. */
  function Without(refs: map<Path, nat>, p: Path): map<Path, nat> {
    if p !in refs then refs else if refs[p] > 1 then refs[p := refs[p] - 1] else refs - {p}
  }

  /** The paths of the routes below an aggregate, with reference counts, and their aggregate. */
  class Cache {
    var refs: map<Path, nat>
    var aspath: Option<Path>

    ghost predicate Counted()
      reads this
    {
      forall p | p in refs :: refs[p] > 0
    }

    /** The cached path holds the AS numbers of all referenced paths and no others. */
    ghost predicate Current()
      reads this
    {
      && (aspath.Some? <==> refs.Keys != {})
      && (aspath.Some? ==> Members(aspath.value) == AllMembers(refs.Keys))
    }

    constructor ()
      ensures Counted() && Current() && refs == map[]
    {
      refs, aspath := map[], None;
    }

    /** Aggregates the referenced paths in whatever order the hash table yields them. */
    method Recompute()
      modifies this`aspath
      ensures Current()
    {
      aspath := None;
      var todo := refs.Keys;
      while todo != {}
        invariant todo <= refs.Keys
        invariant aspath.Some? <==> refs.Keys - todo != {}
        invariant aspath.Some? ==> Members(aspath.value) == AllMembers(refs.Keys - todo)
        decreases todo
      {
        var p :| p in todo;
        OneMore(refs.Keys - todo, p);
        assert (refs.Keys - todo) + {p} == refs.Keys - (todo - {p});
        if aspath.Some? {
          AggregateMembers(aspath.value, p);
          var a := AggregatePaths(aspath.value, p);
          aspath := Some(a);
        } else {
          aspath := Some(p);
        }
        todo := todo - {p};
      }
      assert refs.Keys - todo == refs.Keys;
    }

    /** `bgp_compute_aggregate_aspath_hash`. */
    method AddReference(p: Path)
      requires Counted()
      modifies this`refs
      ensures Counted() && refs == With(old(refs), p)
    {
      refs := refs[p := if p in refs then refs[p] + 1 else 1];
    }

    /** `bgp_compute_aggregate_aspath`. */
    method Add(p: Path)
      requires Counted()
      modifies this
      ensures Counted() && Current()
      ensures refs == With(old(refs), p)
    {
      AddReference(p);
      Recompute();
    }

    /** `bgp_remove_aspath_from_aggregate_hash`. */
    method RemoveReference(p: Path)
      requires Counted()
      modifies this`refs
      ensures Counted() && refs == Without(old(refs), p)
    {
      if p in refs {
        if refs[p] > 1 {
          refs := refs[p := refs[p] - 1];
        } else {
          refs := refs - {p};
        }
      }
    }

    /** `bgp_remove_aspath_from_aggregate`: recomputes only when the last reference goes. */
    method Remove(p: Path)
      requires Counted() && Current()
      modifies this
      ensures Counted() && Current()
      ensures refs == Without(old(refs), p)
    {
      var last := p in refs && refs[p] == 1;
      RemoveReference(p);
      if last {
        Recompute();
      } else {
        assert refs.Keys == old(refs.Keys);
      }
    }
  }

  /** Removing a reference undoes adding one. */
  lemma {:induction false} WithWithout(refs: map<Path, nat>, p: Path)
    requires forall x | x in refs :: refs[x] > 0
    ensures Without(With(refs, p), p) == refs
  {
    assert p !in refs ==> With(refs, p) - {p} == refs;
  }

  lemma {:induction false} OneMore(s: set<Path>, p: Path)
    ensures AllMembers(s + {p}) == AllMembers(s) + Members(p)
    ensures AllMembers({}) == {}
  {
  }
}
