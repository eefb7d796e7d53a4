/**
 AS paths as bgpd holds them: lists of segments, their normal form, and what they mean.
 */
module AsPath {

  import opened Basics

  type Asn = u32

  datatype Kind = Set | Sequence | ConfedSequence | ConfedSet

  datatype Segment = Segment(kind: Kind, asns: seq<Asn>)

  type Path = seq<Segment>

  predicate IsSet(k: Kind) { k == Set || k == ConfedSet }

  predicate NonEmpty(p: Path) { forall i | 0 <= i < |p| :: p[i].asns != [] }

  ghost function Elems(s: seq<Asn>): set<Asn> { set x | x in s }

  lemma {:induction false} ElemsConcat(a: seq<Asn>, b: seq<Asn>)
    ensures Elems(a + b) == Elems(a) + Elems(b)
  {
  }

  // ---- Meaning

  /** What a path says: single hops, unordered sets, and confederation parts. */
  datatype Item = Hop(asn: Asn) | SetOf(members: set<Asn>) | ConfedSeq(asns: seq<Asn>) | ConfedSetOf(members: set<Asn>)

  function Hops(s: seq<Asn>): (h: seq<Item>)
    ensures |h| == |s| && forall i | 0 <= i < |s| :: h[i] == Hop(s[i])
  {
    seq(|s|, i requires 0 <= i < |s| => Hop(s[i]))
  }

  ghost function Items(s: Segment): seq<Item> {
    match s.kind
    case Sequence => Hops(s.asns)
    case Set => [SetOf(Elems(s.asns))]
    case ConfedSequence => [ConfedSeq(s.asns)]
    case ConfedSet => [ConfedSetOf(Elems(s.asns))]
  }

  ghost function Denote(p: Path): seq<Item> {
    if |p| == 0 then [] else Items(p[0]) + Denote(p[1..])
  }

  // ---- Sets in canonical order

  predicate Ascending(s: seq<Asn>) {
    forall i, j | 0 <= i < j < |s| :: s[i] < s[j]
  }

  function Insert(x: Asn, s: seq<Asn>): seq<Asn> {
    if |s| == 0 then [x]
    else if x < s[0] then [x] + s
    else if x == s[0] then s
    else [s[0]] + Insert(x, s[1..])
  }

  /** Sorted and without duplicates. */
  function Canon(s: seq<Asn>): seq<Asn> {
    if |s| == 0 then [] else Insert(s[0], Canon(s[1..]))
  }

  lemma {:induction false} InsertElems(x: Asn, s: seq<Asn>)
    ensures Elems(Insert(x, s)) == Elems(s) + {x} && Insert(x, s) != []
  {
    if |s| > 0 && x > s[0] {
      InsertElems(x, s[1..]);
      assert s == [s[0]] + s[1..];
      ElemsConcat([s[0]], s[1..]);
      ElemsConcat([s[0]], Insert(x, s[1..]));
    }
  }

  lemma {:induction false} InsertOk(x: Asn, s: seq<Asn>)
    requires Ascending(s)
    ensures Ascending(Insert(x, s)) && Elems(Insert(x, s)) == Elems(s) + {x} && Insert(x, s) != []
  {
    InsertElems(x, s);
    if |s| > 0 && x > s[0] {
      InsertOk(x, s[1..]);
      var t := Insert(x, s[1..]);
      hide Insert;
      forall j | 0 <= j < |t| ensures s[0] < t[j] {
        assert t[j] in Elems(t);
      }
      assert Ascending([s[0]] + t);
    }
  }

  lemma {:induction false} CanonOk(s: seq<Asn>)
    ensures Ascending(Canon(s)) && Elems(Canon(s)) == Elems(s) && (s != [] ==> Canon(s) != [])
  {
    if |s| > 0 {
      CanonOk(s[1..]);
      InsertOk(s[0], Canon(s[1..]));
      assert s == [s[0]] + s[1..];
    }
  }

  /** An ascending list is determined by its members. */
  lemma {:induction false} AscendingUnique(a: seq<Asn>, b: seq<Asn>)
    requires Ascending(a) && Ascending(b) && Elems(a) == Elems(b)
    ensures a == b
  {
    EmptyElems(a);
    EmptyElems(b);
    if |a| > 0 {
      assert a[0] in Elems(b) && b[0] in Elems(a);
      assert a[0] == b[0];
      TailElems(a);
      TailElems(b);
      AscendingUnique(a[1..], b[1..]);
      assert a == [a[0]] + a[1..] && b == [b[0]] + b[1..];
    }
  }

  lemma {:induction false} EmptyElems(a: seq<Asn>)
    ensures Elems(a) == {} <==> a == []
  {
    if a != [] {
      assert a[0] in Elems(a);
    }
  }

  lemma {:induction false} TailElems(a: seq<Asn>)
    requires Ascending(a) && |a| > 0
    ensures Elems(a[1..]) == Elems(a) - {a[0]} && Ascending(a[1..])
  {
    assert a == [a[0]] + a[1..];
  }

  /** The ascending list of a finite set. */
  ghost function InOrder(s: set<Asn>): (q: seq<Asn>)
    ensures Ascending(q) && Elems(q) == s
  {
    if s == {} then []
    else
      var x :| x in s;
      InsertOk(x, InOrder(s - {x}));
      Insert(x, InOrder(s - {x}))
  }

  lemma {:induction false} CanonInOrder(s: seq<Asn>)
    ensures Canon(s) == InOrder(Elems(s))
  {
    CanonOk(s);
    AscendingUnique(Canon(s), InOrder(Elems(s)));
  }

  // ---- Normal form

  function NormalSegment(s: Segment): Segment {
    if IsSet(s.kind) then s.(asns := Canon(s.asns)) else s
  }

  /** Puts a segment before a path, merging neighbouring sequences. */
  function Prepend(s: Segment, p: Path): Path {
    if s.kind == Sequence && |p| > 0 && p[0].kind == Sequence
    then [Segment(Sequence, s.asns + p[0].asns)] + p[1..]
    else [s] + p
  }

  function Normalise(p: Path): Path {
    if |p| == 0 then [] else Prepend(NormalSegment(p[0]), Normalise(p[1..]))
  }

  /** Rebuilds a path from its meaning. */
  ghost function Rebuild(items: seq<Item>): Path {
    if |items| == 0 then []
    else
      var rest := Rebuild(items[1..]);
      match items[0]
      case Hop(a) => Prepend(Segment(Sequence, [a]), rest)
      case SetOf(m) => Prepend(Segment(Set, InOrder(m)), rest)
      case ConfedSeq(s) => Prepend(Segment(ConfedSequence, s), rest)
      case ConfedSetOf(m) => Prepend(Segment(ConfedSet, InOrder(m)), rest)
  }

  lemma {:induction false} RebuildHops(s: seq<Asn>, items: seq<Item>)
    requires s != []
    ensures Rebuild(Hops(s) + items) == Prepend(Segment(Sequence, s), Rebuild(items))
  {
    var all := Hops(s) + items;
    assert all[1..] == Hops(s[1..]) + items;
    if |s| == 1 {
      assert all[1..] == items && [s[0]] == s;
    } else {
      RebuildHops(s[1..], items);
      assert [s[0]] + s[1..] == s;
      var rest := Rebuild(items);
      if rest != [] && rest[0].kind == Sequence {
        assert [s[0]] + (s[1..] + rest[0].asns) == s + rest[0].asns;
      }
    }
  }

  /** The normal form is rebuilt from the meaning alone. */
  lemma {:induction false} NormaliseRebuilds(p: Path)
    requires NonEmpty(p)
    ensures Normalise(p) == Rebuild(Denote(p))
  {
    if |p| > 0 {
      NormaliseRebuilds(p[1..]);
      if p[0].kind == Sequence {
        RebuildHops(p[0].asns, Denote(p[1..]));
      } else {
        CanonInOrder(p[0].asns);
        assert Denote(p)[1..] == Denote(p[1..]);
      }
    }
  }

  lemma {:induction false} DenoteConcat(p: Path, q: Path)
    ensures Denote(p + q) == Denote(p) + Denote(q)
  {
    if |p| == 0 {
      assert p + q == q;
    } else {
      assert (p + q)[1..] == p[1..] + q;
      DenoteConcat(p[1..], q);
    }
  }

  lemma {:induction false} DenotePrepend(s: Segment, p: Path)
    ensures Denote(Prepend(s, p)) == Items(s) + Denote(p)
  {
    if s.kind == Sequence && |p| > 0 && p[0].kind == Sequence {
      assert Prepend(s, p)[1..] == p[1..];
      assert Hops(s.asns + p[0].asns) == Hops(s.asns) + Hops(p[0].asns);
    } else {
      assert Prepend(s, p)[1..] == p;
    }
  }

  /** Normalising keeps the meaning. */
  lemma {:induction false} NormaliseMeaning(p: Path)
    ensures Denote(Normalise(p)) == Denote(p)
  {
    if |p| > 0 {
      NormaliseMeaning(p[1..]);
      CanonOk(p[0].asns);
      DenotePrepend(NormalSegment(p[0]), Normalise(p[1..]));
    }
  }

  lemma {:induction false} NormaliseNonEmpty(p: Path)
    requires NonEmpty(p)
    ensures NonEmpty(Normalise(p))
  {
    if |p| > 0 {
      CanonOk(p[0].asns);
      NormaliseNonEmpty(p[1..]);
    }
  }

  /** Two paths have the same normal form exactly when they mean the same. */
  lemma {:induction false} CanonicalForm(p: Path, q: Path)
    requires NonEmpty(p) && NonEmpty(q)
    ensures Normalise(p) == Normalise(q) <==> Denote(p) == Denote(q)
  {
    NormaliseRebuilds(p);
    NormaliseRebuilds(q);
    NormaliseMeaning(p);
    NormaliseMeaning(q);
  }

  lemma {:induction false} NormaliseIdempotent(p: Path)
    requires NonEmpty(p)
    ensures Normalise(Normalise(p)) == Normalise(p)
  {
    NormaliseNonEmpty(p);
    NormaliseMeaning(p);
    CanonicalForm(Normalise(p), p);
  }

  /** With an empty segment the normal form is not determined by the meaning. */
  lemma {:induction false} EmptySegmentNotCanonical()
    ensures Denote([Segment(Sequence, [])]) == Denote([])
    ensures Normalise([Segment(Sequence, [])]) != Normalise([])
  {
  }

  /** Normal: no empty segment, sets ascending, sequences merged. */
  predicate Normal(p: Path) {
    && NonEmpty(p)
    && (forall i | 0 <= i < |p| && IsSet(p[i].kind) :: Ascending(p[i].asns))
    && (forall i | 0 <= i < |p| - 1 :: !(p[i].kind == Sequence && p[i + 1].kind == Sequence))
  }

  /** The normal paths are exactly the fixed points of normalisation. */
  lemma {:induction false} NormalIffFixed(p: Path)
    requires NonEmpty(p)
    ensures Normal(p) <==> Normalise(p) == p
  {
    if Normal(p) {
      NormalFixed(p);
    }
    if Normalise(p) == p {
      NormaliseNormal(p);
    }
  }

  lemma {:induction false} NormalFixed(p: Path)
    requires Normal(p)
    ensures Normalise(p) == p
  {
    if |p| > 0 {
      assert Normal(p[1..]);
      NormalFixed(p[1..]);
      if IsSet(p[0].kind) {
        CanonOk(p[0].asns);
        AscendingUnique(Canon(p[0].asns), p[0].asns);
      }
      assert |p| > 1 ==> p[1..][0] == p[1];
      assert p == [p[0]] + p[1..];
    }
  }

  lemma {:induction false} NormaliseNormal(p: Path)
    requires NonEmpty(p)
    ensures Normal(Normalise(p))
  {
    if |p| > 0 {
      NormaliseNormal(p[1..]);
      CanonOk(p[0].asns);
      PrependNormal(NormalSegment(p[0]), Normalise(p[1..]));
    }
  }

  lemma {:induction false} PrependNormal(s: Segment, p: Path)
    requires s.asns != [] && (IsSet(s.kind) ==> Ascending(s.asns)) && Normal(p)
    ensures Normal(Prepend(s, p))
  {
    var q := Prepend(s, p);
    if s.kind == Sequence && |p| > 0 && p[0].kind == Sequence {
      assert forall i | 0 < i < |q| :: q[i] == p[i];
    } else {
      assert forall i | 0 < i < |q| :: q[i] == p[i - 1];
    }
  }

  // ---- Hops and members

  /** `aspath_count_hops`: one per sequence member, one per set, none for confederations. */
  function CountHops(p: Path): nat {
    if |p| == 0 then 0
    else (match p[0].kind
          case Sequence => |p[0].asns|
          case Set => 1
          case ConfedSequence => 0
          case ConfedSet => 0) + CountHops(p[1..])
  }

  function CountConfeds(p: Path): nat {
    if |p| == 0 then 0
    else (match p[0].kind
          case Sequence => 0
          case Set => 0
          case ConfedSequence => |p[0].asns|
          case ConfedSet => 1) + CountConfeds(p[1..])
  }

  ghost function Members(p: Path): set<Asn> {
    if |p| == 0 then {} else Elems(p[0].asns) + Members(p[1..])
  }

  ghost function ItemHops(items: seq<Item>): nat {
    if |items| == 0 then 0 else (if items[0].Hop? || items[0].SetOf? then 1 else 0) + ItemHops(items[1..])
  }

  ghost function ItemMembers(items: seq<Item>): set<Asn> {
    if |items| == 0 then {}
    else (match items[0]
          case Hop(a) => {a}
          case SetOf(m) => m
          case ConfedSeq(s) => Elems(s)
          case ConfedSetOf(m) => m) + ItemMembers(items[1..])
  }

  lemma {:induction false} ItemsConcat(a: seq<Item>, b: seq<Item>)
    ensures ItemHops(a + b) == ItemHops(a) + ItemHops(b)
    ensures ItemMembers(a + b) == ItemMembers(a) + ItemMembers(b)
  {
    if |a| == 0 {
      assert a + b == b;
    } else {
      assert (a + b)[1..] == a[1..] + b;
      ItemsConcat(a[1..], b);
    }
  }

  lemma {:induction false} HopsItems(s: seq<Asn>)
    ensures ItemHops(Hops(s)) == |s| && ItemMembers(Hops(s)) == Elems(s)
  {
    if |s| > 0 {
      assert Hops(s)[1..] == Hops(s[1..]);
      HopsItems(s[1..]);
      assert s == [s[0]] + s[1..];
    }
  }

  /** Hop count and membership are properties of the meaning. */
  lemma {:induction false} CountsFromMeaning(p: Path)
    ensures CountHops(p) == ItemHops(Denote(p))
    ensures Members(p) == ItemMembers(Denote(p))
  {
    if |p| > 0 {
      CountsFromMeaning(p[1..]);
      ItemsConcat(Items(p[0]), Denote(p[1..]));
      HopsItems(p[0].asns);
      if p[0].kind != Sequence {
        assert Items(p[0])[1..] == [];
      }
    }
  }

  lemma {:induction false} NormaliseCounts(p: Path)
    ensures CountHops(Normalise(p)) == CountHops(p)
    ensures Members(Normalise(p)) == Members(p)
  {
    NormaliseMeaning(p);
    CountsFromMeaning(p);
    CountsFromMeaning(Normalise(p));
  }

  /** All AS numbers of a path, in order. */
  function AllAsns(p: Path): seq<Asn> {
    if |p| == 0 then [] else p[0].asns + AllAsns(p[1..])
  }

  lemma {:induction false} AllAsnsConcat(p: Path, q: Path)
    ensures AllAsns(p + q) == AllAsns(p) + AllAsns(q)
  {
    if |p| == 0 {
      assert p + q == q;
    } else {
      assert (p + q)[1..] == p[1..] + q;
      AllAsnsConcat(p[1..], q);
    }
  }

  lemma {:induction false} AllAsnsMembers(p: Path)
    ensures Elems(AllAsns(p)) == Members(p)
  {
    if |p| > 0 {
      AllAsnsMembers(p[1..]);
      ElemsConcat(p[0].asns, AllAsns(p[1..]));
    }
  }

  lemma {:induction false} MembersConcat(p: Path, q: Path)
    ensures Members(p + q) == Members(p) + Members(q)
  {
    AllAsnsConcat(p, q);
    ElemsConcat(AllAsns(p), AllAsns(q));
    AllAsnsMembers(p);
    AllAsnsMembers(q);
    AllAsnsMembers(p + q);
  }

  // ---- The code

  /** Sorted, duplicates kept: what qsort leaves. */
  function Sorted(s: seq<Asn>): seq<Asn> {
    if |s| == 0 then [] else InsertSorted(s[0], Sorted(s[1..]))
  }

  function InsertSorted(x: Asn, s: seq<Asn>): seq<Asn> {
    if |s| == 0 || x <= s[0] then [x] + s else [s[0]] + InsertSorted(x, s[1..])
  }

  predicate NonDecreasing(s: seq<Asn>) {
    forall i, j | 0 <= i < j < |s| :: s[i] <= s[j]
  }

  lemma {:induction false} InsertSortedMembers(x: Asn, s: seq<Asn>)
    ensures multiset(InsertSorted(x, s)) == multiset(s) + multiset{x}
  {
    if |s| > 0 && x > s[0] {
      InsertSortedMembers(x, s[1..]);
      assert s == [s[0]] + s[1..];
    }
  }

  lemma {:induction false} InsertSortedOk(x: Asn, s: seq<Asn>)
    requires NonDecreasing(s)
    ensures NonDecreasing(InsertSorted(x, s))
  {
    if |s| > 0 && x > s[0] {
      InsertSortedOk(x, s[1..]);
      InsertSortedMembers(x, s[1..]);
      var t := InsertSorted(x, s[1..]);
      forall j | 0 <= j < |t| ensures s[0] <= t[j] {
        assert t[j] in multiset(t);
        assert t[j] == x || t[j] in s[1..];
      }
    }
  }

  lemma {:induction false} SortedOk(s: seq<Asn>)
    ensures NonDecreasing(Sorted(s)) && multiset(Sorted(s)) == multiset(s)
  {
    if |s| > 0 {
      SortedOk(s[1..]);
      InsertSortedOk(s[0], Sorted(s[1..]));
      InsertSortedMembers(s[0], Sorted(s[1..]));
      assert s == [s[0]] + s[1..];
    }
  }

  /** Removes duplicates from the first `n` entries of a sorted array, in place. */
  method WeedOutDuplicates(a: array<Asn>) returns (n: nat)
    requires NonDecreasing(a[..])
    modifies a
    ensures n <= a.Length && a[..n] == Canon(old(a[..]))
  {
    ghost var s := a[..];
    if a.Length == 0 {
      assert a[..0] == [];
      return 0;
    }
    var tail, i := 0, 1;
    assert a[..1] == s[..1] == [s[0]];
    while i < a.Length
      invariant tail < i <= a.Length
      invariant Weeded(a[..tail + 1], s[..i])
      invariant forall j | i <= j < a.Length :: a[j] == s[j]
    {
      ghost var before := a[..tail + 1];
      assert before[tail] == a[tail];
      WeedNext(before, s, i);
      if a[tail] != a[i] {
        tail := tail + 1;
        if tail < i {
          a[tail] := a[i];
        }
        assert a[..tail + 1] == before + [s[i]];
      } else {
        assert a[..tail + 1] == before;
      }
      i := i + 1;
    }
    assert s[..i] == s;
    CanonOk(s);
    AscendingUnique(a[..tail + 1], Canon(s));
    return tail + 1;
  }

  /** `w` is the sorted list `s` without duplicates. */
  ghost predicate Weeded(w: seq<Asn>, s: seq<Asn>) {
    w != [] && s != [] && Ascending(w) && Elems(w) == Elems(s) && w[|w| - 1] == s[|s| - 1]
  }

  lemma {:induction false} WeedNext(w: seq<Asn>, s: seq<Asn>, i: nat)
    requires 0 < i < |s| && NonDecreasing(s) && Weeded(w, s[..i])
    ensures if w[|w| - 1] == s[i] then Weeded(w, s[..i + 1]) else Weeded(w + [s[i]], s[..i + 1])
  {
    assert s[..i + 1] == s[..i] + [s[i]];
    ElemsConcat(s[..i], [s[i]]);
    ElemsConcat(w, [s[i]]);
    assert s[..i][i - 1] == s[i - 1];
    if w[|w| - 1] == s[i] {
      assert s[i] in Elems(w);
    }
  }

  method SortSegment(s: Segment) returns (r: Segment)
    ensures r == s.(asns := Canon(s.asns))
  {
    var sorted := Sorted(s.asns);
    SortedOk(s.asns);
    var a := new Asn[|sorted|](i requires 0 <= i < |sorted| => sorted[i]);
    assert a[..] == sorted;
    var n := WeedOutDuplicates(a);
    forall x ensures x in sorted <==> x in s.asns {
      assert x in multiset(sorted) <==> x in multiset(s.asns);
    }
    CanonOk(sorted);
    CanonOk(s.asns);
    AscendingUnique(Canon(sorted), Canon(s.asns));
    r := s.(asns := a[..n]);
  }

  /** Appends to a pinned sequence all sequences that follow it. */
  method AppendFollowing(first: Segment, p: Path, from: nat) returns (pin: Segment, i: nat)
    requires from <= |p|
    ensures from <= i <= |p|
    ensures [pin] + Normalise(p[i..]) == Prepend(first, Normalise(p[from..]))
  {
    pin, i := first, from;
    while i < |p| && pin.kind == Sequence && p[i].kind == Sequence
      invariant from <= i <= |p|
      invariant Prepend(first, Normalise(p[from..])) == Prepend(pin, Normalise(p[i..]))
    {
      MergeNext(pin, p, i);
      pin := pin.(asns := pin.asns + p[i].asns);
      i := i + 1;
    }
    NoMerge(pin, p, i);
  }

  /** Sorts sets and merges sequences, segment by segment. */
  method NormalisePath(p: Path) returns (r: Path)
    ensures r == Normalise(p)
  {
    r := [];
    var i := 0;
    while i < |p|
      invariant i <= |p|
      invariant Normalise(p) == r + Normalise(p[i..])
    {
      var first := p[i];
      if IsSet(first.kind) {
        first := SortSegment(first);
      }
      NormaliseFrom(p, i);
      var pin, next := AppendFollowing(first, p, i + 1);
      Regroup(r, [pin], Normalise(p[next..]));
      r, i := r + [pin], next;
    }
    assert p[i..] == [];
  }

  lemma {:induction false} NormaliseFrom(p: Path, i: nat)
    requires i < |p|
    ensures Normalise(p[i..]) == Prepend(NormalSegment(p[i]), Normalise(p[i + 1..]))
  {
    assert p[i..][1..] == p[i + 1..];
  }

  lemma {:induction false} MergeNext(pin: Segment, p: Path, i: nat)
    requires i < |p| && pin.kind == Sequence && p[i].kind == Sequence
    ensures Prepend(pin, Normalise(p[i..])) == Prepend(pin.(asns := pin.asns + p[i].asns), Normalise(p[i + 1..]))
  {
    assert p[i..][1..] == p[i + 1..];
    var rest := Normalise(p[i + 1..]);
    if |rest| > 0 && rest[0].kind == Sequence {
      assert pin.asns + (p[i].asns + rest[0].asns) == (pin.asns + p[i].asns) + rest[0].asns;
    }
  }

  lemma {:induction false} NoMerge(pin: Segment, p: Path, i: nat)
    requires i <= |p| && !(i < |p| && pin.kind == Sequence && p[i].kind == Sequence)
    ensures Prepend(pin, Normalise(p[i..])) == [pin] + Normalise(p[i..])
  {
    if i < |p| {
      assert Normalise(p[i..])[0].kind == p[i].kind;
    }
  }

  /** Member by member comparison of two segment lists. */
  method ComparePaths(p: Path, q: Path) returns (same: bool)
    ensures same <==> p == q
  {
    var i := 0;
    while i < |p| || i < |q|
      invariant i <= |p| && i <= |q| && p[..i] == q[..i]
      decreases |p| - i
    {
      if i == |p| || i == |q| {
        return false;
      }
      if p[i].kind != q[i].kind || |p[i].asns| != |q[i].asns| {
        return false;
      }
      var j := 0;
      while j < |p[i].asns|
        invariant j <= |p[i].asns| && p[i].asns[..j] == q[i].asns[..j]
      {
        if p[i].asns[j] != q[i].asns[j] {
          return false;
        }
        j := j + 1;
      }
      assert p[i].asns == p[i].asns[..j] && q[i].asns == q[i].asns[..j];
      i := i + 1;
    }
    assert p == p[..i] && q == q[..i];
    return true;
  }

  /** On normal paths the comparison decides whether two paths mean the same. */
  method SameMeaning(p: Path, q: Path) returns (same: bool)
    requires Normal(p) && Normal(q)
    ensures same <==> Denote(p) == Denote(q)
  {
    same := ComparePaths(p, q);
    NormalFixed(p);
    NormalFixed(q);
    CanonicalForm(p, q);
  }
}
