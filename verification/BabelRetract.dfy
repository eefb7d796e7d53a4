/** Retracting all routes through a neighbour: the walk over a list that route selection rearranges meanwhile. */
module BabelRetract {
  import opened Basics
  import opened Address
  import opened BabelRoute
  import opened BabelSlot

  // ---- One route

  /** A route through `neigh` that is still to be retracted. */
  predicate Finite(r: Route, neigh: nat) { r.key.neigh == neigh && r.refmetric != INFINITY }

  function Infinite(r: Route): Route { r.(refmetric := INFINITY, cost := INFINITY, add := 0) }

  lemma {:induction false} PutHas(c: seq<Route>, k: Key, r: Route)
    requires Has(c, k) && r.key == k
    ensures Has(Put(c, k, r), k)
  {
    IndexPut(c, k, r, k);
  }

  /** The route is retracted, and route_changed follows if it was of use. */
  function RetractReact(d: Dest, k: Key, now: int, sm: Key -> int, kernel: Kernel): Dest
    requires Has(d.chain, k)
  {
    var r := Get(d.chain, k);
    var d1 := d.(chain := Put(d.chain, k, Retract(r, kernel.metric)));
    PutHas(d.chain, k, Retract(r, kernel.metric));
    if Metric(r) != INFINITY then RouteChanged(d1, k, now, sm, kernel.first, kernel.second) else d1
  }

  // ---- What becomes of the list

  /** The route at `j` becomes the installed head, before the former one. */
  function Swapped(c: seq<Route>, j: nat): seq<Route>
    requires 0 < j < |c|
  {
    [c[j].(installed := true), c[0].(installed := false)] + c[1..j] + c[j + 1..]
  }

  lemma {:induction false} SwitchSwaps(c: seq<Route>, j: nat)
    requires ChainOk(c) && 0 < j < |c| && c[0].installed
    ensures Has(c, c[0].key) && Has(c, c[j].key)
    ensures Switch(c, Some(c[0].key), c[j].key, true) == Swapped(c, j)
  {
    IndexUnique(c, c[0].key, 0);
    IndexUnique(c, c[j].key, j);
    var c1 := c[0 := c[0].(installed := false)];
    assert Uninstall(c, c[0].key) == c1;
    IndexPut(c, c[0].key, c1[0], c[j].key);
    var c2 := c1[j := c1[j].(installed := true)];
    assert Switch(c, Some(c[0].key), c[j].key, true) == Promote(c2, j);
    assert c2[..j] == [c1[0]] + c[1..j] && c2[j + 1..] == c[j + 1..];
  }

  /** A route that is not installed is retracted where it is, or becomes the installed head if there was none. */
  lemma {:induction false} TailStep(d: Dest, i: nat, now: int, sm: Key -> int, kernel: Kernel)
    requires Exclusive(d) && i < |d.chain| && !d.chain[i].installed
    ensures Has(d.chain, d.chain[i].key)
    ensures
      var e := RetractReact(d, d.chain[i].key, now, sm, kernel);
      var c := d.chain[i := Infinite(d.chain[i])];
      && e.sources == d.sources && e.xroute == d.xroute
      && (|| e.chain == c
          || (Installed(d.chain).None? && e.chain == Promote(c[i := c[i].(installed := true)], i)))
  {
    var k := d.chain[i].key;
    IndexUnique(d.chain, k, i);
    var c := d.chain[i := Infinite(d.chain[i])];
    var d1 := d.(chain := c);
    assert Put(d.chain, k, Retract(d.chain[i], kernel.metric)) == c;
    IndexUnique(c, k, i);
    assert TryBetter(d1, k, now, sm, kernel.first) == d1;
    assert Metric(c[i]) == INFINITY;
  }

  /** The installed head is retracted, unless the kernel refuses, and may give way to a route with a better metric. */
  lemma {:induction false} HeadStep(d: Dest, now: int, sm: Key -> int, kernel: Kernel)
    requires Exclusive(d) && |d.chain| > 0 && d.chain[0].installed
    ensures Has(d.chain, d.chain[0].key)
    ensures
      var e := RetractReact(d, d.chain[0].key, now, sm, kernel);
      var c := d.chain[0 := Retract(d.chain[0], kernel.metric)];
      && e.sources == d.sources && e.xroute == d.xroute
      && (|| e.chain == c
          || exists j :: 0 < j < |c| && Metric(c[j]) < Metric(c[0]) && e.chain == Swapped(c, j))
  {
    hide Feasible, FindBest;
    var k := d.chain[0].key;
    IndexUnique(d.chain, k, 0);
    var c := d.chain[0 := Retract(d.chain[0], kernel.metric)];
    var d1 := d.(chain := c);
    assert ChainOk(c) && c[0].installed;
    IndexUnique(c, k, 0);
    var best := FindBest(d1, now, sm, true, None);
    if Metric(d.chain[0]) != INFINITY && best.Some? && Metric(c[best.value]) < Metric(c[0]) {
      var j := best.value;
      BetterStep(d1, j, now, sm, kernel.first, kernel.second);
    }
  }

  lemma {:induction false} BetterStep(d: Dest, j: nat, now: int, sm: Key -> int, kernel1: bool, kernel2: bool)
    requires ChainOk(d.chain) && 0 < j < |d.chain| && d.chain[0].installed
    requires Metric(d.chain[j]) < Metric(d.chain[0])
    ensures
      var k, e := d.chain[0].key, ConsiderBy(d, d.chain[j].key, now, sm, kernel1);
      && (e == d || e == d.(chain := Swapped(d.chain, j)))
      && (e != d ==> Has(e.chain, k) && !Get(e.chain, k).installed && ConsiderBy(e, k, now, sm, kernel2) == e)
  {
    hide Feasible;
    var c, k := d.chain, d.chain[0].key;
    IndexUnique(c, c[j].key, j);
    IndexUnique(c, k, 0);
    SwitchSwaps(c, j);
    var e := ConsiderBy(d, c[j].key, now, sm, kernel1);
    if e != d {
      assert e.chain == Swapped(c, j);
      assert e.chain[0].key == c[j].key != k && e.chain[1].key == k;
      IndexUnique(e.chain, k, 1);
    }
  }

  // ---- The walk

  predicate NoneBelow(c: seq<Route>, i: nat, neigh: nat) {
    i <= |c| && forall j | 0 <= j < i :: !Finite(c[j], neigh)
  }

  /** No finite route through the neighbour is left. */
  predicate NoneLeft(c: seq<Route>, neigh: nat) { forall r | r in c :: !Finite(r, neigh) }

  /** The installed route goes through the neighbour. */
  predicate Relies(d: Dest, neigh: nat) { |d.chain| > 0 && d.chain[0].installed && Finite(d.chain[0], neigh) }

  /**
   A route through the neighbour escapes: the installed one, whose retraction the kernel refuses, or the one that
   selection puts in its place, which thereby moves to the front of the list, behind the walk.
   */
  predicate Escapes(d: Dest, neigh: nat, now: int, sm: Key -> int, kernel: Kernel) {
    && Relies(d, neigh)
    && (|| KernelRejects(d.chain[0], INFINITY, INFINITY, 0, kernel.metric)
        || var e := RetractReact(d, d.chain[0].key, now, sm, kernel);
          |e.chain| > 0 && Finite(e.chain[0], neigh))
  }

  /** The walk over the list `d0` has come to `i`, the list being `d` by now. */
  ghost predicate Walked(d0: Dest, d: Dest, i: nat, neigh: nat, now: int, sm: Key -> int, kernel: Kernel) {
    && i <= |d.chain|
    && (i == 0 ==> d == d0)
    && (i > 0 ==>
          if Escapes(d0, neigh, now, sm, kernel) then Installed(d.chain).Some? && !NoneBelow(d.chain, i, neigh)
          else NoneBelow(d.chain, i, neigh))
  }

  /** Where the walk goes on after the route `k`. */
  function After(d: Dest, k: Key): nat { Index(d.chain, k) + 1 }

  lemma {:induction false} WalkPast(d0: Dest, d: Dest, i: nat, neigh: nat, now: int, sm: Key -> int, kernel: Kernel)
    requires Walked(d0, d, i, neigh, now, sm, kernel) && i < |d.chain| && !Finite(d.chain[i], neigh)
    ensures Walked(d0, d, i + 1, neigh, now, sm, kernel)
  {
    hide RetractReact, KernelRejects;
  }

  /** What a step after the first does to the list. */
  lemma {:induction false} TailWalk(d: Dest, i: nat, neigh: nat, now: int, sm: Key -> int, kernel: Kernel)
    requires Exclusive(d) && i < |d.chain| && !d.chain[i].installed
    ensures Has(d.chain, d.chain[i].key)
    ensures
      var k := d.chain[i].key;
      var e := RetractReact(d, k, now, sm, kernel);
      && After(e, k) <= |e.chain| == |d.chain|
      && (NoneBelow(d.chain, i, neigh) ==> NoneBelow(e.chain, After(e, k), neigh))
      && (Installed(d.chain).Some? && !NoneBelow(d.chain, i, neigh) ==>
            Installed(e.chain).Some? && !NoneBelow(e.chain, After(e, k), neigh))
  {
    hide RetractReact;
    var k := d.chain[i].key;
    TailStep(d, i, now, sm, kernel);
    var e := RetractReact(d, k, now, sm, kernel);
    var c := d.chain[i := Infinite(d.chain[i])];
    if e.chain == c {
      IndexUnique(e.chain, k, i);
      if !NoneBelow(d.chain, i, neigh) {
        var j :| 0 <= j < i && Finite(d.chain[j], neigh);
        assert e.chain[j] == d.chain[j];
      }
    } else {
      assert e.chain[0].key == k;
      IndexUnique(e.chain, k, 0);
    }
  }

  /** What the first step does to it, if the installed route goes through the neighbour. */
  lemma {:induction false} HeadWalk(d: Dest, neigh: nat, now: int, sm: Key -> int, kernel: Kernel)
    requires Exclusive(d) && Relies(d, neigh)
    ensures Has(d.chain, d.chain[0].key)
    ensures
      var k := d.chain[0].key;
      var e := RetractReact(d, k, now, sm, kernel);
      && After(e, k) <= |e.chain| == |d.chain|
      && if Escapes(d, neigh, now, sm, kernel)
         then Installed(e.chain).Some? && !NoneBelow(e.chain, After(e, k), neigh)
         else NoneBelow(e.chain, After(e, k), neigh)
  {
    hide RetractReact;
    var k := d.chain[0].key;
    HeadStep(d, now, sm, kernel);
    var e := RetractReact(d, k, now, sm, kernel);
    var c := d.chain[0 := Retract(d.chain[0], kernel.metric)];
    if e.chain == c {
      IndexUnique(e.chain, k, 0);
      assert NoneBelow(e.chain, 1, neigh) <==> !Finite(e.chain[0], neigh);
    } else {
      var j :| 0 < j < |c| && Metric(c[j]) < Metric(c[0]) && e.chain == Swapped(c, j);
      assert e.chain[0].key == c[j].key != k && e.chain[1].key == k;
      IndexUnique(e.chain, k, 1);
      assert NoneBelow(e.chain, 2, neigh) <==> !Finite(e.chain[0], neigh) && !Finite(e.chain[1], neigh);
    }
  }

  lemma {:induction false} WalkOn(d0: Dest, d: Dest, i: nat, neigh: nat, now: int, sm: Key -> int, kernel: Kernel,
                                  first: Kernel)
    requires Walked(d0, d, i, neigh, now, sm, first) && Exclusive(d) && i < |d.chain| && Finite(d.chain[i], neigh)
    requires i == 0 ==> kernel == first
    ensures Has(d.chain, d.chain[i].key)
    ensures
      var k := d.chain[i].key;
      var e := RetractReact(d, k, now, sm, kernel);
      Walked(d0, e, After(e, k), neigh, now, sm, first)
  {
    hide RetractReact, Escapes, NoneBelow;
    assert NoneBelow(d.chain, 0, neigh) by { NothingBelow(d.chain, neigh); }
    if i == 0 && d.chain[0].installed {
      HeadWalk(d, neigh, now, sm, kernel);
    } else {
      TailWalk(d, i, neigh, now, sm, kernel);
      assert i == 0 ==> !Escapes(d0, neigh, now, sm, first) by { NoEscape(d, neigh, now, sm, first); }
    }
  }

  lemma {:induction false} NothingBelow(c: seq<Route>, neigh: nat)
    ensures NoneBelow(c, 0, neigh)
  {
  }

  lemma {:induction false} NoEscape(d: Dest, neigh: nat, now: int, sm: Key -> int, kernel: Kernel)
    ensures !Relies(d, neigh) ==> !Escapes(d, neigh, now, sm, kernel)
  {
  }

  lemma {:induction false} StepLength(d: Dest, i: nat, neigh: nat, now: int, sm: Key -> int, kernel: Kernel)
    requires Exclusive(d) && i < |d.chain| && Finite(d.chain[i], neigh) && Has(d.chain, d.chain[i].key)
    ensures |RetractReact(d, d.chain[i].key, now, sm, kernel).chain| == |d.chain|
  {
    hide RetractReact;
    if d.chain[i].installed {
      HeadWalk(d, neigh, now, sm, kernel);
    } else {
      TailWalk(d, i, neigh, now, sm, kernel);
    }
  }

  /** At the end, no finite route through the neighbour is left if and only if none escapes. */
  lemma {:induction false} WalkEnds(d0: Dest, d: Dest, neigh: nat, now: int, sm: Key -> int, kernel: Kernel)
    requires Walked(d0, d, |d.chain|, neigh, now, sm, kernel)
    ensures NoneLeft(d.chain, neigh) <==> !Escapes(d0, neigh, now, sm, kernel)
  {
    hide Escapes;
    if |d.chain| == 0 {
      NoEscape(d0, neigh, now, sm, kernel);
    } else if !NoneBelow(d.chain, |d.chain|, neigh) {
      var j :| 0 <= j < |d.chain| && Finite(d.chain[j], neigh);
      assert d.chain[j] in d.chain;
    }
  }

  // ---- What the walk leaves alone

  /** The same route but for the installed flag, or retracted if it goes through the neighbour. */
  predicate TamedRoute(r0: Route, r: Route, neigh: nat) {
    || r.(installed := r0.installed) == r0
    || (r0.key.neigh == neigh && r.(installed := r0.installed) == Infinite(r0))
  }

  /** The same routes up to order, retracted at most if they go through the neighbour. */
  ghost predicate Tamed(c0: seq<Route>, c: seq<Route>, neigh: nat) {
    && (forall k :: Has(c0, k) <==> Has(c, k))
    && (forall r | r in c :: exists r0 :: r0 in c0 && TamedRoute(r0, r, neigh))
  }

  lemma {:induction false} TamedSelf(c: seq<Route>, neigh: nat)
    ensures Tamed(c, c, neigh)
  {
    forall r | r in c ensures exists r0 :: r0 in c && TamedRoute(r0, r, neigh) {
      assert TamedRoute(r, r, neigh);
    }
  }

  lemma {:induction false} TamedTransitive(a: seq<Route>, b: seq<Route>, c: seq<Route>, neigh: nat)
    requires Tamed(a, b, neigh) && Tamed(b, c, neigh)
    ensures Tamed(a, c, neigh)
  {
    forall r | r in c ensures exists r0 :: r0 in a && TamedRoute(r0, r, neigh) {
      var x :| x in b && TamedRoute(x, r, neigh);
      var r0 :| r0 in a && TamedRoute(r0, x, neigh);
      TamedTwice(r0, x, r, neigh);
    }
  }

  lemma {:induction false} TamedTwice(r0: Route, x: Route, r: Route, neigh: nat)
    requires TamedRoute(r0, x, neigh) && TamedRoute(x, r, neigh)
    ensures TamedRoute(r0, r, neigh)
  {
  }

  lemma {:induction false} RearrangedTamed(a: seq<Route>, b: seq<Route>, neigh: nat)
    requires Rearranged(a, b)
    ensures Tamed(a, b, neigh)
  {
    forall r | r in b ensures exists r0 :: r0 in a && TamedRoute(r0, r, neigh) {
      var x :| x in a && (x == r.(installed := true) || x == r.(installed := false));
      assert r.(installed := x.installed) == x;
    }
  }

  lemma {:induction false} PutTamed(c: seq<Route>, k: Key, kernelOk: bool, neigh: nat)
    requires Has(c, k) && k.neigh == neigh
    ensures Tamed(c, Put(c, k, Retract(Get(c, k), kernelOk)), neigh)
  {
    var r' := Retract(Get(c, k), kernelOk);
    forall k' ensures Has(c, k') <==> Has(Put(c, k, r'), k') {
      IndexPut(c, k, r', k');
    }
    forall r | r in Put(c, k, r') ensures exists r0 :: r0 in c && TamedRoute(r0, r, neigh) {
      if r == r' {
        assert TamedRoute(Get(c, k), r, neigh);
      } else {
        assert r in c && TamedRoute(r, r, neigh);
      }
    }
  }

  /** A step keeps the invariant of the destination, and retracts nothing else. */
  lemma {:induction false} StepTames(d: Dest, k: Key, neigh: nat, now: int, sm: Key -> int, kernel: Kernel)
    requires DestOk(d) && Has(d.chain, k) && k.neigh == neigh
    ensures
      var e := RetractReact(d, k, now, sm, kernel);
      && DestOk(e) && e.sources == d.sources && e.xroute == d.xroute && Tamed(d.chain, e.chain, neigh)
      && Tamed(Put(d.chain, k, Retract(Get(d.chain, k), kernel.metric)), e.chain, neigh)
  {
    var r := Get(d.chain, k);
    var d1 := d.(chain := Put(d.chain, k, Retract(r, kernel.metric)));
    var e := RetractReact(d, k, now, sm, kernel);
    ChangeMetricOk(d, k, INFINITY, INFINITY, 0, kernel.metric);
    PutHas(d.chain, k, Retract(r, kernel.metric));
    PutTamed(d.chain, k, kernel.metric, neigh);
    hide Tamed, RouteChanged, Put, Retract, Counted, Exclusive, Rearranged;
    if Metric(r) != INFINITY {
      RouteChangedReselects(d1, k, now, sm, kernel.first, kernel.second);
      ReselectedCounted(d1, e, None);
      RearrangedTamed(d1.chain, e.chain, neigh);
      TamedTransitive(d.chain, d1.chain, e.chain, neigh);
    } else {
      TamedSelf(d1.chain, neigh);
    }
  }

  // ---- Termination

  ghost function FiniteKeys(c: seq<Route>, neigh: nat): set<Key> { set r | r in c && Finite(r, neigh) :: r.key }

  lemma {:induction false} FewerFinite(a: seq<Route>, b: seq<Route>, neigh: nat)
    requires Tamed(a, b, neigh)
    ensures FiniteKeys(b, neigh) <= FiniteKeys(a, neigh)
  {
    forall r | r in b && Finite(r, neigh) ensures r.key in FiniteKeys(a, neigh) {
      var r0 :| r0 in a && TamedRoute(r0, r, neigh);
      assert Finite(r0, neigh) && r0.key == r.key;
    }
  }

  lemma {:induction false} SubsetSize(a: set<Key>, b: set<Key>)
    requires a <= b
    ensures |a| <= |b| && (a != b ==> |a| < |b|)
  {
    assert b == a + (b - a) && a !! (b - a);
  }

  /** The routes still to be retracted become fewer, or the walk comes further. */
  lemma {:induction false} StepProgress(d: Dest, i: nat, neigh: nat, now: int, sm: Key -> int, kernel: Kernel)
    requires DestOk(d) && i < |d.chain| && Finite(d.chain[i], neigh) && Has(d.chain, d.chain[i].key)
    ensures
      var k := d.chain[i].key;
      var e := RetractReact(d, k, now, sm, kernel);
      && |FiniteKeys(e.chain, neigh)| <= |FiniteKeys(d.chain, neigh)|
      && (|FiniteKeys(e.chain, neigh)| == |FiniteKeys(d.chain, neigh)| ==> After(e, k) > i)
  {
    hide RetractReact;
    var k := d.chain[i].key;
    var e := RetractReact(d, k, now, sm, kernel);
    StepTames(d, k, neigh, now, sm, kernel);
    IndexUnique(d.chain, k, i);
    var c := Put(d.chain, k, Retract(d.chain[i], kernel.metric));
    FewerFinite(d.chain, e.chain, neigh);
    FewerFinite(c, e.chain, neigh);
    SubsetSize(FiniteKeys(e.chain, neigh), FiniteKeys(d.chain, neigh));
    assert d.chain[i] in d.chain && k in FiniteKeys(d.chain, neigh);
    if i > 0 {
      assert c[i].refmetric == INFINITY;
      assert k !in FiniteKeys(c, neigh);
    }
  }

  // ---- An example

  const HERE: Addr := [0, 0, 0, 0, 0, 0, 0, 0, 0, 0, 0, 0, 0, 0, 0, 0]
  const THERE: Addr := [1, 0, 0, 0, 0, 0, 0, 0, 0, 0, 0, 0, 0, 0, 0, 0]

  /** A route of source 9 through neighbour 1. */
  function Via(nexthop: Addr, refmetric: u16, installed: bool): Route {
    Route(Prefix(HERE, 0), Key(1, nexthop), 9, 0, refmetric, 1, 0, 0, 0, installed)
  }

  /** The lower smoothed metric is that of the second next hop. */
  function SecondBest(k: Key): int { if k.nexthop == THERE then 2 else 3 }

  /** Two routes through the same neighbour, by two next hops: the second takes the place of the first and escapes. */
  lemma {:induction false} SecondNextHopEscapes()
    ensures
      var d := Dest([Via(HERE, 1, true), Via(THERE, 2, false)], map[9 := Source(0, INFINITY, 0, 2)], false);
      DestOk(d) && Escapes(d, 1, 0, SecondBest, Kernel(true, true, true, true))
  {
    var r, r2 := Via(HERE, 1, true), Via(THERE, 2, false);
    var sources := map[9 := Source(0, INFINITY, 0, 2)];
    var d := Dest([r, r2], sources, false);
    TwoRefs(r, r2);
    var d1 := Dest([Infinite(r), r2], sources, false);
    assert r.key != r2.key by { assert HERE[0] != THERE[0]; }
    assert Put(d.chain, r.key, Retract(r, true)) == d1.chain;
    SecondIsBest(d1, Infinite(r), r2);
    BetterStep(d1, 1, 0, SecondBest, true, true);
    SecondInstalls(d1, Infinite(r), r2);
  }

  lemma {:induction false} TwoRefs(r: Route, r2: Route)
    requires r.src == r2.src == 9
    ensures forall id :: Refs([r, r2], id) == if id == 9 then 2 else 0
  {
    assert [r, r2][1..] == [r2] && [r2][1..] == [];
    forall id ensures Refs([r, r2], id) == if id == 9 then 2 else 0 {
      assert Refs([r2], id) == if id == 9 then 1 else 0;
    }
  }

  lemma {:induction false} SecondIsBest(d: Dest, r: Route, r2: Route)
    requires d == Dest([r, r2], map[9 := Source(0, INFINITY, 0, 2)], false)
    requires r == Infinite(Via(HERE, 1, true)) && r2 == Via(THERE, 2, false)
    ensures FindBest(d, 0, SecondBest, true, None) == Some(1)
  {
    assert HERE[0] != THERE[0];
    assert SecondBest(r.key) == 3 && SecondBest(r2.key) == 2;
    assert BestFrom(d, 2, Some(1), 0, SecondBest, true, None) == Some(1);
    assert BestFrom(d, 1, Some(0), 0, SecondBest, true, None) == Some(1);
  }

  lemma {:induction false} SecondInstalls(d: Dest, r: Route, r2: Route)
    requires d == Dest([r, r2], map[9 := Source(0, INFINITY, 0, 2)], false)
    requires r == Infinite(Via(HERE, 1, true)) && r2 == Via(THERE, 2, false) && r.key != r2.key
    ensures ConsiderBy(d, r2.key, 0, SecondBest, true).chain == Swapped(d.chain, 1)
  {
    IndexUnique(d.chain, r2.key, 1);
    SwitchSwaps(d.chain, 1);
    assert Metric(r) == INFINITY && Metric(r2) == 3;
  }
}
