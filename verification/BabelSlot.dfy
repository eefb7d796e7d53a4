/**
 What every operation on the routes of one destination keeps, whatever the kernel
 answers: at most one route is installed, it is the head of the chain, none is installed
 while the destination is redistributed, and every source's reference count is the
 number of routes that point at it.
 */
module BabelSlot {
  import opened Basics
  import opened Address
  import opened BabelRoute

  /** The number of routes of `c` whose source is `id`. */
  function Refs(c: seq<Route>, id: RouterId): nat {
    if |c| == 0 then 0 else (if c[0].src == id then 1 else 0) + Refs(c[1..], id)
  }

  /** Counts are exact, but for one reference still held to `extra`. */
  ghost predicate Counted(d: Dest, extra: Option<RouterId>) {
    && (extra.Some? ==> extra.value in d.sources)
    && (forall r | r in d.chain :: r.src in d.sources)
    && (forall id | id in d.sources ::
          d.sources[id].count == Refs(d.chain, id) + if extra == Some(id) then 1 else 0)
  }

  ghost predicate Exclusive(d: Dest) {
    ChainOk(d.chain) && (d.xroute ==> forall r | r in d.chain :: !r.installed)
  }

  ghost predicate DestOk(d: Dest) { Exclusive(d) && Counted(d, None) }

  // ---- Counting

  lemma {:induction false} RefsConcat(a: seq<Route>, b: seq<Route>, id: RouterId)
    ensures Refs(a + b, id) == Refs(a, id) + Refs(b, id)
  {
    if |a| == 0 {
      assert a + b == b;
    } else {
      assert (a + b)[1..] == a[1..] + b;
      RefsConcat(a[1..], b, id);
    }
  }

  lemma {:induction false} RefsSplit(c: seq<Route>, i: nat, id: RouterId)
    requires i < |c|
    ensures Refs(c, id) == Refs(c[..i], id) + (if c[i].src == id then 1 else 0) + Refs(c[i + 1..], id)
  {
    assert c == c[..i] + c[i..];
    RefsConcat(c[..i], c[i..], id);
    assert c[i..][1..] == c[i + 1..];
  }

  lemma {:induction false} RefsPut(c: seq<Route>, i: nat, r: Route, id: RouterId)
    requires i < |c|
    ensures Refs(c[i := r], id)
         == Refs(c, id) - (if c[i].src == id then 1 else 0) + (if r.src == id then 1 else 0)
  {
    RefsSplit(c, i, id);
    var c' := c[i := r];
    RefsSplit(c', i, id);
    assert c'[..i] == c[..i] && c'[i + 1..] == c[i + 1..];
  }

  lemma {:induction false} RefsWithout(c: seq<Route>, i: nat, id: RouterId)
    requires i < |c|
    ensures Refs(Without(c, i), id) == Refs(c, id) - if c[i].src == id then 1 else 0
  {
    RefsSplit(c, i, id);
    RefsConcat(c[..i], c[i + 1..], id);
  }

  lemma {:induction false} RefsPromote(c: seq<Route>, i: nat, id: RouterId)
    requires i < |c|
    ensures Refs(Promote(c, i), id) == Refs(c, id)
  {
    RefsWithout(c, i, id);
    assert Promote(c, i) == [c[i]] + Without(c, i);
    assert Promote(c, i)[1..] == Without(c, i);
  }

  lemma {:induction false} RefsPositive(c: seq<Route>, r: Route)
    requires r in c
    ensures Refs(c, r.src) > 0
  {
    if r != c[0] {
      assert r in c[1..];
      RefsPositive(c[1..], r);
    }
  }

  // ---- Rearranging

  /** `c'` has the routes of `c` up to order and the installed flags. */
  ghost predicate Rearranged(c: seq<Route>, c': seq<Route>) {
    && (forall id :: Refs(c', id) == Refs(c, id))
    && (forall r | r in c' :: r.(installed := true) in c || r.(installed := false) in c)
    && (forall k :: Has(c, k) <==> Has(c', k))
  }

  lemma {:induction false} RearrangedTransitive(a: seq<Route>, b: seq<Route>, c: seq<Route>)
    requires Rearranged(a, b) && Rearranged(b, c)
    ensures Rearranged(a, c)
  {
    forall r | r in c ensures r.(installed := true) in a || r.(installed := false) in a {
      var x :| x in b && (x == r.(installed := true) || x == r.(installed := false));
      assert x.(installed := true) == r.(installed := true) && x.(installed := false) == r.(installed := false);
    }
  }

  lemma {:induction false} HasIff(c: seq<Route>, k: Key)
    ensures Has(c, k) <==> exists r :: r in c && r.key == k
  {
    if Has(c, k) {
      assert c[Index(c, k)] in c;
    }
  }

  lemma {:induction false} FlagRearranged(c: seq<Route>, i: nat, flag: bool)
    requires i < |c|
    ensures Rearranged(c, c[i := c[i].(installed := flag)])
  {
    var c' := c[i := c[i].(installed := flag)];
    forall id ensures Refs(c', id) == Refs(c, id) {
      RefsPut(c, i, c'[i], id);
    }
    forall k ensures Has(c, k) <==> Has(c', k) {
      HasIff(c, k);
      HasIff(c', k);
      if k == c[i].key {
        assert c[i] in c && c'[i] in c';
      } else if Has(c, k) {
        assert c'[Index(c, k)] == c[Index(c, k)];
      }
    }
    forall r | r in c' ensures r.(installed := true) in c || r.(installed := false) in c {
      var j :| 0 <= j < |c'| && c'[j] == r;
      assert c[j] == r.(installed := true) || c[j] == r.(installed := false);
    }
  }

  lemma {:induction false} PromoteRearranged(c: seq<Route>, i: nat)
    requires i < |c|
    ensures Rearranged(c, Promote(c, i))
  {
    var c' := Promote(c, i);
    forall id ensures Refs(c', id) == Refs(c, id) {
      RefsPromote(c, i, id);
    }
    assert c == c[..i] + [c[i]] + c[i + 1..];
    assert forall r :: r in c <==> r in c';
    forall k ensures Has(c, k) <==> Has(c', k) {
      HasIff(c, k);
      HasIff(c', k);
    }
    forall r | r in c' ensures r.(installed := true) in c || r.(installed := false) in c {
      assert r == r.(installed := r.installed);
    }
  }

  /** Installing the route at `i` when no other is installed. */
  lemma {:induction false} InstallAt(c: seq<Route>, i: nat)
    requires i < |c|
    requires forall j | 0 <= j < |c| && j != i :: !c[j].installed
    requires forall j, l | 0 <= j < l < |c| :: c[j].key != c[l].key
    ensures
      var c' := Promote(c[i := c[i].(installed := true)], i);
      ChainOk(c') && Rearranged(c, c') && c'[0] == c[i].(installed := true)
  {
    hide Rearranged;
    var c1 := c[i := c[i].(installed := true)];
    FlagRearranged(c, i, true);
    PromoteRearranged(c1, i);
    RearrangedTransitive(c, c1, Promote(c1, i));
  }

  /** Installing leaves an installed route alone, whichever is to be installed, and never makes two of them. */
  lemma {:induction false} InstallOk(c: seq<Route>, k: Key, kernelOk: bool)
    requires ChainOk(c) && Has(c, k)
    ensures ChainOk(Install(c, k, kernelOk))
    ensures
      if Installed(c).Some? || !kernelOk then Install(c, k, kernelOk) == c
      else Installed(Install(c, k, kernelOk)) == Some(Get(c, k).(installed := true))
  {
    if Installed(c).None? && kernelOk {
      InstallAt(c, Index(c, k));
    }
  }

  /** Switching leaves exactly the chosen route installed, or changes nothing. */
  lemma {:induction false} SwitchOk(c: seq<Route>, k: Key, kernelOk: bool)
    requires ChainOk(c) && Has(c, k) && !Get(c, k).installed
    ensures
      var cur := Installed(c);
      var c' := Switch(c, if cur.Some? then Some(cur.value.key) else None, k, kernelOk);
      && ChainOk(c') && Rearranged(c, c')
      && (if kernelOk then c'[0] == Get(c, k).(installed := true) else c' == c)
  {
    var cur := Installed(c);
    var i := Index(c, k);
    if kernelOk {
      if cur.Some? {
        IndexUnique(c, cur.value.key, 0);
        var c1 := Uninstall(c, cur.value.key);
        IndexPut(c, cur.value.key, c[0].(installed := false), k);
        FlagRearranged(c, 0, false);
        InstallAt(c1, i);
        RearrangedTransitive(c, c1, Promote(c1[i := c1[i].(installed := true)], i));
      } else {
        InstallAt(c, i);
      }
    } else {
      SelfRearranged(c);
    }
  }

  /** Switching from a route that is not installed changes nothing, so that there are never two installed. */
  lemma {:induction false} SwitchNever(c: seq<Route>, cur: Key, k: Key, kernelOk: bool)
    requires ChainOk(c) && Has(c, cur) && Has(c, k) && !Get(c, cur).installed
    ensures Switch(c, Some(cur), k, kernelOk) == c
  {
  }

  lemma {:induction false} SelfRearranged(c: seq<Route>)
    ensures Rearranged(c, c)
  {
    forall r | r in c ensures r.(installed := true) in c || r.(installed := false) in c {
      assert r == r.(installed := r.installed);
    }
  }

  /** What reconsidering routes may do to a destination. */
  ghost predicate Reselected(d: Dest, d': Dest) {
    Exclusive(d') && Rearranged(d.chain, d'.chain) && d'.sources == d.sources && d'.xroute == d.xroute
  }

  lemma {:induction false} ReselectedTransitive(a: Dest, b: Dest, c: Dest)
    requires Reselected(a, b) && Reselected(b, c)
    ensures Reselected(a, c)
  {
    RearrangedTransitive(a.chain, b.chain, c.chain);
  }

  lemma {:induction false} ReselectedCounted(d: Dest, d': Dest, extra: Option<RouterId>)
    requires Reselected(d, d') && Counted(d, extra)
    ensures Counted(d', extra)
  {
    forall r | r in d'.chain ensures r.src in d'.sources {
      var x :| x in d.chain && (x == r.(installed := true) || x == r.(installed := false));
    }
  }

  lemma {:induction false} ConsiderReselects(d: Dest, k: Key, now: int, smoothedWorse: bool, kernelOk: bool)
    requires Exclusive(d)
    ensures Reselected(d, Consider(d, k, now, smoothedWorse, kernelOk))
  {
    if Has(d.chain, k) && Preferred(d, Get(d.chain, k), now, smoothedWorse) {
      SwitchOk(d.chain, k, kernelOk);
    } else {
      SelfRearranged(d.chain);
    }
  }

  /**
   When a route is preferred and the kernel agrees it becomes the installed head;
   otherwise nothing changes.
   */
  lemma {:induction false} ConsiderInstalls(d: Dest, k: Key, now: int, smoothedWorse: bool, kernelOk: bool)
    requires Exclusive(d) && Has(d.chain, k)
    ensures
      var r := Get(d.chain, k);
      var d' := Consider(d, k, now, smoothedWorse, kernelOk);
      if Preferred(d, r, now, smoothedWorse) && kernelOk
      then Installed(d'.chain) == Some(r.(installed := true))
      else d' == d
  {
    if Preferred(d, Get(d.chain, k), now, smoothedWorse) {
      SwitchOk(d.chain, k, kernelOk);
    }
  }

  lemma {:induction false} RouteLostReselects(d: Dest, now: int, sm: Key -> int, kernelOk: bool)
    requires Exclusive(d)
    ensures Reselected(d, RouteLost(d, now, sm, kernelOk))
  {
    var best := FindBest(d, now, sm, true, None);
    if best.Some? {
      var k := d.chain[best.value].key;
      var cur := Installed(d.chain);
      ConsiderReselects(d, k, now, cur.Some? && sm(cur.value.key) > sm(k), kernelOk);
    } else {
      SelfRearranged(d.chain);
    }
  }

  lemma {:induction false} ConsiderByReselects(d: Dest, k: Key, now: int, sm: Key -> int, kernelOk: bool)
    requires Exclusive(d)
    ensures Reselected(d, ConsiderBy(d, k, now, sm, kernelOk))
  {
    var cur := Installed(d.chain);
    ConsiderReselects(d, k, now, cur.Some? && sm(cur.value.key) > sm(k), kernelOk);
  }

  lemma {:induction false} TryBetterReselects(d: Dest, k: Key, now: int, sm: Key -> int, kernelOk: bool)
    requires Exclusive(d) && Has(d.chain, k)
    ensures Reselected(d, TryBetter(d, k, now, sm, kernelOk))
  {
    SelfRearranged(d.chain);
    var best := FindBest(d, now, sm, true, None);
    if best.Some? {
      ConsiderByReselects(d, d.chain[best.value].key, now, sm, kernelOk);
    }
  }

  lemma {:induction false} RouteChangedReselects(d: Dest, k: Key, now: int, sm: Key -> int, kernel1: bool,
                                                 kernel2: bool)
    requires Exclusive(d) && Has(d.chain, k)
    ensures Reselected(d, RouteChanged(d, k, now, sm, kernel1, kernel2))
  {
    var d1 := TryBetter(d, k, now, sm, kernel1);
    TryBetterReselects(d, k, now, sm, kernel1);
    ConsiderByReselects(d1, k, now, sm, kernel2);
    ReselectedTransitive(d, d1, ConsiderBy(d1, k, now, sm, kernel2));
  }

  // ---- Updates

  lemma {:induction false} UpdateCoreOk(d: Dest, dst: Prefix, u: Update, now: int, keep: bool, kernelOk: bool)
    requires DestOk(d)
    ensures
      var d' := UpdateCore(d, dst, u, now, keep, kernelOk);
      && Exclusive(d')
      && Counted(d', FormerSource(d, u))
  {
    hide Exclusive, Counted;
    if Has(d.chain, u.key) {
      UpdateExistingOk(d, dst, u, now, keep, kernelOk);
    } else {
      UpdateNewOk(d, dst, u, now, keep, kernelOk);
    }
  }

  lemma {:induction false} UpdateNewOk(d: Dest, dst: Prefix, u: Update, now: int, keep: bool, kernelOk: bool)
    requires DestOk(d) && !Has(d.chain, u.key)
    ensures
      var d' := UpdateCore(d, dst, u, now, keep, kernelOk);
      Exclusive(d') && Counted(d', None)
  {
    hide Feasible;
    var d' := UpdateCore(d, dst, u, now, keep, kernelOk);
    if u.id !in d.sources {
      NoRefs(d.chain, u.id);
    }
    if d'.chain != d.chain {
      var r := NewRoute(dst, u, now);
      forall id ensures Refs(d'.chain, id) == Refs(d.chain, id) + if id == u.id then 1 else 0 {
        RefsConcat(d.chain, [r], id);
      }
    }
  }

  lemma {:induction false} NoRefs(c: seq<Route>, id: RouterId)
    requires forall r | r in c :: r.src != id
    ensures Refs(c, id) == 0
  {
    if |c| > 0 {
      NoRefs(c[1..], id);
    }
  }

  lemma {:induction false} UpdateExistingShape(d: Dest, dst: Prefix, u: Update, now: int, keep: bool, kernelOk: bool)
    requires Has(d.chain, u.key)
    ensures
      var d', i := UpdateCore(d, dst, u, now, keep, kernelOk), Index(d.chain, u.key);
      && |d'.chain| == |d.chain| && d'.chain == d.chain[i := d'.chain[i]] && d'.xroute == d.xroute
      && d'.chain[i].src == u.id && d'.chain[i].key == u.key && d'.chain[i].dst == d.chain[i].dst
      && (d'.chain[i].installed ==> d.chain[i].installed)
      && d'.sources == Retain(FindSource(d.sources, u.id, u.seqno, now), u.id)
  {
    hide Feasible, LosesRoute;
  }

  lemma {:induction false} UpdateExistingOk(d: Dest, dst: Prefix, u: Update, now: int, keep: bool, kernelOk: bool)
    requires DestOk(d) && Has(d.chain, u.key)
    ensures
      var d' := UpdateCore(d, dst, u, now, keep, kernelOk);
      Exclusive(d') && Counted(d', Some(Get(d.chain, u.key).src))
  {
    var d' := UpdateCore(d, dst, u, now, keep, kernelOk);
    var i := Index(d.chain, u.key);
    UpdateExistingShape(d, dst, u, now, keep, kernelOk);
    hide UpdateCore;
    var r, r' := d.chain[i], d'.chain[i];
    forall id ensures Refs(d'.chain, id)
      == Refs(d.chain, id) - (if r.src == id then 1 else 0) + (if u.id == id then 1 else 0)
    {
      RefsPut(d.chain, i, r', id);
    }
    if u.id !in d.sources {
      NoRefs(d.chain, u.id);
    }
  }

  lemma {:induction false} ReleaseOk(d: Dest, id: RouterId)
    requires Exclusive(d) && Counted(d, Some(id))
    ensures d.sources[id].count > 0
    ensures DestOk(d.(sources := Release(d.sources, id)))
  {
  }

  lemma {:induction false} AfterUpdateOk(d: Dest, k: Key, was: Option<RouterId>, lost: bool, now: int, sm: Key -> int,
                                         kernel: Kernel)
    requires Exclusive(d) && Counted(d, was) && (was.Some? ==> Has(d.chain, k))
    ensures DestOk(AfterUpdate(d, k, was, lost, now, sm, kernel))
  {
    if was.Some? {
      var d2 := RouteChanged(d, k, now, sm, kernel.first, kernel.second);
      RouteChangedReselects(d, k, now, sm, kernel.first, kernel.second);
      var d3 := d2;
      if lost {
        d3 := RouteLost(d2, now, sm, kernel.third);
        RouteLostReselects(d2, now, sm, kernel.third);
        ReselectedTransitive(d, d2, d3);
      }
      ReselectedCounted(d, d3, was);
      ReleaseOk(d3, was.value);
    } else if Has(d.chain, k) {
      ConsiderByReselects(d, k, now, sm, kernel.first);
      ReselectedCounted(d, ConsiderBy(d, k, now, sm, kernel.first), None);
    }
  }

  /** Receiving any update keeps the invariant, whatever the kernel answers. */
  lemma {:induction false} UpdateRouteOk(d: Dest, dst: Prefix, myid: RouterId, u: Update, now: int, sm: Key -> int,
                      keep: bool, kernel: Kernel)
    requires DestOk(d)
    ensures DestOk(UpdateRoute(d, dst, myid, u, now, sm, keep, kernel))
  {
    if !Ignored(dst, myid, u) {
      UpdateCoreOk(d, dst, u, now, keep, kernel.metric);
      UpdateCoreHas(d, dst, u, now, keep, kernel.metric);
      AfterUpdateOk(UpdateCore(d, dst, u, now, keep, kernel.metric), u.key, FormerSource(d, u),
                    LosesRoute(d, u, now), now, sm, kernel);
    }
  }

  // ---- Flushing, metrics, sources and redistributed routes

  /** What is left of a chain. */
  lemma {:induction false} WithoutOk(c: seq<Route>, i: nat)
    requires ChainOk(c) && i < |c|
    ensures ChainOk(Without(c, i)) && (forall r | r in Without(c, i) :: r in c && r.key != c[i].key)
  {
    var c' := Without(c, i);
    forall j | 0 <= j < |c'| ensures c'[j] == c[if j < i then j else j + 1] {
    }
  }

  lemma {:induction false} DropOk(d: Dest, k: Key)
    requires DestOk(d) && Has(d.chain, k)
    ensures Exclusive(Drop(d, k)) && Counted(Drop(d, k), Some(Get(d.chain, k).src))
    ensures !Has(Drop(d, k).chain, k)
  {
    var i := Index(d.chain, k);
    var c' := Without(d.chain, i);
    WithoutOk(d.chain, i);
    hide Without, ChainOk;
    forall id ensures Refs(c', id) == Refs(d.chain, id) - if d.chain[i].src == id then 1 else 0 {
      RefsWithout(d.chain, i, id);
    }
    HasIff(c', k);
  }

  /** Flushing a route keeps the invariant and removes exactly that route. */
  lemma {:induction false} FlushRouteOk(d: Dest, k: Key, now: int, sm: Key -> int, kernelOk: bool)
    requires DestOk(d) && Has(d.chain, k)
    ensures
      var d' := FlushRoute(d, k, now, sm, kernelOk);
      && DestOk(d')
      && (forall k' :: Has(d'.chain, k') <==> Has(d.chain, k') && k' != k)
      && |d'.chain| == |d.chain| - 1
  {
    hide DestOk, Exclusive, Counted, Rearranged, Release;
    var r := Get(d.chain, k);
    var d1 := Drop(d, k);
    DropOk(d, k);
    DropKeys(d, k);
    SelfRearranged(d1.chain);
    var d2 := d1;
    if r.installed {
      d2 := RouteLost(d1, now, sm, kernelOk);
      RouteLostReselects(d1, now, sm, kernelOk);
      RouteLostLength(d1, now, sm, kernelOk);
    }
    hide RouteLost;
    RearrangedHas(d1.chain, d2.chain);
    ReselectedCounted(d1, d2, Some(r.src));
    ReleaseOk(d2, r.src);
  }

  lemma {:induction false} RearrangedHas(c: seq<Route>, c': seq<Route>)
    requires Rearranged(c, c')
    ensures forall k :: Has(c, k) <==> Has(c', k)
  {
  }

  lemma {:induction false} DropKeys(d: Dest, k: Key)
    requires DestOk(d) && Has(d.chain, k)
    ensures forall k' :: Has(Drop(d, k).chain, k') <==> Has(d.chain, k') && k' != k
  {
    var d1 := Drop(d, k);
    forall k' ensures Has(d1.chain, k') <==> Has(d.chain, k') && k' != k {
      HasIff(d.chain, k');
      HasIff(d1.chain, k');
      if Has(d.chain, k') && k' != k {
        var j := Index(d.chain, k');
        var i := Index(d.chain, k);
        assert d1.chain[if j < i then j else j - 1] == d.chain[j];
      }
    }
  }

  lemma {:induction false} RouteLostLength(d: Dest, now: int, sm: Key -> int, kernelOk: bool)
    ensures |RouteLost(d, now, sm, kernelOk).chain| == |d.chain|
  {
  }

  /** Changing metrics and reconsidering, as for a neighbour whose cost changed. */
  lemma {:induction false} ChangeMetricOk(d: Dest, k: Key, refmetric: u16, cost: u16, add: u16, kernelOk: bool)
    requires DestOk(d) && Has(d.chain, k)
    ensures DestOk(d.(chain := Put(d.chain, k, ChangeMetric(Get(d.chain, k), refmetric, cost, add, kernelOk))))
  {
    var i := Index(d.chain, k);
    var c' := Put(d.chain, k, ChangeMetric(Get(d.chain, k), refmetric, cost, add, kernelOk));
    forall id ensures Refs(c', id) == Refs(d.chain, id) {
      RefsPut(d.chain, i, c'[i], id);
    }
  }

  /** A referenced source is never freed, however old it is. */
  lemma {:induction false} ExpireSourcesOk(d: Dest, now: int)
    requires DestOk(d)
    ensures DestOk(d.(sources := ExpireSources(d.sources, now)))
    ensures forall r | r in d.chain :: r.src in ExpireSources(d.sources, now)
  {
    forall r | r in d.chain ensures r.src in ExpireSources(d.sources, now) {
      RefsPositive(d.chain, r);
    }
  }

  /** The destination becomes redistributed: its installed route, if any, is uninstalled. */
  function AddXroute(d: Dest): Dest {
    d.(xroute := true,
       chain := if Installed(d.chain).Some? then Uninstall(d.chain, d.chain[0].key) else d.chain)
  }

  lemma {:induction false} AddXrouteOk(d: Dest)
    requires DestOk(d)
    ensures DestOk(AddXroute(d)) && Rearranged(d.chain, AddXroute(d).chain)
  {
    SelfRearranged(d.chain);
    if Installed(d.chain).Some? {
      IndexUnique(d.chain, d.chain[0].key, 0);
      FlagRearranged(d.chain, 0, false);
      var c' := d.chain[0 := d.chain[0].(installed := false)];
      assert Uninstall(d.chain, d.chain[0].key) == c';
      ReselectedCounted(d, d.(chain := c'), None) by {
        assert ChainOk(c');
      }
    } else {
      assert forall r | r in d.chain :: !r.installed;
    }
  }

  // ---- Selection

  predicate IsBest(d: Dest, i: nat, upto: nat, now: int, sm: Key -> int, feasible: bool, exclude: Option<nat>)
    requires i < upto <= |d.chain|
  {
    && Acceptable(d, d.chain[i], now, feasible, exclude)
    && (forall j | 0 <= j < upto && Acceptable(d, d.chain[j], now, feasible, exclude) ::
          sm(d.chain[i].key) <= sm(d.chain[j].key))
    && (forall j | 0 <= j < i && Acceptable(d, d.chain[j], now, feasible, exclude) ::
          sm(d.chain[i].key) < sm(d.chain[j].key))
  }

  lemma {:induction false} BestFromOk(d: Dest, from: nat, best: Option<nat>, now: int, sm: Key -> int,
                                      feasible: bool, exclude: Option<nat>)
    requires from <= |d.chain| && (best.Some? ==> best.value < from)
    requires if best.Some? then IsBest(d, best.value, from, now, sm, feasible, exclude)
             else forall j | 0 <= j < from :: !Acceptable(d, d.chain[j], now, feasible, exclude)
    ensures
      var r := BestFrom(d, from, best, now, sm, feasible, exclude);
      if r.Some? then IsBest(d, r.value, |d.chain|, now, sm, feasible, exclude)
      else forall j | 0 <= j < |d.chain| :: !Acceptable(d, d.chain[j], now, feasible, exclude)
    decreases |d.chain| - from
  {
    if from < |d.chain| {
      var r := d.chain[from];
      var better := Acceptable(d, r, now, feasible, exclude)
                    && (best.None? || sm(r.key) < sm(d.chain[best.value].key));
      BestFromOk(d, from + 1, if better then Some(from) else best, now, sm, feasible, exclude);
    }
  }

  /** The route found has the least smoothed metric of all acceptable ones, and is the first such. */
  lemma {:induction false} FindBestIsMinimum(d: Dest, now: int, sm: Key -> int, feasible: bool, exclude: Option<nat>)
    ensures
      var r := FindBest(d, now, sm, feasible, exclude);
      if r.Some? then IsBest(d, r.value, |d.chain|, now, sm, feasible, exclude)
      else forall j | 0 <= j < |d.chain| :: !Acceptable(d, d.chain[j], now, feasible, exclude)
  {
    BestFromOk(d, 0, None, now, sm, feasible, exclude);
  }
}
