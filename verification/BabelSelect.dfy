/** What route selection promises: the strong order of routes, hysteresis, and the best route after a loss. */
module BabelSelect {
  import opened Basics
  import opened Address
  import opened BabelRoute
  import opened BabelSlot

  // ---- Metrics

  /** A metric is the exact sum of its parts as long as that is finite. */
  lemma {:induction false} MetricIsSum(r: Route)
    ensures Metric(r) < INFINITY ==> Metric(r) == r.refmetric + r.cost + r.add
    ensures Metric(r) >= INFINITY <==> r.refmetric + r.cost + r.add >= INFINITY
  {
  }

  /** Where links do not interfere, the cost counts by 256ths, rounded to the nearest, and always for something. */
  lemma {:induction false} NoninterferingRounds(r: Route, diversityFactor: nat)
    ensures
      var m := NoninterferingMetric(r, diversityFactor);
      var part := m - r.refmetric - r.add;
      m < INFINITY ==>
        || -128 <= diversityFactor * r.cost - 256 * part < 128
        || (m == r.refmetric + 1 && r.add + (diversityFactor * r.cost + 128) / 256 == 0)
  {
    var n: nat := diversityFactor * r.cost;
    assert -128 <= n - 256 * ((n + 128) / 256) < 128;
  }

  /** A metric change takes effect unless the route is installed, usable before but not after or the other way round,
      and the kernel refuses. */
  lemma {:induction false} ChangeTakesEffect(r: Route, refmetric: u16, cost: u16, add: u16, kernelOk: bool)
    ensures
      var r' := ChangeMetric(r, refmetric, cost, add, kernelOk);
      var new' := r.(refmetric := refmetric, cost := cost, add := add);
      r' == if r.installed && (Metric(r) < INFINITY) != (Metric(new') < INFINITY) && !kernelOk then r else new'
  {
  }

  // ---- Distances

  /** A distance binds for 200 seconds after it was last advertised, and lapses then. */
  lemma {:induction false} DistanceLapses(s: Source, seqno: u16, metric: u16, sent: int, refmetric: u16, now: int)
    requires metric < INFINITY && refmetric < INFINITY
    ensures
      var t := UpdateSource(s, seqno, metric, sent);
      refmetric >= t.metric ==> (Feasible(t, t.seqno, refmetric, now) <==> now > sent + 200)
  {
  }

  /**
   Collection drops exactly the sources that no route uses and that were not advertised for more than 200 seconds; the
   others keep their distances, and none is left with a time in the future.
   */
  lemma {:induction false} CollectedIff(sources: Sources, now: int, id: RouterId)
    ensures
      var left := ExpireSources(sources, now);
      && (id in left <==> id in sources && (sources[id].count > 0 || sources[id].time >= now - 200))
      && (id in left ==> left[id].time <= now && left[id].(time := sources[id].time) == sources[id]
                         && (sources[id].time <= now ==> left[id] == sources[id]))
  {
  }

  // ---- Considering a route

  /** The strong order: no worse in metric, and strictly better in smoothed metric. */
  predicate Dominates(r: Route, cur: Route, sm: Key -> int) { Metric(r) <= Metric(cur) && sm(r.key) < sm(cur.key) }

  /**
   When a route replaces the installed one: it is feasible, nothing is redistributed and the kernel agrees; and there
   is none to replace, or that is retracted and this one is not, or this one dominates it.
   */
  predicate Replaces(d: Dest, r: Route, now: int, sm: Key -> int, kernelOk: bool) {
    && !d.xroute && kernelOk && RouteFeasible(d, r, now)
    && match Installed(d.chain)
       case None => true
       case Some(cur) => if Metric(cur) < INFINITY then Dominates(r, cur, sm) else Metric(r) < INFINITY
  }

  lemma {:induction false} ConsiderIff(d: Dest, k: Key, now: int, sm: Key -> int, kernelOk: bool)
    requires Exclusive(d) && Has(d.chain, k) && !Get(d.chain, k).installed
    ensures
      var r, e := Get(d.chain, k), ConsiderBy(d, k, now, sm, kernelOk);
      if Replaces(d, r, now, sm, kernelOk) then Installed(e.chain) == Some(r.(installed := true)) && e != d else e == d
  {
    hide Feasible, Metric;
    var cur := Installed(d.chain);
    ConsiderInstalls(d, k, now, cur.Some? && sm(cur.value.key) > sm(k), kernelOk);
  }

  /** A usable route is only ever given up for one that dominates it. */
  lemma {:induction false} ConsiderImproves(d: Dest, k: Key, now: int, sm: Key -> int, kernelOk: bool)
    requires Exclusive(d) && Installed(d.chain).Some? && Metric(Installed(d.chain).value) < INFINITY
    ensures
      var cur, e := Installed(d.chain).value, ConsiderBy(d, k, now, sm, kernelOk);
      && Exclusive(e) && Installed(e.chain).Some?
      && (e != d ==> Dominates(Installed(e.chain).value, cur, sm))
  {
    ConsiderByReselects(d, k, now, sm, kernelOk);
    if Has(d.chain, k) && !Get(d.chain, k).installed {
      ConsiderIff(d, k, now, sm, kernelOk);
      hide ConsiderBy, Exclusive, RouteFeasible;
    } else {
      ConsiderNothing(d, k, now, sm, kernelOk);
      hide ConsiderBy, Exclusive;
    }
  }

  lemma {:induction false} ConsiderNothing(d: Dest, k: Key, now: int, sm: Key -> int, kernelOk: bool)
    requires !Has(d.chain, k) || Get(d.chain, k).installed
    ensures ConsiderBy(d, k, now, sm, kernelOk) == d
  {
  }

  // ---- Hysteresis

  /** Routes are considered one after the other, in any order and any number of times. */
  function ConsiderAll(d: Dest, ks: seq<Key>, now: int, sm: Key -> int, kernel: nat -> bool): Dest
    decreases |ks|
  {
    if |ks| == 0 then d
    else ConsiderBy(ConsiderAll(d, ks[..|ks| - 1], now, sm, kernel), ks[|ks| - 1], now, sm, kernel(|ks|))
  }

  /** As long as metrics and smoothed metrics stay, the route in use is the same, or one that dominates it. */
  lemma {:induction false} Hysteresis(d: Dest, ks: seq<Key>, now: int, sm: Key -> int, kernel: nat -> bool)
    requires Exclusive(d) && Installed(d.chain).Some? && Metric(Installed(d.chain).value) < INFINITY
    ensures
      var cur, e := Installed(d.chain).value, ConsiderAll(d, ks, now, sm, kernel);
      && Exclusive(e) && Installed(e.chain).Some?
      && (Installed(e.chain).value == cur || Dominates(Installed(e.chain).value, cur, sm))
    decreases |ks|
  {
    hide ConsiderBy, Exclusive;
    if |ks| > 0 {
      var before := ConsiderAll(d, ks[..|ks| - 1], now, sm, kernel);
      Hysteresis(d, ks[..|ks| - 1], now, sm, kernel);
      ConsiderImproves(before, ks[|ks| - 1], now, sm, kernel(|ks|));
    }
  }

  /** So a route that was given up does not come back: selection does not oscillate. */
  lemma {:induction false} NoReturn(d: Dest, before: seq<Key>, after: seq<Key>, now: int, sm: Key -> int,
                                    kernel: nat -> bool, later: nat -> bool)
    requires Exclusive(d) && Installed(d.chain).Some? && Metric(Installed(d.chain).value) < INFINITY
    ensures
      var cur := Installed(d.chain).value;
      var mid := ConsiderAll(d, before, now, sm, kernel);
      var e := ConsiderAll(mid, after, now, sm, later);
      && Installed(mid.chain).Some? && Installed(e.chain).Some?
      && (Installed(mid.chain).value.key != cur.key ==> Installed(e.chain).value.key != cur.key)
  {
    hide ConsiderAll, Exclusive;
    Hysteresis(d, before, now, sm, kernel);
    Hysteresis(ConsiderAll(d, before, now, sm, kernel), after, now, sm, later);
  }

  // ---- After a change or a loss

  /** `r` is the first of those that are feasible, not expired and have the least smoothed metric. */
  predicate BestIn(d: Dest, r: Route, now: int, sm: Key -> int) {
    && r in d.chain && RouteFeasible(d, r, now) && !Expired(r, now)
    && forall x | x in d.chain && RouteFeasible(d, x, now) && !Expired(x, now) :: sm(r.key) <= sm(x.key)
  }

  lemma {:induction false} FindBestIs(d: Dest, now: int, sm: Key -> int)
    ensures
      var best := FindBest(d, now, sm, true, None);
      if best.Some? then BestIn(d, d.chain[best.value], now, sm)
      else forall x | x in d.chain :: !(RouteFeasible(d, x, now) && !Expired(x, now))
  {
    hide RouteFeasible, FindBest;
    FindBestIsMinimum(d, now, sm, true, None);
    var best := FindBest(d, now, sm, true, None);
    forall x | x in d.chain && RouteFeasible(d, x, now) && !Expired(x, now)
      ensures best.Some? && sm(d.chain[best.value].key) <= sm(x.key)
    {
      var j :| 0 <= j < |d.chain| && d.chain[j] == x;
      assert Acceptable(d, d.chain[j], now, true, None);
    }
  }

  /** A neighbour that is left out is left out, and unfeasible routes are taken where that is asked. */
  lemma {:induction false} FindBestExcluding(d: Dest, now: int, sm: Key -> int, neigh: nat)
    ensures
      var best := FindBest(d, now, sm, false, Some(neigh));
      && (best.Some? ==> d.chain[best.value].key.neigh != neigh && !Expired(d.chain[best.value], now))
      && forall x | x in d.chain && x.key.neigh != neigh && !Expired(x, now) ::
           best.Some? && sm(d.chain[best.value].key) <= sm(x.key)
  {
    hide RouteFeasible, FindBest;
    FindBestIsMinimum(d, now, sm, false, Some(neigh));
    var best := FindBest(d, now, sm, false, Some(neigh));
    forall x | x in d.chain && x.key.neigh != neigh && !Expired(x, now)
      ensures best.Some? && sm(d.chain[best.value].key) <= sm(x.key)
    {
      var j :| 0 <= j < |d.chain| && d.chain[j] == x;
      assert Acceptable(d, d.chain[j], now, false, Some(neigh));
    }
  }

  /** When no route is installed, losing one installs the best that is left, if any. */
  lemma {:induction false} LostInstallsBest(d: Dest, now: int, sm: Key -> int)
    requires Exclusive(d) && Installed(d.chain).None? && !d.xroute
    ensures
      var e := RouteLost(d, now, sm, true);
      if exists x :: x in d.chain && RouteFeasible(d, x, now) && !Expired(x, now)
      then Installed(e.chain).Some? && BestIn(d, Installed(e.chain).value.(installed := false), now, sm)
      else e == d
  {
    hide RouteFeasible, FindBest, Metric, ConsiderBy;
    var best := FindBest(d, now, sm, true, None);
    FindBestIs(d, now, sm);
    if best.Some? {
      var r := d.chain[best.value];
      assert !r.installed;
      IndexUnique(d.chain, r.key, best.value);
      ConsiderIff(d, r.key, now, sm, true);
      assert r.(installed := true).(installed := false) == r;
    }
  }

  lemma {:induction false} BestUnique(d: Dest, i: nat, now: int, sm: Key -> int)
    requires i < |d.chain| && IsBest(d, i, |d.chain|, now, sm, true, None)
    ensures FindBest(d, now, sm, true, None) == Some(i)
  {
    hide Acceptable, FindBest;
    FindBestIsMinimum(d, now, sm, true, None);
  }

  /**
   The installed route has changed: the best one takes its place exactly if its metric is lower and, unless the
   installed one is retracted, its smoothed metric too.
   */
  lemma {:induction false} ChangedInstalled(d: Dest, i: nat, now: int, sm: Key -> int, kernel1: bool, kernel2: bool)
    requires Exclusive(d) && Installed(d.chain).Some?
    requires i < |d.chain| && IsBest(d, i, |d.chain|, now, sm, true, None)
    ensures Has(d.chain, d.chain[0].key)
    ensures
      var r, b := d.chain[0], d.chain[i];
      var e := RouteChanged(d, r.key, now, sm, kernel1, kernel2);
      if kernel1 && Metric(b) < Metric(r) && (Metric(r) < INFINITY ==> sm(b.key) < sm(r.key))
      then Installed(e.chain) == Some(b.(installed := true)) else e == d
  {
    var r, b := d.chain[0], d.chain[i];
    IndexUnique(d.chain, r.key, 0);
    IndexUnique(d.chain, b.key, i);
    BestUnique(d, i, now, sm);
    assert r in d.chain;
    if Metric(b) < Metric(r) {
      ConsiderIff(d, b.key, now, sm, kernel1);
      var e := ConsiderBy(d, b.key, now, sm, kernel1);
      if e != d {
        StaysAway(d, e, r, b, now, sm, kernel1, kernel2);
      }
      hide ConsiderBy, FindBest, Metric, Exclusive, IsBest, RouteFeasible;
    } else {
      hide ConsiderBy, FindBest, Metric, Exclusive, IsBest, RouteFeasible;
    }
  }

  /** The route that gave way does not dominate the one that took its place. */
  lemma {:induction false} StaysAway(d: Dest, e: Dest, r: Route, b: Route, now: int, sm: Key -> int, kernel1: bool,
                                     kernel2: bool)
    requires Exclusive(d) && Installed(d.chain) == Some(r) && b in d.chain && Metric(b) < Metric(r)
    requires e == ConsiderBy(d, b.key, now, sm, kernel1) && Installed(e.chain) == Some(b.(installed := true))
    ensures !(Has(e.chain, r.key) && Get(e.chain, r.key).installed)
    ensures ConsiderBy(e, r.key, now, sm, kernel2) == e
  {
    ConsiderByReselects(d, b.key, now, sm, kernel1);
    if Has(e.chain, r.key) {
      var r1 := Get(e.chain, r.key);
      RearrangedRoute(d, e, r, r1);
      assert b.key != r.key;
      assert e.chain[0].key == b.key;
      ConsiderIff(e, r.key, now, sm, kernel2);
    } else {
      ConsiderNothing(e, r.key, now, sm, kernel2);
    }
  }

  /** A route is the same but for the installed flag wherever it has moved. */
  lemma {:induction false} RearrangedRoute(d: Dest, e: Dest, r: Route, r1: Route)
    requires Exclusive(d) && Rearranged(d.chain, e.chain) && r in d.chain && r1 in e.chain && r1.key == r.key
    ensures r1.(installed := r.installed) == r
  {
    var x :| x in d.chain && (x == r1.(installed := true) || x == r1.(installed := false));
    var i, j :| 0 <= i < |d.chain| && 0 <= j < |d.chain| && d.chain[i] == x && d.chain[j] == r;
    assert i == j;
  }

  /** Another route has changed: it is considered, whatever it was before. */
  lemma {:induction false} ChangedOther(d: Dest, k: Key, now: int, sm: Key -> int, kernel1: bool, kernel2: bool)
    requires Exclusive(d) && Has(d.chain, k) && !Get(d.chain, k).installed
    ensures
      var r, e := Get(d.chain, k), RouteChanged(d, k, now, sm, kernel1, kernel2);
      if Replaces(d, r, now, sm, kernel2) then Installed(e.chain) == Some(r.(installed := true)) else e == d
  {
    ConsiderIff(d, k, now, sm, kernel2);
  }

  // ---- What an update comes to

  /** The source of the update admits it. */
  predicate Admits(d: Dest, u: Update, now: int) {
    u.id in d.sources ==> Feasible(d.sources[u.id], u.seqno, u.refmetric, now)
  }

  /** Reselection after an update changes flags and order of what was stored. */
  lemma {:induction false} AfterRearranges(d: Dest, k: Key, was: Option<RouterId>, lost: bool, now: int, sm: Key -> int,
                                           kernel: Kernel)
    requires Exclusive(d) && (was.Some? ==> Has(d.chain, k))
    ensures Rearranged(d.chain, AfterUpdate(d, k, was, lost, now, sm, kernel).chain)
  {
    hide Rearranged, RouteChanged, RouteLost, ConsiderBy;
    SelfRearranged(d.chain);
    if was.Some? {
      var d2 := RouteChanged(d, k, now, sm, kernel.first, kernel.second);
      RouteChangedReselects(d, k, now, sm, kernel.first, kernel.second);
      if lost {
        RouteLostReselects(d2, now, sm, kernel.third);
        RearrangedTransitive(d.chain, d2.chain, RouteLost(d2, now, sm, kernel.third).chain);
      }
    } else if Has(d.chain, k) {
      ConsiderByReselects(d, k, now, sm, kernel.first);
    }
  }

  /** The stored route is found after reselection as well, with the same values. */
  lemma {:induction false} StoredStays(d: Dest, e: Dest, r: Route)
    requires Exclusive(d) && Rearranged(d.chain, e.chain) && r in d.chain
    ensures Has(e.chain, r.key) && Get(e.chain, r.key).(installed := r.installed) == r
  {
    HasIff(d.chain, r.key);
    RearrangedHas(d.chain, e.chain);
    RearrangedRoute(d, e, r, Get(e.chain, r.key));
  }

  /** Whatever is selected afterwards, a known route has the values of the update, and the time if it was accepted. */
  lemma {:induction false} UpdateKnown(d: Dest, dst: Prefix, myid: RouterId, u: Update, now: int, sm: Key -> int,
                                       keep: bool, kernel: Kernel)
    requires DestOk(d) && !Ignored(dst, myid, u) && Has(d.chain, u.key)
    ensures
      var e := UpdateRoute(d, dst, myid, u, now, sm, keep, kernel);
      && Has(e.chain, u.key)
      && var r0, r := Get(d.chain, u.key), Get(e.chain, u.key);
        && r.src == u.id && r.seqno == u.seqno && r.hold == u.hold && r.dst == r0.dst
        && (kernel.metric ==> r.refmetric == u.refmetric && r.cost == u.cost && r.add == u.add)
        && r.time == if (Admits(d, u, now) || keep) && u.refmetric < INFINITY then now else r0.time
  {
    var c := UpdateCore(d, dst, u, now, keep, kernel.metric);
    UpdateCoreOk(d, dst, u, now, keep, kernel.metric);
    UpdateCoreHas(d, dst, u, now, keep, kernel.metric);
    var i := Index(d.chain, u.key);
    UpdateExistingShape(d, dst, u, now, keep, kernel.metric);
    var r := c.chain[i];
    assert r in c.chain && Index(c.chain, u.key) < |c.chain|;
    assert r.seqno == u.seqno && r.hold == u.hold;
    var refreshed := (Admits(d, u, now) || keep) && u.refmetric < INFINITY;
    assert r.time == if refreshed then now else Get(d.chain, u.key).time by {
      NewSourceAdmits(u, now);
    }
    var was := FormerSource(d, u);
    hide UpdateCore, AfterUpdate, Exclusive, Rearranged, DestOk;
    AfterRearranges(c, u.key, was, LosesRoute(d, u, now), now, sm, kernel);
    StoredStays(c, AfterUpdate(c, u.key, was, LosesRoute(d, u, now), now, sm, kernel), r);
  }

  /** A source heard of for the first time admits everything. */
  lemma {:induction false} NewSourceAdmits(u: Update, now: int)
    ensures Feasible(Source(u.seqno, INFINITY, now, 0), u.seqno, u.refmetric, now)
  {
  }

  /** An unknown route is stored exactly if the update is finite, and feasible or to be kept in any case. */
  lemma {:induction false} UpdateNew(d: Dest, dst: Prefix, myid: RouterId, u: Update, now: int, sm: Key -> int,
                                     keep: bool, kernel: Kernel)
    requires DestOk(d) && !Ignored(dst, myid, u) && !Has(d.chain, u.key)
    ensures
      var e := UpdateRoute(d, dst, myid, u, now, sm, keep, kernel);
      && (Has(e.chain, u.key) <==> u.refmetric < INFINITY && (Admits(d, u, now) || keep))
      && (Has(e.chain, u.key) ==>
            Get(e.chain, u.key).(installed := false)
            == Route(dst, u.key, u.id, u.seqno, u.refmetric, u.cost, u.add, now, u.hold, false))
  {
    var c := UpdateCore(d, dst, u, now, keep, kernel.metric);
    UpdateCoreOk(d, dst, u, now, keep, kernel.metric);
    NewSourceAdmits(u, now);
    HasIff(c.chain, u.key);
    HasIff(d.chain, u.key);
    var was := FormerSource(d, u);
    assert Has(c.chain, u.key) <==> u.refmetric < INFINITY && (Admits(d, u, now) || keep) by {
      assert NewRoute(dst, u, now).key == u.key;
      if c.chain != d.chain {
        assert c.chain[|d.chain|] in c.chain;
      }
    }
    AfterRearranges(c, u.key, was, LosesRoute(d, u, now), now, sm, kernel);
    var e := AfterUpdate(c, u.key, was, LosesRoute(d, u, now), now, sm, kernel);
    RearrangedHas(c.chain, e.chain);
    if Has(c.chain, u.key) {
      assert NewRoute(dst, u, now) in c.chain;
      StoredStays(c, e, NewRoute(dst, u, now));
    }
  }

  /** A route that was just refreshed is usable for its hold time and not a second longer. */
  lemma {:induction false} FreshUntil(d: Dest, dst: Prefix, myid: RouterId, u: Update, now: int, sm: Key -> int,
                                      keep: bool, kernel: Kernel, later: int)
    requires DestOk(d) && !Ignored(dst, myid, u) && u.refmetric < INFINITY && Admits(d, u, now)
    ensures
      var e := UpdateRoute(d, dst, myid, u, now, sm, keep, kernel);
      Has(e.chain, u.key) && (Expired(Get(e.chain, u.key), later) <==> later > now + u.hold)
  {
    hide UpdateRoute, Feasible;
    if Has(d.chain, u.key) {
      UpdateKnown(d, dst, myid, u, now, sm, keep, kernel);
    } else {
      UpdateNew(d, dst, myid, u, now, sm, keep, kernel);
    }
  }

  /** The first feasible route to a destination is used. */
  lemma {:induction false} FirstIsUsed(d: Dest, dst: Prefix, myid: RouterId, u: Update, now: int, sm: Key -> int,
                                       keep: bool, kernel: Kernel)
    requires DestOk(d) && !Ignored(dst, myid, u) && !Has(d.chain, u.key) && Installed(d.chain).None? && !d.xroute
    requires u.refmetric < INFINITY && Admits(d, u, now) && kernel.first
    ensures
      var e := UpdateRoute(d, dst, myid, u, now, sm, keep, kernel);
      Installed(e.chain).Some? && Installed(e.chain).value.key == u.key
  {
    var c := UpdateCore(d, dst, u, now, keep, kernel.metric);
    var r := NewRoute(dst, u, now);
    UpdateCoreOk(d, dst, u, now, keep, kernel.metric);
    NewSourceAdmits(u, now);
    assert c.chain == d.chain + [r] && Installed(c.chain).None?;
    assert c.chain[|d.chain|] == r && r.key == u.key;
    IndexUnique(c.chain, u.key, |d.chain|);
    assert RouteFeasible(c, r, now);
    ConsiderIff(c, u.key, now, sm, kernel.first);
    hide ConsiderBy, UpdateCore, RouteFeasible, DestOk;
  }

  /** A route in use whose source stays the same, or admits the update, gives way only to another. */
  lemma {:induction false} UpdateKeepsUse(d: Dest, dst: Prefix, myid: RouterId, u: Update, now: int, sm: Key -> int,
                                          keep: bool, kernel: Kernel)
    requires DestOk(d) && !Ignored(dst, myid, u) && Has(d.chain, u.key) && Get(d.chain, u.key).installed
    requires u.id == Get(d.chain, u.key).src || Admits(d, u, now)
    ensures Installed(UpdateRoute(d, dst, myid, u, now, sm, keep, kernel).chain).Some?
  {
    var c := UpdateCore(d, dst, u, now, keep, kernel.metric);
    UpdateCoreOk(d, dst, u, now, keep, kernel.metric);
    UpdateExistingShape(d, dst, u, now, keep, kernel.metric);
    UpdateCoreHas(d, dst, u, now, keep, kernel.metric);
    NewSourceAdmits(u, now);
    assert Index(d.chain, u.key) == 0 && c.chain[0].installed && !LosesRoute(d, u, now);
    hide UpdateCore, DestOk, Feasible, LosesRoute;
    ChangedStaysInstalled(c, u.key, now, sm, kernel.first, kernel.second);
    hide RouteChanged;
  }

  /** Reselection after a change never leaves a destination without a route in use that had one. */
  lemma {:induction false} ChangedStaysInstalled(d: Dest, k: Key, now: int, sm: Key -> int,
                                                 kernel1: bool, kernel2: bool)
    requires Exclusive(d) && Has(d.chain, k) && Installed(d.chain).Some?
    ensures Installed(RouteChanged(d, k, now, sm, kernel1, kernel2).chain).Some?
  {
    hide ConsiderBy, Exclusive, FindBest;
    var d1 := TryBetter(d, k, now, sm, kernel1);
    TryBetterReselects(d, k, now, sm, kernel1);
    var best := FindBest(d, now, sm, true, None);
    if best.Some? {
      ConsiderStaysInstalled(d, d.chain[best.value].key, now, sm, kernel1);
    }
    ConsiderStaysInstalled(d1, k, now, sm, kernel2) by {
      assert Exclusive(d1);
    }
  }

  lemma {:induction false} ConsiderStaysInstalled(d: Dest, k: Key, now: int, sm: Key -> int, kernelOk: bool)
    requires Exclusive(d) && Installed(d.chain).Some?
    ensures Installed(ConsiderBy(d, k, now, sm, kernelOk).chain).Some?
  {
    if Has(d.chain, k) && !Get(d.chain, k).installed {
      ConsiderIff(d, k, now, sm, kernelOk);
    } else {
      ConsiderNothing(d, k, now, sm, kernelOk);
    }
  }

  /**
   A route in use whose update comes from another source that does not admit it is given up, and the best one that is
   left, if any, takes its place.
   */
  lemma {:induction false} UpdateLoses(d: Dest, dst: Prefix, myid: RouterId, u: Update, now: int, sm: Key -> int,
                                       keep: bool, kernel: Kernel)
    requires DestOk(d) && !Ignored(dst, myid, u) && Has(d.chain, u.key) && Get(d.chain, u.key).installed
    requires u.id != Get(d.chain, u.key).src && !Admits(d, u, now) && kernel.third
    ensures
      var c, e := UpdateCore(d, dst, u, now, keep, kernel.metric), UpdateRoute(d, dst, myid, u, now, sm, keep, kernel);
      && Has(e.chain, u.key) && !Get(e.chain, u.key).installed
      && if exists x :: x in c.chain && RouteFeasible(c, x, now) && !Expired(x, now)
         then Installed(e.chain).Some? && BestIn(c, Installed(e.chain).value.(installed := false), now, sm)
         else Installed(e.chain).None?
  {
    var c := UpdateCore(d, dst, u, now, keep, kernel.metric);
    UpdateCoreOk(d, dst, u, now, keep, kernel.metric);
    UpdateExistingShape(d, dst, u, now, keep, kernel.metric);
    UpdateCoreHas(d, dst, u, now, keep, kernel.metric);
    assert Index(d.chain, u.key) == 0 && !c.chain[0].installed && LosesRoute(d, u, now);
    IndexUnique(c.chain, u.key, 0);
    assert !RouteFeasible(c, c.chain[0], now) && !c.xroute;
    ConsiderIff(c, u.key, now, sm, kernel.second);
    assert RouteChanged(c, u.key, now, sm, kernel.first, kernel.second) == c;
    LostInstallsBest(c, now, sm);
    RouteLostReselects(c, now, sm, true);
    var e := RouteLost(c, now, sm, true);
    RearrangedHas(c.chain, e.chain);
    hide UpdateCore, RouteFeasible, FindBest, Consider, Metric, DestOk;
    LostNotUsed(c, e, now, sm);
  }

  /** A route that is not feasible is not the best one, and so not in use. */
  lemma {:induction false} LostNotUsed(c: Dest, e: Dest, now: int, sm: Key -> int)
    requires Exclusive(c) && Exclusive(e) && |c.chain| > 0 && !RouteFeasible(c, c.chain[0], now)
    requires Rearranged(c.chain, e.chain) && Has(e.chain, c.chain[0].key) && Installed(c.chain).None?
    requires e == c || (Installed(e.chain).Some? && BestIn(c, Installed(e.chain).value.(installed := false), now, sm))
    ensures !Get(e.chain, c.chain[0].key).installed
  {
    hide RouteFeasible, Rearranged;
  }

  /** What is ignored altogether: our own routes, martian destinations, and what the input filter forbids. */
  lemma {:induction false} IgnoredIff(d: Dest, dst: Prefix, myid: RouterId, u: Update, now: int, sm: Key -> int,
                                      keep: bool, kernel: Kernel)
    requires DestOk(d) && u.id !in d.sources
    ensures
      UpdateRoute(d, dst, myid, u, now, sm, keep, kernel) == d <==> u.id == myid || Martian(dst) || u.add >= INFINITY
  {
    hide Martian;
    if !Ignored(dst, myid, u) {
      var c := UpdateCore(d, dst, u, now, keep, kernel.metric);
      UpdateCoreOk(d, dst, u, now, keep, kernel.metric);
      UpdateCoreHas(d, dst, u, now, keep, kernel.metric);
      assert u.id in c.sources;
      AfterKeepsSources(c, u.key, FormerSource(d, u), LosesRoute(d, u, now), now, sm, kernel);
      hide UpdateCore, AfterUpdate;
    }
  }

  lemma {:induction false} AfterKeepsSources(d: Dest, k: Key, was: Option<RouterId>, lost: bool, now: int,
                                             sm: Key -> int, kernel: Kernel)
    requires Exclusive(d) && (was.Some? ==> Has(d.chain, k))
    ensures AfterUpdate(d, k, was, lost, now, sm, kernel).sources.Keys == d.sources.Keys
  {
    hide RouteChanged, RouteLost, ConsiderBy, Rearranged, Exclusive;
    if was.Some? {
      var d2 := RouteChanged(d, k, now, sm, kernel.first, kernel.second);
      RouteChangedReselects(d, k, now, sm, kernel.first, kernel.second);
      if lost {
        RouteLostReselects(d2, now, sm, kernel.third);
      }
    } else if Has(d.chain, k) {
      ConsiderByReselects(d, k, now, sm, kernel.first);
    }
  }

  /** When the route in use is flushed, the best one that is left, if any, takes its place. */
  lemma {:induction false} FlushInstallsBest(d: Dest, k: Key, now: int, sm: Key -> int)
    requires DestOk(d) && Has(d.chain, k) && Get(d.chain, k).installed
    ensures
      var left, e := Drop(d, k), FlushRoute(d, k, now, sm, true);
      if exists x :: x in left.chain && RouteFeasible(left, x, now) && !Expired(x, now)
      then Installed(e.chain).Some? && BestIn(left, Installed(e.chain).value.(installed := false), now, sm)
      else e.chain == left.chain
  {
    var left := Drop(d, k);
    DropOk(d, k);
    assert Index(d.chain, k) == 0;
    assert !d.xroute && forall r | r in left.chain :: !r.installed;
    hide RouteFeasible, RouteLost, DestOk;
    LostInstallsBest(left, now, sm);
  }
}
