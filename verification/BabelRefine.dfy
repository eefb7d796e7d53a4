/** The operations of route.c are runs of the steps that the network is made of. */
module BabelRefine {
  import opened Basics
  import opened Seqno
  import opened Address
  import opened BabelRoute
  import opened BabelNet
  import Slot = BabelSlot
  import opened BabelRetract

  // ---- Reference counts do not matter to route selection

  /** The same but for reference counts. */
  predicate SameButCounts(a: Sources, b: Sources) {
    a.Keys == b.Keys && forall id | id in a :: a[id].(count := 0) == b[id].(count := 0)
  }

  lemma {:induction false} ReleaseSame(sources: Sources, id: RouterId)
    ensures SameButCounts(sources, Release(sources, id))
  {
  }

  lemma {:induction false} SameFeasible(d: Dest, b: Sources, r: Route, now: int)
    requires SameButCounts(d.sources, b)
    ensures RouteFeasible(d, r, now) == RouteFeasible(d.(sources := b), r, now)
  {
    if r.src in d.sources {
      assert d.sources[r.src].(count := 0) == b[r.src].(count := 0);
    }
  }

  lemma {:induction false} SameConsider(d: Dest, b: Sources, k: Key, now: int, smoothedWorse: bool, kernelOk: bool)
    requires SameButCounts(d.sources, b)
    ensures Consider(d.(sources := b), k, now, smoothedWorse, kernelOk)
         == Consider(d, k, now, smoothedWorse, kernelOk).(sources := b)
    ensures Consider(d, k, now, smoothedWorse, kernelOk).sources == d.sources
  {
    hide Feasible, Switch;
    if Has(d.chain, k) {
      SameFeasible(d, b, Get(d.chain, k), now);
    }
  }

  lemma {:induction false} SameBest(d: Dest, b: Sources, from: nat, best: Option<nat>, now: int, sm: Key -> int,
                                    feasible: bool, exclude: Option<nat>)
    requires SameButCounts(d.sources, b) && from <= |d.chain| && (best.Some? ==> best.value < from)
    ensures BestFrom(d.(sources := b), from, best, now, sm, feasible, exclude)
         == BestFrom(d, from, best, now, sm, feasible, exclude)
    decreases |d.chain| - from
  {
    hide RouteFeasible;
    if from < |d.chain| {
      var r := d.chain[from];
      SameFeasible(d, b, r, now);
      var better := Acceptable(d, r, now, feasible, exclude)
                    && (best.None? || sm(r.key) < sm(d.chain[best.value].key));
      SameBest(d, b, from + 1, if better then Some(from) else best, now, sm, feasible, exclude);
    }
  }

  // ---- Runs

  /** A possible sequence of steps from `n` to `m`. */
  ghost predicate Leads(n: Net, steps: seq<Step>, m: Net)
    decreases |steps|
  {
    if |steps| == 0 then n == m else Enabled(n, steps[0]) && Leads(Apply(n, steps[0]), steps[1..], m)
  }

  lemma {:induction false} LeadsOn(n: Net, a: seq<Step>, m: Net, b: seq<Step>, o: Net)
    requires Leads(n, a, m) && Leads(m, b, o)
    ensures Leads(n, a + b, o)
    decreases |a|
  {
    hide Apply, Enabled;
    if |a| == 0 {
      assert a + b == b;
    } else {
      LeadsOn(Apply(n, a[0]), a[1..], m, b, o);
      assert (a + b)[0] == a[0] && (a + b)[1..] == a[1..] + b;
    }
  }

  /** All are reconsiderations at `u`, at time `now`. */
  predicate Reconsiderations(steps: seq<Step>, u: NodeId, now: int) {
    forall st | st in steps :: st.Reconsider? && st.u == u && st.now == now
  }

  /** No stored route has a stale source. */
  predicate NoneStale(d: Dest, now: int) { forall r | r in d.chain :: Fresh(d, r.src, now) }

  /** Nothing stands in the way of reconsidering at `u`: no route's source is stale, and all seqnos are comparable. */
  ghost predicate Calm(n: Net, u: NodeId, now: int)
    requires u in n.nodes
  {
    NoneStale(n.nodes[u].dest, now) && ChainOk(n.nodes[u].dest.chain) && AllWindowed(n)
  }

  /** From `n` to `m` by a run that satisfies the hypotheses of the network. */
  ghost predicate GuardedRun(n: Net, steps: seq<Step>, m: Net) { Run(n, steps) && Exec(n, steps) == m }

  /** To `e` at node `u` by reconsidering routes; by a guarded run where nothing stands in the way. */
  ghost predicate Reselects(n: Net, u: NodeId, steps: seq<Step>, now: int, e: Dest)
    requires u in n.nodes
  {
    && Reconsiderations(steps, u, now) && Leads(n, steps, SetDest(n, u, e))
    && (Calm(n, u, now) ==> GuardedRun(n, steps, SetDest(n, u, e)) && Calm(SetDest(n, u, e), u, now))
  }

  lemma {:induction false} RunOn(n: Net, a: seq<Step>, m: Net, b: seq<Step>, o: Net)
    requires GuardedRun(n, a, m) && GuardedRun(m, b, o)
    ensures GuardedRun(n, a + b, o)
    decreases |a|
  {
    hide Apply, Enabled, Guarded, AllWindowed;
    if |a| == 0 {
      assert a + b == b;
    } else {
      RunOn(Apply(n, a[0]), a[1..], m, b, o);
      assert (a + b)[0] == a[0] && (a + b)[1..] == a[1..] + b;
    }
  }

  lemma {:induction false} OneStep(n: Net, st: Step)
    requires Enabled(n, st) && Guarded(n, st) && AllWindowed(n) && AllWindowed(Apply(n, st))
    ensures GuardedRun(n, [st], Apply(n, st))
  {
    hide Apply, Enabled, Guarded, AllWindowed;
    assert [st][1..] == [];
    assert Run(Apply(n, st), []) && Exec(Apply(n, st), []) == Apply(n, st);
  }

  /** Rearranging the routes of a node keeps the windows of the network. */
  lemma {:induction false} RearrangedWindowed(n: Net, u: NodeId, e: Dest)
    requires AllWindowed(n) && u in n.nodes && e.sources == n.nodes[u].dest.sources
    requires Slot.Rearranged(n.nodes[u].dest.chain, e.chain)
    ensures AllWindowed(SetDest(n, u, e))
  {
    forall s: RouterId ensures Windowed(SetDest(n, u, e), s) {
      assert Windowed(n, s);
      var base: u16 :| Window(n, s, base);
      RearrangedWindow(n, u, e, s, base);
    }
  }

  lemma {:induction false} RearrangedWindow(n: Net, u: NodeId, e: Dest, s: RouterId, base: u16)
    requires Window(n, s, base) && u in n.nodes && e.sources == n.nodes[u].dest.sources
    requires Slot.Rearranged(n.nodes[u].dest.chain, e.chain)
    ensures Window(SetDest(n, u, e), s, base)
  {
    var m := SetDest(n, u, e);
    forall x, r | x in m.nodes && r in m.nodes[x].dest.chain && r.src == s && r.refmetric < INFINITY
      ensures InWindow(base, r.seqno)
    {
      if x == u {
        var y :| y in n.nodes[u].dest.chain && (y == r.(installed := true) || y == r.(installed := false));
        assert y.seqno == r.seqno;
      } else {
        assert r in n.nodes[x].dest.chain;
      }
    }
  }

  lemma {:induction false} RearrangedFresh(d: Dest, e: Dest, now: int)
    requires NoneStale(d, now) && e.sources == d.sources && Slot.Rearranged(d.chain, e.chain)
    ensures NoneStale(e, now)
  {
    forall r | r in e.chain ensures Fresh(e, r.src, now) {
      var y :| y in d.chain && (y == r.(installed := true) || y == r.(installed := false));
      assert Fresh(d, y.src, now) && y.src == r.src;
    }
  }

  /** Considering a route leaves things calm. */
  lemma {:induction false} ConsiderCalm(n: Net, u: NodeId, k: Key, now: int, smoothedWorse: bool, kernelOk: bool)
    requires u in n.nodes && Calm(n, u, now)
    ensures Calm(SetDest(n, u, Consider(n.nodes[u].dest, k, now, smoothedWorse, kernelOk)), u, now)
  {
    var d := n.nodes[u].dest;
    var e := Consider(d, k, now, smoothedWorse, kernelOk);
    SetSame(n, u, e, e);
    if e != d {
      Slot.SwitchOk(d.chain, k, kernelOk);
      RearrangedWindowed(n, u, e);
      RearrangedFresh(d, e, now);
    }
  }

  lemma {:induction false} SetSame(n: Net, u: NodeId, d: Dest, e: Dest)
    requires u in n.nodes
    ensures SetDest(n, u, n.nodes[u].dest) == n
    ensures u in SetDest(n, u, d).nodes && SetDest(n, u, d).nodes[u].dest == d
    ensures SetDest(SetDest(n, u, d), u, e) == SetDest(n, u, e)
  {
    assert n.nodes[u := n.nodes[u].(dest := n.nodes[u].dest)] == n.nodes;
    assert n.nodes[u := n.nodes[u].(dest := d)][u := n.nodes[u].(dest := e)] == n.nodes[u := n.nodes[u].(dest := e)];
  }

  lemma {:induction false} NoSteps(n: Net, u: NodeId, now: int)
    requires u in n.nodes
    ensures Reselects(n, u, [], now, n.nodes[u].dest)
  {
    hide AllWindowed, ChainOk;
    SetSame(n, u, n.nodes[u].dest, n.nodes[u].dest);
  }

  lemma {:induction false} ConsiderSteps(n: Net, u: NodeId, k: Key, now: int, smoothedWorse: bool, kernelOk: bool)
      returns (steps: seq<Step>)
    requires u in n.nodes
    ensures Reselects(n, u, steps, now, Consider(n.nodes[u].dest, k, now, smoothedWorse, kernelOk))
  {
    hide AllWindowed, ChainOk, Consider;
    var d := n.nodes[u].dest;
    if Has(d.chain, k) {
      var st := Reconsider(u, k, now, smoothedWorse, kernelOk);
      steps := [st];
      assert steps[1..] == [];
      var m := SetDest(n, u, Consider(d, k, now, smoothedWorse, kernelOk));
      assert Apply(n, st) == m;
      assert Leads(m, [], m);
      if Calm(n, u, now) {
        ConsiderCalm(n, u, k, now, smoothedWorse, kernelOk);
        OneStep(n, st);
      }
    } else {
      steps := [];
      AbsentConsider(d, k, now, smoothedWorse, kernelOk);
      NoSteps(n, u, now);
    }
  }

  lemma {:induction false} AbsentConsider(d: Dest, k: Key, now: int, smoothedWorse: bool, kernelOk: bool)
    requires !Has(d.chain, k)
    ensures Consider(d, k, now, smoothedWorse, kernelOk) == d
  {
  }

  lemma {:induction false} Then(n: Net, u: NodeId, a: seq<Step>, d: Dest, b: seq<Step>, e: Dest, now: int)
    requires u in n.nodes && Reselects(n, u, a, now, d)
    requires u in SetDest(n, u, d).nodes && Reselects(SetDest(n, u, d), u, b, now, e)
    ensures Reselects(n, u, a + b, now, e)
  {
    hide Calm, GuardedRun, SetDest, Leads;
    SetSame(n, u, d, e);
    LeadsOn(n, a, SetDest(n, u, d), b, SetDest(n, u, e));
    if Calm(n, u, now) {
      RunOn(n, a, SetDest(n, u, d), b, SetDest(n, u, e));
    }
  }

  lemma {:induction false} RouteLostSteps(n: Net, u: NodeId, now: int, sm: Key -> int, kernelOk: bool)
      returns (steps: seq<Step>)
    requires u in n.nodes
    ensures Reselects(n, u, steps, now, RouteLost(n.nodes[u].dest, now, sm, kernelOk))
  {
    hide Consider, Reselects, FindBest;
    var d := n.nodes[u].dest;
    var best := FindBest(d, now, sm, true, None);
    if best.Some? {
      var k, cur := d.chain[best.value].key, Installed(d.chain);
      steps := ConsiderSteps(n, u, k, now, cur.Some? && sm(cur.value.key) > sm(k), kernelOk);
    } else {
      steps := [];
      NoSteps(n, u, now);
    }
  }

  lemma {:induction false} TryBetterSteps(n: Net, u: NodeId, k: Key, now: int, sm: Key -> int, kernelOk: bool)
      returns (steps: seq<Step>)
    requires u in n.nodes && Has(n.nodes[u].dest.chain, k)
    ensures Reselects(n, u, steps, now, TryBetter(n.nodes[u].dest, k, now, sm, kernelOk))
  {
    hide Consider, Reselects, FindBest;
    var d := n.nodes[u].dest;
    var best := FindBest(d, now, sm, true, None);
    if Get(d.chain, k).installed && best.Some? && Metric(d.chain[best.value]) < Metric(Get(d.chain, k)) {
      var b, cur := d.chain[best.value].key, Installed(d.chain);
      steps := ConsiderSteps(n, u, b, now, cur.Some? && sm(cur.value.key) > sm(b), kernelOk);
    } else {
      steps := [];
      NoSteps(n, u, now);
    }
  }

  lemma {:induction false} RouteChangedSteps(n: Net, u: NodeId, k: Key, now: int, sm: Key -> int, kernel1: bool,
                                             kernel2: bool)
      returns (steps: seq<Step>)
    requires u in n.nodes && Has(n.nodes[u].dest.chain, k)
    ensures Reselects(n, u, steps, now, RouteChanged(n.nodes[u].dest, k, now, sm, kernel1, kernel2))
  {
    hide Consider, Reselects, TryBetter, SetDest;
    var d1 := TryBetter(n.nodes[u].dest, k, now, sm, kernel1);
    steps := TryBetterSteps(n, u, k, now, sm, kernel1);
    if !(Has(d1.chain, k) && Get(d1.chain, k).installed) {
      SetSame(n, u, d1, d1);
      var cur := Installed(d1.chain);
      var worse := cur.Some? && sm(cur.value.key) > sm(k);
      var more := ConsiderSteps(SetDest(n, u, d1), u, k, now, worse, kernel2);
      Then(n, u, steps, d1, more, Consider(d1, k, now, worse, kernel2), now);
      steps := steps + more;
    }
  }

  // ---- The order of releasing a source

  lemma {:induction false} LostAfterRelease(d: Dest, b: Sources, now: int, sm: Key -> int, kernelOk: bool)
    requires SameButCounts(d.sources, b)
    ensures RouteLost(d.(sources := b), now, sm, kernelOk) == RouteLost(d, now, sm, kernelOk).(sources := b)
    ensures RouteLost(d, now, sm, kernelOk).sources == d.sources
  {
    hide Consider, BestFrom;
    SameBest(d, b, 0, None, now, sm, true, None);
    var best := FindBest(d, now, sm, true, None);
    if best.Some? {
      var k, cur := d.chain[best.value].key, Installed(d.chain);
      SameConsider(d, b, k, now, cur.Some? && sm(cur.value.key) > sm(k), kernelOk);
    }
  }

  lemma {:induction false} BetterAfterRelease(d: Dest, b: Sources, k: Key, now: int, sm: Key -> int, kernelOk: bool)
    requires SameButCounts(d.sources, b) && Has(d.chain, k)
    ensures TryBetter(d.(sources := b), k, now, sm, kernelOk) == TryBetter(d, k, now, sm, kernelOk).(sources := b)
    ensures TryBetter(d, k, now, sm, kernelOk).sources == d.sources
  {
    hide Consider, BestFrom;
    SameBest(d, b, 0, None, now, sm, true, None);
    var best := FindBest(d, now, sm, true, None);
    if best.Some? {
      var j, cur := d.chain[best.value].key, Installed(d.chain);
      SameConsider(d, b, j, now, cur.Some? && sm(cur.value.key) > sm(j), kernelOk);
    }
  }

  lemma {:induction false} ChangedAfterRelease(d: Dest, b: Sources, k: Key, now: int, sm: Key -> int, kernel1: bool,
                                               kernel2: bool)
    requires SameButCounts(d.sources, b) && Has(d.chain, k)
    ensures RouteChanged(d.(sources := b), k, now, sm, kernel1, kernel2)
         == RouteChanged(d, k, now, sm, kernel1, kernel2).(sources := b)
    ensures RouteChanged(d, k, now, sm, kernel1, kernel2).sources == d.sources
  {
    hide Consider, TryBetter;
    BetterAfterRelease(d, b, k, now, sm, kernel1);
    var d1 := TryBetter(d, k, now, sm, kernel1);
    var cur := Installed(d1.chain);
    SameConsider(d1, b, k, now, cur.Some? && sm(cur.value.key) > sm(k), kernel2);
  }

  // ---- Whole operations

  /** A step that changes the routes of its node, after which some may be reconsidered. */
  predicate Changes(st: Step) { st.Receive? || st.Expire? || st.Withdraw? || st.Recost? || st.Flush? }

  /** The step satisfies the hypotheses, and no route stored at its node has a stale source. */
  ghost predicate Steady(n: Net, st: Step, now: int)
    requires Enabled(n, st) && Changes(st)
  {
    && Guarded(n, st) && AllWindowed(n) && AllWindowed(Apply(n, st))
    && NoneStale(n.nodes[st.u].dest, now) && (st.Receive? ==> st.now == now)
  }

  lemma {:induction false} PutFresh(d: Dest, k: Key, r: Route, now: int)
    requires NoneStale(d, now) && Has(d.chain, k) && r.src == Get(d.chain, k).src
    ensures NoneStale(d.(chain := Put(d.chain, k, r)), now)
  {
    var e := d.(chain := Put(d.chain, k, r));
    forall x | x in e.chain ensures Fresh(e, x.src, now) {
      assert x in d.chain || x == r;
      assert Fresh(d, Get(d.chain, k).src, now);
    }
  }

  lemma {:induction false} CountsFresh(d: Dest, b: Sources, now: int)
    requires NoneStale(d, now) && SameButCounts(d.sources, b)
    ensures NoneStale(d.(sources := b), now)
  {
    forall r | r in d.chain ensures Fresh(d.(sources := b), r.src, now) {
      assert Fresh(d, r.src, now);
      if r.src in b { assert d.sources[r.src].(count := 0) == b[r.src].(count := 0); }
    }
  }

  /** Storing an update keeps the sources of the routes fresh. */
  lemma {:induction false} CoreFresh(d: Dest, dst: Prefix, u: Update, now: int, keep: bool, kernelOk: bool)
    requires NoneStale(d, now) && Fresh(d, u.id, now)
    ensures NoneStale(UpdateCore(d, dst, u, now, keep, kernelOk), now)
  {
    hide Feasible, LosesRoute;
    var e := UpdateCore(d, dst, u, now, keep, kernelOk);
    forall x | x in e.chain ensures Fresh(e, x.src, now) {
      assert x in d.chain || x.src == u.id;
      assert x in d.chain ==> Fresh(d, x.src, now);
    }
  }

  lemma {:induction false} FirstFresh(n: Net, st: Step, now: int)
    requires Enabled(n, st) && Changes(st) && Steady(n, st, now)
    ensures NoneStale(Local(n, st), now)
  {
    hide AllWindowed, Retract, ChangeMetric, UpdateCore, Release;
    var d := n.nodes[st.u].dest;
    if st.Receive? {
      var up := Received(st);
      if !Ignored(n.dst, n.nodes[st.u].id, up) {
        CoreFresh(d, n.dst, up, now, st.keep, st.kernelOk);
        if Has(d.chain, up.key) {
          var d1 := UpdateCore(d, n.dst, up, now, st.keep, st.kernelOk);
          ReleaseSame(d1.sources, Get(d.chain, up.key).src);
          CountsFresh(d1, Release(d1.sources, Get(d.chain, up.key).src), now);
        }
      }
    } else if st.Flush? {
      ReleaseSame(d.sources, Get(d.chain, st.k).src);
      CountsFresh(d, Release(d.sources, Get(d.chain, st.k).src), now);
    } else {
      AlteredSource(n, st);
      PutFresh(d, st.k, Altered(n, st), now);
    }
  }

  /** The route as a retraction or a change of cost leaves it. */
  function Altered(n: Net, st: Step): Route
    requires Enabled(n, st) && (st.Expire? || st.Withdraw? || st.Recost?)
  {
    var d := n.nodes[st.u].dest;
    var r := Get(d.chain, st.k);
    match st
    case Expire(_, k, kernelOk) => Retract(r.(seqno := Plus(SourceOf(d, r).seqno, 1)), kernelOk)
    case Withdraw(_, k, kernelOk) => Retract(r, kernelOk)
    case Recost(_, k, cost, add, kernelOk) => ChangeMetric(r, r.refmetric, cost, add, kernelOk)
  }

  lemma {:induction false} AlteredSource(n: Net, st: Step)
    requires Enabled(n, st) && (st.Expire? || st.Withdraw? || st.Recost?)
    ensures Altered(n, st).src == Get(n.nodes[st.u].dest.chain, st.k).src
    ensures Altered(n, st).key == st.k
    ensures Local(n, st) == n.nodes[st.u].dest.(chain := Put(n.nodes[st.u].dest.chain, st.k, Altered(n, st)))
  {
  }

  /** A step and the reconsiderations after it make one run. */
  lemma {:induction false} FirstThen(n: Net, st: Step, more: seq<Step>, now: int, e: Dest)
    requires Enabled(n, st) && Changes(st) && st.u in n.nodes && st.u in SetDest(n, st.u, Local(n, st)).nodes
    requires Reselects(SetDest(n, st.u, Local(n, st)), st.u, more, now, e)
    ensures Leads(n, [st] + more, SetDest(n, st.u, e))
    ensures Inv(n) && Steady(n, st, now) ==> GuardedRun(n, [st] + more, SetDest(n, st.u, e))
  {
    hide Enabled, Local, Guarded, AllWindowed;
    var d1 := Local(n, st);
    SetSame(n, st.u, d1, e);
    assert ([st] + more)[1..] == more;
    assert Apply(n, st) == SetDest(n, st.u, d1);
    if Inv(n) && Steady(n, st, now) {
      StepKeepsInv(n, st);
      FirstFresh(n, st, now);
      assert LocalOk(n.nodes[st.u].id, d1);
      OneStep(n, st);
      RunOn(n, [st], SetDest(n, st.u, d1), more, SetDest(n, st.u, e));
    }
  }

  /** update_route at a node is the receipt of the update followed by reconsiderations. */
  lemma {:induction false} UpdateRouteIsRun(n: Net, st: Step, sm: Key -> int, kernel: Kernel) returns (more: seq<Step>)
    requires st.Receive? && Enabled(n, st) && kernel.metric == st.kernelOk
    ensures Reconsiderations(more, st.u, st.now)
    ensures Leads(n, [st] + more, SetDest(n, st.u, Updated(n, st, sm, kernel)))
    ensures Inv(n) && Steady(n, st, st.now) ==>
              GuardedRun(n, [st] + more, SetDest(n, st.u, Updated(n, st, sm, kernel)))
  {
    hide Local, UpdateRoute, Inv, Steady, GuardedRun, Leads;
    SetSame(n, st.u, Local(n, st), Local(n, st));
    more := StoredSteps(n, st, sm, kernel, SetDest(n, st.u, Local(n, st)));
    FirstThen(n, st, more, st.now, Updated(n, st, sm, kernel));
  }

  /** What update_route makes of the routes of the node that receives the update. */
  function Updated(n: Net, st: Step, sm: Key -> int, kernel: Kernel): Dest
    requires st.Receive? && Enabled(n, st)
  {
    UpdateRoute(n.nodes[st.u].dest, n.dst, n.nodes[st.u].id, BabelNet.Received(st), st.now, sm, st.keep, kernel)
  }

  lemma {:induction false} StoredSteps(n: Net, st: Step, sm: Key -> int, kernel: Kernel, n1: Net)
      returns (more: seq<Step>)
    requires st.Receive? && Enabled(n, st) && kernel.metric == st.kernelOk
    requires n1 == SetDest(n, st.u, Local(n, st))
    ensures st.u in n1.nodes && Reselects(n1, st.u, more, st.now, Updated(n, st, sm, kernel))
  {
    hide Reselects, RouteChanged, RouteLost, Consider, UpdateCore, LosesRoute, Release;
    var u, up := st.u, BabelNet.Received(st);
    var d := n.nodes[u].dest;
    SetSame(n, u, Local(n, st), Local(n, st));
    if Ignored(n.dst, n.nodes[u].id, up) {
      more := [];
      NoSteps(n1, u, st.now);
    } else {
      var c := UpdateCore(d, n.dst, up, st.now, st.keep, st.kernelOk);
      UpdateCoreHas(d, n.dst, up, st.now, st.keep, st.kernelOk);
      if Has(d.chain, up.key) {
        var was := Get(d.chain, up.key).src;
        more := ExistingSteps(n1, u, c, up.key, was, LosesRoute(d, up, st.now), st.now, sm, kernel);
      } else if Has(c.chain, up.key) {
        var cur := Installed(c.chain);
        more := ConsiderSteps(n1, u, up.key, st.now, cur.Some? && sm(cur.value.key) > sm(up.key), kernel.first);
      } else {
        more := [];
        NoSteps(n1, u, st.now);
      }
    }
  }

  lemma {:induction false} ExistingSteps(n: Net, u: NodeId, c: Dest, k: Key, was: RouterId, lost: bool, now: int,
                                         sm: Key -> int, kernel: Kernel)
      returns (more: seq<Step>)
    requires u in n.nodes && n.nodes[u].dest == c.(sources := Release(c.sources, was)) && Has(c.chain, k)
    ensures Reselects(n, u, more, now, AfterUpdate(c, k, Some(was), lost, now, sm, kernel))
  {
    hide Reselects, RouteChanged, RouteLost, Release, SetDest;
    var b := Release(c.sources, was);
    ReleaseSame(c.sources, was);
    ChangedAfterRelease(c, b, k, now, sm, kernel.first, kernel.second);
    var c1 := RouteChanged(c, k, now, sm, kernel.first, kernel.second);
    more := RouteChangedSteps(n, u, k, now, sm, kernel.first, kernel.second);
    if lost {
      var d1 := c1.(sources := b);
      SetSame(n, u, d1, d1);
      LostAfterRelease(c1, b, now, sm, kernel.third);
      var steps := RouteLostSteps(SetDest(n, u, d1), u, now, sm, kernel.third);
      Then(n, u, more, d1, steps, RouteLost(d1, now, sm, kernel.third), now);
      more := more + steps;
    }
  }

  /** flush_route at a node is the removal of the route followed by reconsiderations. */
  lemma {:induction false} FlushRouteIsRun(n: Net, u: NodeId, k: Key, now: int, sm: Key -> int, kernelOk: bool)
      returns (more: seq<Step>)
    requires u in n.nodes && Has(n.nodes[u].dest.chain, k)
    ensures Reconsiderations(more, u, now)
    ensures Leads(n, [Flush(u, k)] + more, SetDest(n, u, FlushRoute(n.nodes[u].dest, k, now, sm, kernelOk)))
    ensures Inv(n) && Steady(n, Flush(u, k), now) ==>
              GuardedRun(n, [Flush(u, k)] + more, SetDest(n, u, FlushRoute(n.nodes[u].dest, k, now, sm, kernelOk)))
  {
    hide Release, RouteLost, Inv, Steady, GuardedRun, Leads;
    var d := n.nodes[u].dest;
    var r, d1 := Get(d.chain, k), Drop(d, k);
    var b := Release(d.sources, r.src);
    ReleaseSame(d.sources, r.src);
    var n1 := SetDest(n, u, d1.(sources := b));
    SetSame(n, u, d1.(sources := b), d1);
    if r.installed {
      LostAfterRelease(d1, b, now, sm, kernelOk);
      more := RouteLostSteps(n1, u, now, sm, kernelOk);
    } else {
      more := [];
      NoSteps(n1, u, now);
    }
    FirstThen(n, Flush(u, k), more, now, FlushRoute(d, k, now, sm, kernelOk));
  }

  /** A retraction or change of cost, and then route_changed where it makes a difference. */
  function Alter(n: Net, st: Step, changed: bool, now: int, sm: Key -> int, kernel: Kernel): Dest
    requires Enabled(n, st) && (st.Expire? || st.Withdraw? || st.Recost?)
  {
    AlteredHas(n, st);
    if changed then RouteChanged(Local(n, st), st.k, now, sm, kernel.first, kernel.second) else Local(n, st)
  }

  lemma {:induction false} AlteredHas(n: Net, st: Step)
    requires Enabled(n, st) && (st.Expire? || st.Withdraw? || st.Recost?)
    ensures Has(Local(n, st).chain, st.k)
  {
    AlteredSource(n, st);
    var c := n.nodes[st.u].dest.chain;
    assert Local(n, st).chain[Index(c, st.k)] == Altered(n, st);
    Slot.HasIff(Local(n, st).chain, st.k);
  }

  lemma {:induction false} AlterIsRun(n: Net, st: Step, changed: bool, now: int, sm: Key -> int, kernel: Kernel)
      returns (more: seq<Step>)
    requires Enabled(n, st) && (st.Expire? || st.Withdraw? || st.Recost?)
    ensures Reconsiderations(more, st.u, now)
    ensures Leads(n, [st] + more, SetDest(n, st.u, Alter(n, st, changed, now, sm, kernel)))
    ensures Inv(n) && Steady(n, st, now) ==>
              GuardedRun(n, [st] + more, SetDest(n, st.u, Alter(n, st, changed, now, sm, kernel)))
  {
    hide Local, RouteChanged, Inv, Steady, GuardedRun, Leads;
    SetSame(n, st.u, Local(n, st), Local(n, st));
    AlteredHas(n, st);
    if changed {
      more := RouteChangedSteps(SetDest(n, st.u, Local(n, st)), st.u, st.k, now, sm, kernel.first, kernel.second);
    } else {
      more := [];
      NoSteps(SetDest(n, st.u, Local(n, st)), st.u, now);
    }
    FirstThen(n, st, more, now, Alter(n, st, changed, now, sm, kernel));
  }

  // ---- Runs of operations

  /**
   What a router does in one go: it handles an update, flushes a route, brings its metric up to date or retracts it
   with its neighbour, or makes any other step of the network.
   */
  datatype Op =
    | UpdateRouteOp(st: Step, sm: Key -> int, kernel: Kernel)
    | FlushRouteOp(u: NodeId, k: Key, now: int, sm: Key -> int, kernelOk: bool)
    | UpdateMetricOp(u: NodeId, k: Key, now: int, cost: u16, add: u16, smoothedChanged: bool, sm: Key -> int,
                     kernel: Kernel)
    | RetractOp(u: NodeId, k: Key, now: int, sm: Key -> int, kernel: Kernel)
    | StepOp(st: Step)

  predicate OpEnabled(n: Net, op: Op) {
    match op
    case UpdateRouteOp(st, _, kernel) => st.Receive? && Enabled(n, st) && kernel.metric == st.kernelOk
    case StepOp(st) => Enabled(n, st)
    case _ => op.u in n.nodes && Has(n.nodes[op.u].dest.chain, op.k)
  }

  /** The step an operation begins with; none if it finds nothing to do. */
  function First(n: Net, op: Op): (r: Option<Step>)
    requires OpEnabled(n, op)
    ensures r.Some? ==> Enabled(n, r.value) && (op.StepOp? || Changes(r.value))
  {
    match op
    case UpdateRouteOp(st, _, _) => Some(st)
    case FlushRouteOp(u, k, _, _, _) => Some(Flush(u, k))
    case UpdateMetricOp(u, k, now, cost, add, _, _, kernel) =>
      var r := Get(n.nodes[u].dest.chain, k);
      if !Expired(r, now) then Some(Recost(u, k, cost, add, kernel.metric))
      else if r.refmetric < INFINITY then Some(Expire(u, k, kernel.metric))
      else None
    case RetractOp(u, k, _, _, kernel) =>
      if Get(n.nodes[u].dest.chain, k).refmetric != INFINITY then Some(Withdraw(u, k, kernel.metric)) else None
    case StepOp(st) => Some(st)
  }

  /** The state after an operation. */
  function OpApply(n: Net, op: Op): Net
    requires OpEnabled(n, op)
  {
    match op
    case UpdateRouteOp(st, sm, kernel) => SetDest(n, st.u, Updated(n, st, sm, kernel))
    case FlushRouteOp(u, k, now, sm, kernelOk) =>
      SetDest(n, u, FlushRoute(n.nodes[u].dest, k, now, sm, kernelOk))
    case UpdateMetricOp(u, k, now, _, _, smoothedChanged, sm, kernel) =>
      (match First(n, op)
       case None => n
       case Some(st) =>
         var was := Metric(Get(n.nodes[u].dest.chain, k));
         var changed := if st.Expire? then was < INFINITY else smoothedChanged || Metric(Altered(n, st)) != was;
         SetDest(n, u, Alter(n, st, changed, now, sm, kernel)))
    case RetractOp(u, k, now, sm, kernel) =>
      (match First(n, op)
       case None => n
       case Some(st) =>
         SetDest(n, u, Alter(n, st, Metric(Get(n.nodes[u].dest.chain, k)) != INFINITY, now, sm, kernel)))
    case StepOp(st) => Apply(n, st)
  }

  /** Each step of the walk that retracts the routes through a neighbour is such an operation. */
  lemma {:induction false} RetractionIsOp(n: Net, u: NodeId, k: Key, now: int, sm: Key -> int, kernel: Kernel)
    requires u in n.nodes && Has(n.nodes[u].dest.chain, k) && Get(n.nodes[u].dest.chain, k).refmetric != INFINITY
    ensures OpApply(n, RetractOp(u, k, now, sm, kernel))
         == SetDest(n, u, RetractReact(n.nodes[u].dest, k, now, sm, kernel))
  {
    hide RouteChanged, Retract;
  }

  function Clock(op: Op): int
    requires !op.StepOp? && (op.UpdateRouteOp? ==> op.st.Receive?)
  {
    if op.UpdateRouteOp? then op.st.now else op.now
  }

  /** The hypotheses of the network, asked of the first step alone. */
  ghost predicate OpGuarded(n: Net, op: Op)
    requires OpEnabled(n, op)
  {
    && AllWindowed(n)
    && var first := First(n, op);
      first.Some? ==>
        if op.StepOp? then Guarded(n, op.st) && AllWindowed(Apply(n, op.st))
        else Steady(n, first.value, Clock(op))
  }

  ghost predicate OpRun(n: Net, ops: seq<Op>)
    decreases |ops|
  {
    && AllWindowed(n)
    && (|ops| > 0 ==> OpEnabled(n, ops[0]) && OpGuarded(n, ops[0]) && OpRun(OpApply(n, ops[0]), ops[1..]))
  }

  ghost function OpExec(n: Net, ops: seq<Op>): Net
    requires OpRun(n, ops)
    decreases |ops|
  {
    if |ops| == 0 then n else OpExec(OpApply(n, ops[0]), ops[1..])
  }

  /** Every operation is a run of the network, whose hypotheses need asking of its first step only. */
  lemma {:induction false} OpIsRun(n: Net, op: Op) returns (steps: seq<Step>)
    requires Inv(n) && OpEnabled(n, op) && OpGuarded(n, op)
    ensures GuardedRun(n, steps, OpApply(n, op))
  {
    hide Inv, Steady, Guarded, AllWindowed, Leads, Alter, UpdateRoute, FlushRoute, GuardedRun, Apply;
    var first := First(n, op);
    if first.None? {
      steps := [];
      assert GuardedRun(n, [], n) by { NoRun(n); }
    } else {
      var st := first.value;
      var more: seq<Step>;
      match op {
        case UpdateRouteOp(_, sm, kernel) =>
          more := UpdateRouteIsRun(n, st, sm, kernel);
        case FlushRouteOp(u, k, now, sm, kernelOk) =>
          more := FlushRouteIsRun(n, u, k, now, sm, kernelOk);
        case UpdateMetricOp(u, k, now, _, _, smoothedChanged, sm, kernel) =>
          var was := Metric(Get(n.nodes[u].dest.chain, k));
          var changed := if st.Expire? then was < INFINITY else smoothedChanged || Metric(Altered(n, st)) != was;
          more := AlterIsRun(n, st, changed, now, sm, kernel);
        case RetractOp(u, k, now, sm, kernel) =>
          more := AlterIsRun(n, st, Metric(Get(n.nodes[u].dest.chain, k)) != INFINITY, now, sm, kernel);
        case StepOp(_) =>
          more := [];
          OneStep(n, st);
          assert [st] + more == [st];
      }
      steps := [st] + more;
    }
  }

  lemma {:induction false} NoRun(n: Net)
    requires AllWindowed(n)
    ensures GuardedRun(n, [], n)
  {
  }

  /** Every run of operations is a run of the network. */
  lemma {:induction false} OperationsAreRuns(n: Net, ops: seq<Op>) returns (steps: seq<Step>)
    requires Inv(n) && OpRun(n, ops)
    ensures GuardedRun(n, steps, OpExec(n, ops))
    decreases |ops|
  {
    hide Inv, AllWindowed, OpApply, OpEnabled, OpGuarded;
    if |ops| == 0 {
      steps := [];
      NoRun(n);
    } else {
      var m := OpApply(n, ops[0]);
      var a := OpIsRun(n, ops[0]);
      RunKeepsInv(n, a);
      var b := OperationsAreRuns(m, ops[1..]);
      steps := a + b;
      RunOn(n, a, m, b, OpExec(m, ops[1..]));
    }
  }

  /** Loop freedom for the operations of route.c, whole. */
  lemma {:induction false} OperationsLoopFree(n: Net, ops: seq<Op>, s: RouterId, p: seq<NodeId>)
    requires Initial(n) && OpRun(n, ops)
    ensures !ForwardingLoop(OpExec(n, ops), s, p)
  {
    InitialInv(n);
    var steps := OperationsAreRuns(n, ops);
    LoopFree(n, steps, s, p);
  }
}
