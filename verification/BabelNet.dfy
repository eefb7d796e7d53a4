/**
 A network of babeld routers exchanging updates for one destination prefix over a
 channel that loses, duplicates and reorders them, and the proof that the routers'
 installed routes never form a forwarding loop for one source.
 */
module BabelNet {
  import opened Basics
  import opened Seqno
  import opened Address
  import opened BabelRoute
  import Slot = BabelSlot

  type NodeId = nat

  /** An update in flight: who sent it, the source it is about, seqno and metric. */
  datatype Msg = Msg(sender: NodeId, id: RouterId, seqno: u16, metric: u16)

  datatype Node = Node(id: RouterId, seqno: u16, dest: Dest)

  datatype Net = Net(nodes: map<NodeId, Node>, chan: set<Msg>, dst: Prefix)

  /** How the advertised metric is computed: for an interfering interface or not. */
  datatype Flavour = Interfering | Noninterfering(diversityFactor: nat)

  datatype Step =
    | Receive(u: NodeId, m: Msg, nexthop: Addr, cost: u16, add: u16, hold: int, now: int, keep: bool, kernelOk: bool)
    | Reconsider(u: NodeId, k: Key, now: int, smoothedWorse: bool, kernelOk: bool)
    | Expire(u: NodeId, k: Key, kernelOk: bool)
    | Withdraw(u: NodeId, k: Key, kernelOk: bool)
    | Recost(u: NodeId, k: Key, cost: u16, add: u16, kernelOk: bool)
    | Flush(u: NodeId, k: Key)
    | Advertise(u: NodeId, flavour: Flavour, filter: nat, now: int)
    | Originate(u: NodeId, metric: u16)
    | BumpSeqno(u: NodeId)
    | AddXroute(u: NodeId)
    | DelXroute(u: NodeId)
    | Collect(u: NodeId, now: int)
    | Lose(m: Msg)

  function Received(st: Step): Update
    requires st.Receive?
  {
    Update(st.m.id, st.m.seqno, st.m.metric, Key(st.m.sender, st.nexthop), st.cost, st.add, st.hold)
  }

  function AdvertisedMetric(r: Route, f: Flavour): u16 {
    match f
    case Interfering => Metric(r)
    case Noninterfering(df) => NoninterferingMetric(r, df)
  }

  predicate Enabled(n: Net, st: Step) {
    match st
    case Lose(m) => true
    case Receive(u, m, _, _, _, _, _, _, _) => u in n.nodes && m in n.chan
    case Reconsider(u, k, _, _, _) => u in n.nodes && Has(n.nodes[u].dest.chain, k)
    case Expire(u, k, _) => u in n.nodes && Has(n.nodes[u].dest.chain, k)
    case Withdraw(u, k, _) => u in n.nodes && Has(n.nodes[u].dest.chain, k)
    case Recost(u, k, _, _, _) => u in n.nodes && Has(n.nodes[u].dest.chain, k)
    case Flush(u, k) => u in n.nodes && Has(n.nodes[u].dest.chain, k)
    case Advertise(u, _, _, _) =>
      && u in n.nodes && Installed(n.nodes[u].dest.chain).Some?
      && Installed(n.nodes[u].dest.chain).value.src in n.nodes[u].dest.sources
    case Originate(u, _) => u in n.nodes
    case BumpSeqno(u) => u in n.nodes
    case AddXroute(u) => u in n.nodes
    case DelXroute(u) => u in n.nodes
    case Collect(u, _) => u in n.nodes
  }

  function SetDest(n: Net, u: NodeId, d: Dest): Net
    requires u in n.nodes
  {
    n.(nodes := n.nodes[u := n.nodes[u].(dest := d)])
  }

  /** The new state of the node's destination, for steps that touch nothing else. */
  function Local(n: Net, st: Step): Dest
    requires Enabled(n, st) && !st.Lose? && !st.Advertise? && !st.Originate? && !st.BumpSeqno?
  {
    var d := n.nodes[st.u].dest;
    match st
    case Receive(u, m, _, _, _, _, now, keep, kernelOk) =>
      if Ignored(n.dst, n.nodes[u].id, Received(st)) then d
      else
        var d1 := UpdateCore(d, n.dst, Received(st), now, keep, kernelOk);
        if Has(d.chain, Received(st).key)
        then d1.(sources := Release(d1.sources, Get(d.chain, Received(st).key).src)) else d1
    case Reconsider(_, k, now, smoothedWorse, kernelOk) => Consider(d, k, now, smoothedWorse, kernelOk)
    case Expire(_, k, kernelOk) =>
      var r := Get(d.chain, k);
      d.(chain := Put(d.chain, k, Retract(r.(seqno := Plus(SourceOf(d, r).seqno, 1)), kernelOk)))
    case Withdraw(_, k, kernelOk) => d.(chain := Put(d.chain, k, Retract(Get(d.chain, k), kernelOk)))
    case Recost(_, k, cost, add, kernelOk) =>
      d.(chain := Put(d.chain, k, ChangeMetric(Get(d.chain, k), Get(d.chain, k).refmetric, cost, add, kernelOk)))
    case Flush(_, k) => Drop(d, k).(sources := Release(d.sources, Get(d.chain, k).src))
    case AddXroute(_) => Slot.AddXroute(d)
    case DelXroute(_) => d.(xroute := false)
    case Collect(_, now) => d.(sources := ExpireSources(d.sources, now))
  }

  function Apply(n: Net, st: Step): Net
    requires Enabled(n, st)
  {
    match st
    case Lose(m) => n.(chan := n.chan - {m})
    case Originate(u, metric) => n.(chan := n.chan + {Msg(u, n.nodes[u].id, n.nodes[u].seqno, metric)})
    case BumpSeqno(u) => n.(nodes := n.nodes[u := n.nodes[u].(seqno := Plus(n.nodes[u].seqno, 1))])
    case Advertise(u, flavour, filter, now) =>
      var d := n.nodes[u].dest;
      var r := Installed(d.chain).value;
      var metric := AdvertisedMetric(r, flavour);
      var n1 := SetDest(n, u, d.(sources := d.sources[r.src := UpdateSource(d.sources[r.src], r.seqno, metric, now)]));
      n1.(chan := n.chan + {Msg(u, r.src, r.seqno, Saturate(metric + filter))})
    case Receive(_, _, _, _, _, _, _, _, _) => SetDest(n, st.u, Local(n, st))
    case Reconsider(_, _, _, _, _) => SetDest(n, st.u, Local(n, st))
    case Expire(_, _, _) => SetDest(n, st.u, Local(n, st))
    case Withdraw(_, _, _) => SetDest(n, st.u, Local(n, st))
    case Recost(_, _, _, _, _) => SetDest(n, st.u, Local(n, st))
    case Flush(_, _) => SetDest(n, st.u, Local(n, st))
    case AddXroute(_) => SetDest(n, st.u, Local(n, st))
    case DelXroute(_) => SetDest(n, st.u, Local(n, st))
    case Collect(_, _) => SetDest(n, st.u, Local(n, st))
  }

  // ---- Hypotheses

  /** The source's distance is not old enough to be ignored. */
  predicate Fresh(d: Dest, id: RouterId, now: int) {
    id in d.sources ==> !Stale(d.sources[id], now)
  }

  /**
   An update that makes a retracted but still installed route usable again although it is
   unfeasible: the branch of update_route that keeps a same-source route installed, and the
   kernel does not refuse the new metric.
   */
  predicate Revives(d: Dest, u: Update, now: int, kernelOk: bool) {
    && Has(d.chain, u.key)
    && var r := Get(d.chain, u.key);
      && r.installed && r.src == u.id && r.refmetric >= INFINITY && u.refmetric < INFINITY
      && !KernelRejects(r, u.refmetric, u.cost, u.add, kernelOk)
      && u.id in d.sources
      && !Feasible(d.sources[u.id], u.seqno, u.refmetric, now)
  }

  predicate NothingCollected(sources: Sources, now: int) {
    forall id | id in sources :: !(Stale(Clamp(sources[id], now), now) && sources[id].count == 0)
  }

  /**
   The kernel refuses the new metric of a route that stays installed: the old one is kept, under the new source and
   seqno.
   */
  predicate Keeps(d: Dest, u: Update, now: int, kernelOk: bool) {
    && Has(d.chain, u.key)
    && KernelRejects(Get(d.chain, u.key), u.refmetric, u.cost, u.add, kernelOk)
    && !LosesRoute(d, u, now)
    && Get(d.chain, u.key).refmetric < INFINITY
  }

  /** What the route said before was no less than that its metric holds for the source and seqno given. */
  predicate Covers(r: Route, id: RouterId, seqno: u16) {
    r.src == id && (r.seqno == seqno || Compare(r.seqno, seqno) > 0)
  }

  /**
   A metric that was kept is wrong: neither the old route nor the update vouches for it under the new seqno, or it is
   not feasible for the new source.
   */
  predicate Misleads(d: Dest, u: Update, now: int, kernelOk: bool) {
    && Keeps(d, u, now, kernelOk)
    && var r := Get(d.chain, u.key);
      || !(Covers(r, u.id, u.seqno) || u.refmetric <= r.refmetric)
      || !(r.src == u.id || Feasible(FindSource(d.sources, u.id, u.seqno, now)[u.id], u.seqno, r.refmetric, now))
  }

  /**
   What a step must satisfy for the guarantee: no stale source is consulted or collected, no retracted installed
   route is revived unfeasibly, and where the kernel refuses a metric change, the metric kept does not mislead; the
   seqno of a retraction that it refuses, which so comes into use, is comparable with those in use.
   */
  ghost predicate Guarded(n: Net, st: Step)
    requires Enabled(n, st)
  {
    match st
    case Receive(u, m, _, cost, add, _, now, _, kernelOk) =>
      var d := n.nodes[u].dest;
      && Fresh(d, m.id, now)
      && !Revives(d, Received(st), now, kernelOk)
      && !Misleads(d, Received(st), now, kernelOk)
      && (Keeps(d, Received(st), now, kernelOk) && m.metric >= INFINITY ==> Comparable(n, m.id, m.seqno))
    case Reconsider(u, k, now, _, _) => Fresh(n.nodes[u].dest, Get(n.nodes[u].dest.chain, k).src, now)
    case Expire(u, k, kernelOk) =>
      var d := n.nodes[u].dest;
      var r := Get(d.chain, k);
      KernelRejects(r, INFINITY, INFINITY, 0, kernelOk) ==>
        Covers(r, r.src, Plus(SourceOf(d, r).seqno, 1)) && Comparable(n, r.src, Plus(SourceOf(d, r).seqno, 1))
    case Advertise(u, _, _, now) =>
      Fresh(n.nodes[u].dest, Installed(n.nodes[u].dest.chain).value.src, now)
    case Collect(u, now) => NothingCollected(n.nodes[u].dest.sources, now)
    case _ => true
  }

  /** The seqno `q` is comparable with those in use for `s`. */
  ghost predicate Comparable(n: Net, s: RouterId, q: u16) {
    exists base: u16 :: Window(n, s, base) && InWindow(base, q)
  }

  /** All seqnos in use for source `s` fit in one half circle of the seqno space. */
  ghost predicate Windowed(n: Net, s: RouterId) {
    exists base: u16 :: Window(n, s, base)
  }

  ghost predicate Window(n: Net, s: RouterId, base: u16) {
    && (forall u | u in n.nodes && s in n.nodes[u].dest.sources ::
          InWindow(base, n.nodes[u].dest.sources[s].seqno))
    && (forall m | m in n.chan && m.id == s && m.metric < INFINITY :: InWindow(base, m.seqno))
    && (forall u, r | u in n.nodes && r in n.nodes[u].dest.chain && r.src == s && r.refmetric < INFINITY ::
          InWindow(base, r.seqno))
  }

  ghost predicate AllWindowed(n: Net) {
    forall s: RouterId :: Windowed(n, s)
  }

  /** A run from `n` all of whose steps are possible and satisfy the hypotheses. */
  ghost predicate Run(n: Net, steps: seq<Step>)
    decreases |steps|
  {
    && AllWindowed(n)
    && (|steps| > 0 ==>
          Enabled(n, steps[0]) && Guarded(n, steps[0]) && Run(Apply(n, steps[0]), steps[1..]))
  }

  ghost function Exec(n: Net, steps: seq<Step>): Net
    requires Run(n, steps)
    decreases |steps|
  {
    if |steps| == 0 then n else Exec(Apply(n, steps[0]), steps[1..])
  }

  predicate Initial(n: Net) {
    && n.chan == {}
    && forall u | u in n.nodes :: n.nodes[u].dest.chain == [] && n.nodes[u].dest.sources == map[]
  }

  // ---- Loops

  /** Packets for source `s` at `u` go to `v`: an installed route with a finite metric. */
  ghost predicate Forwards(n: Net, s: RouterId, u: NodeId, v: NodeId) {
    && u in n.nodes
    && exists r :: r in n.nodes[u].dest.chain && r.installed && r.src == s && r.key.neigh == v && Metric(r) < INFINITY
  }

  ghost predicate ForwardingLoop(n: Net, s: RouterId, p: seq<NodeId>) {
    && |p| >= 2 && p[0] == p[|p| - 1]
    && forall i | 0 <= i < |p| - 1 :: Forwards(n, s, p[i], p[i + 1])
  }

  // ---- Distances

  /** (seqno, metric) pairs: newer seqno is better, then lower metric. */
  predicate AtLeast(q1: u16, m1: u16, q2: u16, m2: u16) {
    Compare(q1, q2) > 0 || (q1 == q2 && m1 <= m2)
  }

  predicate Better(q1: u16, m1: u16, q2: u16, m2: u16) {
    Compare(q1, q2) > 0 || (q1 == q2 && m1 < m2)
  }

  lemma {:induction false} AtLeastTransitive(base: u16, q1: u16, m1: u16, q2: u16, m2: u16, q3: u16, m3: u16)
    requires InWindow(base, q1) && InWindow(base, q2) && InWindow(base, q3)
    requires AtLeast(q1, m1, q2, m2) && AtLeast(q2, m2, q3, m3)
    ensures AtLeast(q1, m1, q3, m3)
    ensures Better(q1, m1, q2, m2) || Better(q2, m2, q3, m3) ==> Better(q1, m1, q3, m3)
  {
    CompareInWindow(base, q1, q2);
    CompareInWindow(base, q2, q3);
    CompareInWindow(base, q1, q3);
  }

  lemma {:induction false} BetterIrreflexive(base: u16, q1: u16, m1: u16, q2: u16, m2: u16)
    requires InWindow(base, q1) && InWindow(base, q2)
    requires AtLeast(q1, m1, q2, m2)
    ensures !Better(q2, m2, q1, m1)
  {
    CompareInWindow(base, q1, q2);
    CompareInWindow(base, q2, q1);
  }

  // ---- The invariant

  /** Node `v` originates `s`, or its distance for `s` is at least as good as (q, m). */
  predicate Vouched(n: Net, v: NodeId, s: RouterId, q: u16, m: u16) {
    && v in n.nodes
    && (n.nodes[v].id == s
        || (s in n.nodes[v].dest.sources
            && AtLeast(n.nodes[v].dest.sources[s].seqno, n.nodes[v].dest.sources[s].metric, q, m)))
  }

  /** `u`'s own distance for `s` is vouched for by `v`. */
  predicate Descends(n: Net, s: RouterId, u: NodeId, v: NodeId) {
    && u in n.nodes && s in n.nodes[u].dest.sources
    && Vouched(n, v, s, n.nodes[u].dest.sources[s].seqno, n.nodes[u].dest.sources[s].metric)
  }

  /** An installed route for `s` through `v` that its neighbour has not retracted. */
  predicate Uses(r: Route, s: RouterId, v: NodeId) {
    r.installed && r.src == s && r.key.neigh == v && r.refmetric < INFINITY
  }

  ghost predicate Edge(n: Net, s: RouterId, u: NodeId, v: NodeId) {
    u in n.nodes && exists r :: r in n.nodes[u].dest.chain && Uses(r, s, v)
  }

  ghost predicate Path(n: Net, s: RouterId, p: seq<NodeId>) {
    && |p| >= 1
    && forall i | 0 <= i < |p| - 1 :: Edge(n, s, p[i], p[i + 1])
  }

  ghost predicate Cycle(n: Net, s: RouterId, p: seq<NodeId>) {
    Path(n, s, p) && |p| >= 2 && p[0] == p[|p| - 1]
  }

  ghost predicate Acyclic(n: Net, s: RouterId) {
    forall p :: !Cycle(n, s, p)
  }

  /** Routes have a source entry, and never their own router as source. */
  ghost predicate LocalOk(id: RouterId, d: Dest) {
    && ChainOk(d.chain)
    && forall r | r in d.chain :: r.src in d.sources && r.src != id
  }

  ghost predicate MsgsVouched(n: Net) {
    forall m | m in n.chan && m.metric < INFINITY :: Vouched(n, m.sender, m.id, m.seqno, m.metric)
  }

  ghost predicate RoutesVouched(n: Net) {
    forall u, r | u in n.nodes && r in n.nodes[u].dest.chain && r.refmetric < INFINITY ::
      Vouched(n, r.key.neigh, r.src, r.seqno, r.refmetric)
  }

  ghost predicate EdgesDescend(n: Net) {
    forall s, u, v | Edge(n, s, u, v) :: Descends(n, s, u, v)
  }

  ghost predicate Inv(n: Net) {
    && (forall u | u in n.nodes :: LocalOk(n.nodes[u].id, n.nodes[u].dest))
    && MsgsVouched(n)
    && RoutesVouched(n)
    && EdgesDescend(n)
    && forall s: RouterId :: Acyclic(n, s)
  }

  // ---- Paths and distances

  /** Along a path of used routes distances never get worse. */
  lemma {:induction false} PathDescends(n: Net, s: RouterId, p: seq<NodeId>, base: u16)
    requires EdgesDescend(n) && Window(n, s, base)
    requires forall u | u in n.nodes :: LocalOk(n.nodes[u].id, n.nodes[u].dest)
    requires Path(n, s, p) && |p| >= 2
    ensures Descends(n, s, p[0], p[|p| - 1])
  {
    assert Edge(n, s, p[0], p[1]);
    assert Descends(n, s, p[0], p[1]);
    if |p| > 2 {
      assert Path(n, s, p[1..]) by {
        forall i | 0 <= i < |p[1..]| - 1 ensures Edge(n, s, p[1..][i], p[1..][i + 1]) {
          assert Edge(n, s, p[i + 1], p[i + 2]);
        }
      }
      PathDescends(n, s, p[1..], base);
      assert Edge(n, s, p[1], p[2]);
      var last := p[|p| - 1];
      if n.nodes[last].id != s {
        var a, b, c := n.nodes[last].dest.sources[s], n.nodes[p[1]].dest.sources[s], n.nodes[p[0]].dest.sources[s];
        AtLeastTransitive(base, a.seqno, a.metric, b.seqno, b.metric, c.seqno, c.metric);
      }
    }
  }

  /** The rest of a cycle, seen from the head of its `i`-th edge. */
  lemma {:induction false} CycleRest(n: Net, s: RouterId, p: seq<NodeId>, i: nat) returns (q: seq<NodeId>)
    requires Cycle(n, s, p) && i < |p| - 1
    ensures Path(n, s, q) && q[0] == p[i + 1] && q[|q| - 1] == p[i]
  {
    q := p[i + 1..] + p[1..i + 1];
    forall j | 0 <= j < |q| - 1 ensures Edge(n, s, q[j], q[j + 1]) {
      var m := |p| - i - 1;
      if j < m - 1 {
        assert q[j] == p[i + 1 + j] && q[j + 1] == p[i + 2 + j];
      } else {
        var h := j - (m - 1);
        assert q[j] == p[h] && q[j + 1] == p[h + 1];
      }
    }
  }

  // ---- Steps inside one node

  predicate SameDistances(a: Sources, b: Sources) {
    forall id | id in a :: id in b && a[id].seqno == b[id].seqno && a[id].metric == b[id].metric
  }

  /**
   What a step inside node `u` may do: keep distances, hold only routes some neighbour
   vouches for, and use a route it did not use before only if it is strictly better
   than its own distance.
   */
  ghost predicate LocalStep(n: Net, u: NodeId, d': Dest)
    requires u in n.nodes
  {
    && LocalOk(n.nodes[u].id, d')
    && SameDistances(n.nodes[u].dest.sources, d'.sources)
    && (forall r | r in d'.chain && r.refmetric < INFINITY ::
          Vouched(n, r.key.neigh, r.src, r.seqno, r.refmetric))
    && (forall r, s, v | r in d'.chain && Uses(r, s, v) ::
          Edge(n, s, u, v)
          || Better(r.seqno, r.refmetric, d'.sources[s].seqno, d'.sources[s].metric))
  }

  lemma {:induction false} StillVouched(n: Net, u: NodeId, d': Dest, v: NodeId, s: RouterId, q: u16, m: u16)
    requires u in n.nodes && SameDistances(n.nodes[u].dest.sources, d'.sources)
    requires Vouched(n, v, s, q, m)
    ensures Vouched(SetDest(n, u, d'), v, s, q, m)
  {
  }

  lemma {:induction false} LocalStepDescends(n: Net, u: NodeId, d': Dest, s: RouterId, x: NodeId, v: NodeId)
    requires u in n.nodes && Inv(n) && LocalStep(n, u, d')
    requires Windowed(SetDest(n, u, d'), s)
    requires Edge(SetDest(n, u, d'), s, x, v)
    ensures Descends(SetDest(n, u, d'), s, x, v)
  {
    var n' := SetDest(n, u, d');
    if Edge(n, s, x, v) {
      assert Descends(n, s, x, v);
      var a := n.nodes[x].dest.sources[s];
      StillVouched(n, u, d', v, s, a.seqno, a.metric);
    } else {
      assert x == u;
      var r :| r in d'.chain && Uses(r, s, v);
      StillVouched(n, u, d', v, s, r.seqno, r.refmetric);
      if n.nodes[v].id != s {
        var base: u16 :| Window(n', s, base);
        var a, c := n'.nodes[v].dest.sources[s], d'.sources[s];
        AtLeastTransitive(base, a.seqno, a.metric, r.seqno, r.refmetric, c.seqno, c.metric);
      }
    }
  }

  lemma {:induction false} NewEdgeOnNoCycle(n: Net, u: NodeId, d': Dest, s: RouterId, p: seq<NodeId>, i: nat)
    requires u in n.nodes && Inv(n) && LocalStep(n, u, d')
    requires Windowed(SetDest(n, u, d'), s) && EdgesDescend(SetDest(n, u, d'))
    requires i < |p| - 1
    requires Edge(SetDest(n, u, d'), s, p[i], p[i + 1]) && !Edge(n, s, p[i], p[i + 1])
    ensures !Cycle(SetDest(n, u, d'), s, p)
  {
    var n' := SetDest(n, u, d');
    if Cycle(n', s, p) {
      var v := p[i + 1];
      assert p[i] == u;
      var r :| r in d'.chain && Uses(r, s, v);
      StillVouched(n, u, d', v, s, r.seqno, r.refmetric);
      var q := CycleRest(n', s, p, i);
      var base: u16 :| Window(n', s, base);
      var c := d'.sources[s];
      if |q| >= 2 {
        PathDescends(n', s, q, base);
        assert Edge(n', s, q[0], q[1]);
        var a := n'.nodes[v].dest.sources[s];
        AtLeastTransitive(base, c.seqno, c.metric, a.seqno, a.metric, r.seqno, r.refmetric);
      }
      BetterIrreflexive(base, c.seqno, c.metric, r.seqno, r.refmetric);
    }
  }

  lemma {:induction false} LocalStepAcyclic(n: Net, u: NodeId, d': Dest, s: RouterId, p: seq<NodeId>)
    requires u in n.nodes && Inv(n) && LocalStep(n, u, d')
    requires Windowed(SetDest(n, u, d'), s) && EdgesDescend(SetDest(n, u, d'))
    ensures !Cycle(SetDest(n, u, d'), s, p)
  {
    if !(forall i | 0 <= i < |p| - 1 :: Edge(n, s, p[i], p[i + 1])) {
      var i: nat :| i < |p| - 1 && !Edge(n, s, p[i], p[i + 1]);
      if Edge(SetDest(n, u, d'), s, p[i], p[i + 1]) {
        NewEdgeOnNoCycle(n, u, d', s, p, i);
      }
    } else {
      assert Acyclic(n, s) && !Cycle(n, s, p);
    }
  }

  lemma {:induction false} LocalStepKeepsInv(n: Net, u: NodeId, d': Dest)
    requires u in n.nodes && Inv(n) && LocalStep(n, u, d')
    requires AllWindowed(SetDest(n, u, d'))
    ensures Inv(SetDest(n, u, d'))
  {
    var n' := SetDest(n, u, d');
    forall m | m in n'.chan && m.metric < INFINITY
      ensures Vouched(n', m.sender, m.id, m.seqno, m.metric)
    {
      StillVouched(n, u, d', m.sender, m.id, m.seqno, m.metric);
    }
    forall x, r | x in n'.nodes && r in n'.nodes[x].dest.chain && r.refmetric < INFINITY
      ensures Vouched(n', r.key.neigh, r.src, r.seqno, r.refmetric)
    {
      StillVouched(n, u, d', r.key.neigh, r.src, r.seqno, r.refmetric);
    }
    forall s, x, v | Edge(n', s, x, v) ensures Descends(n', s, x, v) {
      LocalStepDescends(n, u, d', s, x, v);
    }
    forall s: RouterId, p ensures !Cycle(n', s, p) {
      LocalStepAcyclic(n, u, d', s, p);
    }
  }

  // ---- Each kind of step is a local step

  lemma {:induction false} PutOk(c: seq<Route>, k: Key, r: Route)
    requires ChainOk(c) && Has(c, k) && r.key == k && (r.installed ==> Get(c, k).installed)
    ensures ChainOk(Put(c, k, r))
    ensures forall x | x in Put(c, k, r) :: x == r || x in c
  {
  }

  /** The route an update leaves in the table. */
  lemma {:induction false} UpdatedRoute(d: Dest, dst: Prefix, u: Update, now: int, keep: bool, kernelOk: bool)
    requires Has(d.chain, u.key) && Fresh(d, u.id, now) && !Revives(d, u, now, kernelOk)
    requires Get(d.chain, u.key).src in d.sources
    ensures
      var r := Get(d.chain, u.key);
      var d' := UpdateCore(d, dst, u, now, keep, kernelOk);
      var r' := d'.chain[Index(d.chain, u.key)];
      && d'.chain == Put(d.chain, u.key, r')
      && r'.key == u.key && r'.src == u.id && r'.seqno == u.seqno && (r'.installed ==> r.installed)
      && (if Keeps(d, u, now, kernelOk) then r'.refmetric == r.refmetric
          else r'.refmetric == u.refmetric || r'.refmetric >= INFINITY)
      && (r'.installed && r'.refmetric < INFINITY && !Keeps(d, u, now, kernelOk) ==>
            || Better(u.seqno, u.refmetric, d'.sources[u.id].seqno, d'.sources[u.id].metric)
            || Uses(r, u.id, u.key.neigh))
  {
  }

  /** A route whose metric was kept, and what makes it true. */
  predicate KeptFrom(r: Route, r0: Route, u: Update, source: Source) {
    && r0.key == u.key && r0.installed && r0.refmetric == r.refmetric < INFINITY
    && (Covers(r0, u.id, u.seqno) || u.refmetric <= r.refmetric)
    && (r0.src == u.id || Better(u.seqno, r.refmetric, source.seqno, source.metric))
  }

  /** A route that carries the values of the update. */
  ghost predicate ToldBy(r: Route, d: Dest, u: Update, source: Source) {
    && r.refmetric == u.refmetric
    && (r.installed && u.refmetric < INFINITY ==>
          || Better(u.seqno, u.refmetric, source.seqno, source.metric)
          || exists r0 :: r0 in d.chain && Uses(r0, u.id, u.key.neigh))
  }

  /** After an update, routes are as before, are retracted, carry its values, or a metric that was kept. */
  ghost predicate Accepts(d: Dest, u: Update, d': Dest, kept: bool) {
    && ChainOk(d'.chain)
    && SameDistances(d.sources, d'.sources) && u.id in d'.sources
    && (forall r | r in d'.chain ::
          || r in d.chain
          || (&& r.key == u.key && r.src == u.id && r.seqno == u.seqno
              && (|| r.refmetric >= INFINITY
                  || ToldBy(r, d, u, d'.sources[u.id])
                  || (kept && exists r0 :: r0 in d.chain && KeptFrom(r, r0, u, d'.sources[u.id])))))
  }

  lemma {:induction false} UpdateCoreAccepts(d: Dest, dst: Prefix, u: Update, now: int, keep: bool, kernelOk: bool)
    requires ChainOk(d.chain) && Fresh(d, u.id, now) && !Revives(d, u, now, kernelOk)
    requires forall r | r in d.chain :: r.src in d.sources
    requires !Misleads(d, u, now, kernelOk)
    ensures Accepts(d, u, UpdateCore(d, dst, u, now, keep, kernelOk), Keeps(d, u, now, kernelOk))
  {
    if Has(d.chain, u.key) {
      ExistingAccepts(d, dst, u, now, keep, kernelOk);
    } else {
      NewAccepts(d, dst, u, now, keep, kernelOk);
    }
  }

  /** Storing an update leaves the distances as they are. */
  lemma {:induction false} CoreSameDistances(d: Dest, dst: Prefix, u: Update, now: int, keep: bool, kernelOk: bool)
    ensures
      var d' := UpdateCore(d, dst, u, now, keep, kernelOk);
      && SameDistances(d.sources, d'.sources) && u.id in d'.sources
      && var s, s' := FindSource(d.sources, u.id, u.seqno, now)[u.id], d'.sources[u.id];
        s.seqno == s'.seqno && s.metric == s'.metric && s.time == s'.time
  {
    hide Feasible, ChangeMetric, LosesRoute, Put;
  }

  lemma {:induction false} ExistingAccepts(d: Dest, dst: Prefix, u: Update, now: int, keep: bool, kernelOk: bool)
    requires ChainOk(d.chain) && Fresh(d, u.id, now) && !Revives(d, u, now, kernelOk)
    requires forall r | r in d.chain :: r.src in d.sources
    requires !Misleads(d, u, now, kernelOk) && Has(d.chain, u.key)
    ensures Accepts(d, u, UpdateCore(d, dst, u, now, keep, kernelOk), Keeps(d, u, now, kernelOk))
  {
    hide UpdateCore, ChainOk, Revives, SameDistances;
    var d' := UpdateCore(d, dst, u, now, keep, kernelOk);
    UpdatedRoute(d, dst, u, now, keep, kernelOk);
    CoreSameDistances(d, dst, u, now, keep, kernelOk);
    PutOk(d.chain, u.key, d'.chain[Index(d.chain, u.key)]);
  }

  lemma {:induction false} NewAccepts(d: Dest, dst: Prefix, u: Update, now: int, keep: bool, kernelOk: bool)
    requires ChainOk(d.chain) && !Has(d.chain, u.key)
    ensures Accepts(d, u, UpdateCore(d, dst, u, now, keep, kernelOk), Keeps(d, u, now, kernelOk))
  {
    var d' := UpdateCore(d, dst, u, now, keep, kernelOk);
    CoreSameDistances(d, dst, u, now, keep, kernelOk);
    hide Feasible, SameDistances;
    assert forall r | r in d'.chain :: r in d.chain || r == NewRoute(dst, u, now);
  }

  lemma {:induction false} ReceiveIsLocal(n: Net, st: Step)
    requires Inv(n) && st.Receive? && Enabled(n, st) && Guarded(n, st) && AllWindowed(n)
    ensures LocalStep(n, st.u, Local(n, st))
  {
    var d := n.nodes[st.u].dest;
    var d' := Local(n, st);
    if !Ignored(n.dst, n.nodes[st.u].id, Received(st)) {
      var d1 := UpdateCore(d, n.dst, Received(st), st.now, st.keep, st.kernelOk);
      var kept := Keeps(d, Received(st), st.now, st.kernelOk);
      UpdateCoreAccepts(d, n.dst, Received(st), st.now, st.keep, st.kernelOk);
      ReleaseAccepts(d, Received(st), d1, d', kept);
      if st.m.metric < INFINITY {
        SentComparable(n, st.m);
      }
      AcceptedIsLocal(n, st.u, Received(st), d', kept);
    }
  }

  lemma {:induction false} SentComparable(n: Net, m: Msg)
    requires AllWindowed(n) && m in n.chan && m.metric < INFINITY
    ensures Comparable(n, m.id, m.seqno)
  {
    assert Windowed(n, m.id);
    var base: u16 :| Window(n, m.id, base);
  }

  lemma {:induction false} ReleaseAccepts(d: Dest, u: Update, d1: Dest, d': Dest, kept: bool)
    requires Accepts(d, u, d1, kept)
    requires d' == d1 || exists id :: d' == d1.(sources := Release(d1.sources, id))
    ensures Accepts(d, u, d', kept)
  {
  }

  /** What was vouched for under a seqno is so under an older one. */
  lemma {:induction false} CoversVouches(n: Net, x: NodeId, r: Route, q: u16)
    requires RoutesVouched(n) && x in n.nodes && r in n.nodes[x].dest.chain && r.refmetric < INFINITY
    requires Covers(r, r.src, q) && Comparable(n, r.src, q)
    ensures Vouched(n, r.key.neigh, r.src, q, r.refmetric)
  {
    var v, s := r.key.neigh, r.src;
    assert Vouched(n, v, s, r.seqno, r.refmetric);
    if n.nodes[v].id != s {
      var base: u16 :| Window(n, s, base) && InWindow(base, q);
      var a := n.nodes[v].dest.sources[s];
      AtLeastTransitive(base, a.seqno, a.metric, r.seqno, r.refmetric, q, r.refmetric);
    }
  }

  lemma {:induction false} KeptVouched(n: Net, x: NodeId, u: Update, r: Route, r0: Route, source: Source)
    requires Inv(n) && x in n.nodes && r0 in n.nodes[x].dest.chain && KeptFrom(r, r0, u, source)
    requires r.key == u.key && r.src == u.id && r.seqno == u.seqno && Comparable(n, u.id, u.seqno)
    requires u.refmetric < INFINITY ==> Vouched(n, u.key.neigh, u.id, u.seqno, u.refmetric)
    ensures Vouched(n, r.key.neigh, r.src, r.seqno, r.refmetric)
  {
    hide Acyclic, MsgsVouched, EdgesDescend;
    if Covers(r0, u.id, u.seqno) {
      CoversVouches(n, x, r0, u.seqno);
    }
  }

  lemma {:induction false} AcceptedIsLocal(n: Net, x: NodeId, u: Update, d': Dest, kept: bool)
    requires Inv(n) && x in n.nodes && Accepts(n.nodes[x].dest, u, d', kept) && u.id != n.nodes[x].id
    requires u.refmetric < INFINITY ==> Vouched(n, u.key.neigh, u.id, u.seqno, u.refmetric)
    requires kept ==> Comparable(n, u.id, u.seqno)
    ensures LocalStep(n, x, d')
  {
    hide Acyclic, MsgsVouched, EdgesDescend;
    var d := n.nodes[x].dest;
    forall r | r in d'.chain && r.refmetric < INFINITY
      ensures Vouched(n, r.key.neigh, r.src, r.seqno, r.refmetric)
      ensures r.installed ==>
                || Edge(n, r.src, x, r.key.neigh)
                || Better(r.seqno, r.refmetric, d'.sources[r.src].seqno, d'.sources[r.src].metric)
    {
      if r !in d.chain && !ToldBy(r, d, u, d'.sources[u.id]) {
        var r0 :| r0 in d.chain && KeptFrom(r, r0, u, d'.sources[u.id]);
        KeptVouched(n, x, u, r, r0, d'.sources[u.id]);
        assert r0.src == u.id ==> Uses(r0, u.id, u.key.neigh);
      } else if r in d.chain && r.installed {
        assert Uses(r, r.src, r.key.neigh);
      }
    }
  }

  lemma {:induction false} ReconsiderIsLocal(n: Net, st: Step)
    requires Inv(n) && st.Reconsider? && Enabled(n, st) && Guarded(n, st)
    ensures LocalStep(n, st.u, Local(n, st))
  {
    var d := n.nodes[st.u].dest;
    var r := Get(d.chain, st.k);
    if Preferred(d, r, st.now, st.smoothedWorse) {
      Slot.SwitchOk(d.chain, st.k, st.kernelOk);
      if st.kernelOk {
        SwitchIsLocal(n, st.u, r, Local(n, st));
      }
    }
  }

  lemma {:induction false} SwitchIsLocal(n: Net, u: NodeId, r: Route, d': Dest)
    requires Inv(n) && u in n.nodes && r in n.nodes[u].dest.chain
    requires d'.sources == n.nodes[u].dest.sources && ChainOk(d'.chain)
    requires Slot.Rearranged(n.nodes[u].dest.chain, d'.chain)
    requires d'.chain != [] && d'.chain[0] == r.(installed := true)
    requires r.refmetric < INFINITY ==> Better(r.seqno, r.refmetric, d'.sources[r.src].seqno, d'.sources[r.src].metric)
    ensures LocalStep(n, u, d')
  {
    var d := n.nodes[u].dest;
    forall x | x in d'.chain
      ensures x.src in d'.sources && x.src != n.nodes[u].id
      ensures x.refmetric < INFINITY ==> Vouched(n, x.key.neigh, x.src, x.seqno, x.refmetric)
    {
      var y :| y in d.chain && (y == x.(installed := true) || y == x.(installed := false));
    }
  }

  lemma {:induction false} PutIsLocal(n: Net, u: NodeId, k: Key, r': Route)
    requires Inv(n) && u in n.nodes && Has(n.nodes[u].dest.chain, k)
    requires
      var r := Get(n.nodes[u].dest.chain, k);
      && r'.key == k && r'.src == r.src && (r'.installed ==> r.installed)
      && (r'.refmetric < INFINITY ==> r'.refmetric == r.refmetric && Vouched(n, k.neigh, r.src, r'.seqno, r.refmetric))
    ensures LocalStep(n, u, n.nodes[u].dest.(chain := Put(n.nodes[u].dest.chain, k, r')))
  {
    PutOk(n.nodes[u].dest.chain, k, r');
  }

  lemma {:induction false} MetricStepIsLocal(n: Net, st: Step)
    requires Inv(n) && Enabled(n, st) && Guarded(n, st) && (st.Expire? || st.Withdraw? || st.Recost?)
    ensures LocalStep(n, st.u, Local(n, st))
  {
    var d := n.nodes[st.u].dest;
    var r, r' := Get(d.chain, st.k), Local(n, st).chain[Index(d.chain, st.k)];
    if r'.refmetric < INFINITY && r'.seqno != r.seqno {
      CoversVouches(n, st.u, r, r'.seqno);
    }
    PutIsLocal(n, st.u, st.k, r');
  }

  lemma {:induction false} DropShape(d: Dest, k: Key, id: RouterId)
    requires ChainOk(d.chain) && Has(d.chain, k)
    ensures ChainOk(Drop(d, k).chain) && (forall r | r in Drop(d, k).chain :: r in d.chain)
    ensures SameDistances(d.sources, Release(d.sources, id))
  {
  }

  lemma {:induction false} FlushIsLocal(n: Net, st: Step)
    requires Inv(n) && Enabled(n, st) && st.Flush?
    ensures LocalStep(n, st.u, Local(n, st))
  {
    hide Acyclic, RoutesVouched, MsgsVouched, EdgesDescend, LocalStep, Drop, Release, SameDistances, ChainOk;
    var d := n.nodes[st.u].dest;
    DropShape(d, st.k, Get(d.chain, st.k).src);
    RemovalIsLocal(n, st.u, Local(n, st));
  }

  lemma {:induction false} XrouteIsLocal(n: Net, st: Step)
    requires Inv(n) && Enabled(n, st) && (st.AddXroute? || st.DelXroute?)
    ensures LocalStep(n, st.u, Local(n, st))
  {
    var d := n.nodes[st.u].dest;
    var d' := Local(n, st);
    if st.AddXroute? && Installed(d.chain).Some? {
      IndexUnique(d.chain, d.chain[0].key, 0);
    }
    forall r | r in d'.chain ensures r in d.chain || (!r.installed && r.(installed := true) in d.chain) {
      if st.AddXroute? && Installed(d.chain).Some? && r == d'.chain[0] {
        assert r.(installed := true) == d.chain[0];
      }
    }
    RemovalIsLocal(n, st.u, d');
  }

  lemma {:induction false} OthersAreLocal(n: Net, st: Step)
    requires Inv(n) && Enabled(n, st) && Guarded(n, st)
    requires st.Expire? || st.Withdraw? || st.Recost? || st.Flush? || st.AddXroute? || st.DelXroute? || st.Collect?
    ensures LocalStep(n, st.u, Local(n, st))
  {
    match st
    case Flush(_, _) => FlushIsLocal(n, st);
    case AddXroute(_) => XrouteIsLocal(n, st);
    case DelXroute(_) => XrouteIsLocal(n, st);
    case Collect(u, _) => RemovalIsLocal(n, u, Local(n, st));
    case Expire(_, _, _) => MetricStepIsLocal(n, st);
    case Withdraw(_, _, _) => MetricStepIsLocal(n, st);
    case Recost(_, _, _, _, _) => MetricStepIsLocal(n, st);
  }

  lemma {:induction false} RemovalIsLocal(n: Net, u: NodeId, d': Dest)
    requires Inv(n) && u in n.nodes && ChainOk(d'.chain)
    requires SameDistances(n.nodes[u].dest.sources, d'.sources)
    requires
      forall r | r in d'.chain ::
        r in n.nodes[u].dest.chain || (!r.installed && r.(installed := true) in n.nodes[u].dest.chain)
    ensures LocalStep(n, u, d')
  {
  }

  lemma {:induction false} InsideIsLocal(n: Net, st: Step)
    requires Inv(n) && Enabled(n, st) && Guarded(n, st) && AllWindowed(n)
    requires !(st.Advertise? || st.Originate? || st.BumpSeqno? || st.Lose?)
    ensures LocalStep(n, st.u, Local(n, st))
  {
    if st.Receive? {
      ReceiveIsLocal(n, st);
    } else if st.Reconsider? {
      ReconsiderIsLocal(n, st);
    } else {
      OthersAreLocal(n, st);
    }
  }

  // ---- Advertising

  /** Updating a distance with a pair in the window only improves it, and covers the pair. */
  lemma {:induction false} UpdateSourceImproves(base: u16, s: Source, q: u16, m: u16, now: int)
    requires !Stale(s, now) && InWindow(base, s.seqno) && (m < INFINITY ==> InWindow(base, q))
    ensures
      var t := UpdateSource(s, q, m, now);
      && InWindow(base, t.seqno)
      && AtLeast(t.seqno, t.metric, s.seqno, s.metric)
      && (m < INFINITY ==> AtLeast(t.seqno, t.metric, q, m))
      && ((t.seqno == s.seqno && t.metric == s.metric) || (t.seqno == q && t.metric == m && m < INFINITY))
  {
    CompareInWindow(base, s.seqno, if m < INFINITY then q else s.seqno);
    CompareInWindow(base, if m < INFINITY then q else s.seqno, s.seqno);
  }

  lemma {:induction false} AdvertiseVouches(n: Net, st: Step, v: NodeId, s: RouterId, q: u16, m: u16)
    requires Inv(n) && st.Advertise? && Enabled(n, st) && Guarded(n, st) && Windowed(n, s)
    requires Vouched(n, v, s, q, m)
    requires exists base: u16 :: Window(n, s, base) && InWindow(base, q)
    ensures Vouched(Apply(n, st), v, s, q, m)
  {
    hide Acyclic, RoutesVouched, MsgsVouched, EdgesDescend;
    var d := n.nodes[st.u].dest;
    var r := Installed(d.chain).value;
    if v == st.u && s == r.src && n.nodes[v].id != s {
      var base: u16 :| Window(n, s, base) && InWindow(base, q);
      var a := d.sources[s];
      var metric := AdvertisedMetric(r, st.flavour);
      var b := UpdateSource(a, r.seqno, metric, st.now);
      UpdateSourceImproves(base, a, r.seqno, metric, st.now);
      AtLeastTransitive(base, b.seqno, b.metric, a.seqno, a.metric, q, m);
    }
  }

  lemma {:induction false} AdvertiseEdges(n: Net, st: Step, s: RouterId, x: NodeId, v: NodeId)
    requires st.Advertise? && Enabled(n, st)
    ensures Edge(Apply(n, st), s, x, v) <==> Edge(n, s, x, v)
  {
  }

  /** Only the head of a chain can be in use. */
  lemma {:induction false} EdgeIsInstalled(n: Net, s: RouterId, x: NodeId, v: NodeId)
    requires Edge(n, s, x, v) && ChainOk(n.nodes[x].dest.chain)
    ensures Installed(n.nodes[x].dest.chain).Some? && Uses(Installed(n.nodes[x].dest.chain).value, s, v)
  {
    var c := n.nodes[x].dest.chain;
    var e :| e in c && Uses(e, s, v);
    assert e == c[0];
  }

  lemma {:induction false} AdvertiseDescends(n: Net, st: Step, s: RouterId, x: NodeId, v: NodeId)
    requires Inv(n) && st.Advertise? && Enabled(n, st) && Guarded(n, st) && Windowed(n, s)
    requires Edge(n, s, x, v)
    ensures Descends(Apply(n, st), s, x, v)
  {
    hide Acyclic, MsgsVouched, Apply;
    var base: u16 :| Window(n, s, base);
    var r := Installed(n.nodes[st.u].dest.chain).value;
    var a := n.nodes[x].dest.sources[s];
    assert Descends(n, s, x, v);
    AdvertisedSource(n, st, x, s);
    AdvertiseVouches(n, st, v, s, a.seqno, a.metric);
    if x == st.u && s == r.src {
      UpdateSourceImproves(base, a, r.seqno, AdvertisedMetric(r, st.flavour), st.now);
      EdgeIsInstalled(n, s, x, v);
      AdvertiseVouches(n, st, v, s, r.seqno, r.refmetric);
    }
  }

  /** Every update on the way is vouched for, the one just sent by the distance it left. */
  lemma {:induction false} AdvertiseChannel(n: Net, st: Step, m: Msg)
    requires Inv(n) && st.Advertise? && Enabled(n, st) && Guarded(n, st) && AllWindowed(n)
    requires m in Apply(n, st).chan && m.metric < INFINITY
    ensures Vouched(Apply(n, st), m.sender, m.id, m.seqno, m.metric)
  {
    var d := n.nodes[st.u].dest;
    var r := Installed(d.chain).value;
    assert Windowed(n, m.id);
    var base: u16 :| Window(n, m.id, base);
    if m in n.chan {
      AdvertiseVouches(n, st, m.sender, m.id, m.seqno, m.metric);
    } else {
      UpdateSourceImproves(base, d.sources[r.src], r.seqno, AdvertisedMetric(r, st.flavour), st.now);
    }
  }

  lemma {:induction false} AdvertiseKeepsInv(n: Net, st: Step)
    requires Inv(n) && st.Advertise? && Enabled(n, st) && Guarded(n, st) && AllWindowed(n)
    ensures Inv(Apply(n, st))
  {
    var n' := Apply(n, st);
    forall m | m in n'.chan && m.metric < INFINITY
      ensures Vouched(n', m.sender, m.id, m.seqno, m.metric)
    {
      AdvertiseChannel(n, st, m);
    }
    forall x, e | x in n'.nodes && e in n'.nodes[x].dest.chain && e.refmetric < INFINITY
      ensures Vouched(n', e.key.neigh, e.src, e.seqno, e.refmetric)
    {
      assert Windowed(n, e.src);
      var base: u16 :| Window(n, e.src, base);
      assert e in n.nodes[x].dest.chain;
      AdvertiseVouches(n, st, e.key.neigh, e.src, e.seqno, e.refmetric);
    }
    forall s, x, v | Edge(n', s, x, v) ensures Descends(n', s, x, v) {
      AdvertiseEdges(n, st, s, x, v);
      AdvertiseDescends(n, st, s, x, v);
    }
    forall s: RouterId, p ensures !Cycle(n', s, p) {
      SameEdgesAcyclic(n, n', s, p) by {
        forall x, v ensures Edge(n', s, x, v) ==> Edge(n, s, x, v) {
          AdvertiseEdges(n, st, s, x, v);
        }
      }
    }
  }

  lemma {:induction false} SameEdgesAcyclic(n: Net, n': Net, s: RouterId, p: seq<NodeId>)
    requires Acyclic(n, s) && forall x, v :: Edge(n', s, x, v) ==> Edge(n, s, x, v)
    ensures !Cycle(n', s, p)
  {
    assert !Cycle(n, s, p);
  }

  // ---- The remaining steps

  /** Messages appear only under the sender's own id, and nodes keep their distances and routes. */
  lemma {:induction false} ChannelKeepsInv(n: Net, st: Step)
    requires Inv(n) && Enabled(n, st) && (st.Originate? || st.BumpSeqno? || st.Lose?)
    ensures Inv(Apply(n, st))
  {
    var n' := Apply(n, st);
    assert forall u | u in n'.nodes :: n'.nodes[u].dest == n.nodes[u].dest && n'.nodes[u].id == n.nodes[u].id;
    forall m | m in n'.chan && m.metric < INFINITY
      ensures Vouched(n', m.sender, m.id, m.seqno, m.metric)
    {
    }
    forall s, x, v | Edge(n', s, x, v) ensures Edge(n, s, x, v) && Descends(n', s, x, v) {
      assert Edge(n, s, x, v);
      assert Descends(n, s, x, v);
    }
    forall s: RouterId, p ensures !Cycle(n', s, p) {
      SameEdgesAcyclic(n, n', s, p);
    }
  }

  /** Every step that satisfies the hypotheses keeps the invariant. */
  lemma {:induction false} StepKeepsInv(n: Net, st: Step)
    requires Inv(n) && Enabled(n, st) && Guarded(n, st)
    requires AllWindowed(n) && AllWindowed(Apply(n, st))
    ensures Inv(Apply(n, st))
  {
    if st.Advertise? {
      AdvertiseKeepsInv(n, st);
    } else if st.Originate? || st.BumpSeqno? || st.Lose? {
      ChannelKeepsInv(n, st);
    } else {
      InsideIsLocal(n, st);
      LocalStepKeepsInv(n, st.u, Local(n, st));
    }
  }

  lemma {:induction false} RunKeepsInv(n: Net, steps: seq<Step>)
    requires Run(n, steps) && Inv(n)
    ensures Inv(Exec(n, steps))
    decreases |steps|
  {
    if |steps| > 0 {
      assert Run(Apply(n, steps[0]), steps[1..]);
      StepKeepsInv(n, steps[0]);
      RunKeepsInv(Apply(n, steps[0]), steps[1..]);
    }
  }

  lemma {:induction false} InitialInv(n: Net)
    requires Initial(n)
    ensures Inv(n)
  {
    forall s: RouterId, p ensures !Cycle(n, s, p) {
      if |p| >= 2 { assert !Edge(n, s, p[0], p[1]); }
    }
  }

  /**
   Loop freedom: whatever updates are lost, duplicated or delayed, and however routes are
   selected, no run that satisfies the hypotheses reaches a state in which the installed
   routes for one source form a loop.
   */
  lemma {:induction false} LoopFree(n: Net, steps: seq<Step>, s: RouterId, p: seq<NodeId>)
    requires Initial(n) && Run(n, steps)
    ensures !ForwardingLoop(Exec(n, steps), s, p)
  {
    InitialInv(n);
    RunKeepsInv(n, steps);
    var n' := Exec(n, steps);
    if ForwardingLoop(n', s, p) {
      forall i | 0 <= i < |p| - 1 ensures Edge(n', s, p[i], p[i + 1]) {
        assert Forwards(n', s, p[i], p[i + 1]);
        var r :| && r in n'.nodes[p[i]].dest.chain && r.installed && r.src == s && r.key.neigh == p[i + 1]
                 && Metric(r) < INFINITY;
        assert Uses(r, s, p[i + 1]);
      }
      assert Acyclic(n', s) && Cycle(n', s, p);
    }
  }

  // ---- Distances over runs

  /** Node `u`'s distance for `s` is the same or better afterwards. */
  predicate Improves(n: Net, n': Net, u: NodeId, s: RouterId) {
    u in n.nodes && u in n'.nodes && s in n.nodes[u].dest.sources ==>
      && s in n'.nodes[u].dest.sources
      && var a, b := n.nodes[u].dest.sources[s], n'.nodes[u].dest.sources[s];
        AtLeast(b.seqno, b.metric, a.seqno, a.metric)
  }

  /** No stale source is recorded anew or collected. */
  predicate Unaged(n: Net, st: Step)
    requires Enabled(n, st)
  {
    match st
    case Advertise(u, _, _, now) => Fresh(n.nodes[u].dest, Installed(n.nodes[u].dest.chain).value.src, now)
    case Collect(u, now) => NothingCollected(n.nodes[u].dest.sources, now)
    case _ => true
  }

  /** From no state, and whatever the kernel answers, does a step make a feasibility distance worse. */
  lemma {:induction false} DistancesNeverWorsen(n: Net, st: Step, u: NodeId, s: RouterId)
    requires Enabled(n, st) && Unaged(n, st) && u in n.nodes
    ensures u in Apply(n, st).nodes && Improves(n, Apply(n, st), u, s)
  {
    if st.Advertise? {
      AdvertiseImproves(n, st, u, s);
    } else if !(st.Originate? || st.BumpSeqno? || st.Lose?) {
      InsideKeeps(n, st);
    }
  }

  lemma {:induction false} AdvertiseImproves(n: Net, st: Step, u: NodeId, s: RouterId)
    requires st.Advertise? && Enabled(n, st) && Unaged(n, st) && u in n.nodes
    ensures u in Apply(n, st).nodes && Improves(n, Apply(n, st), u, s)
  {
    if s in n.nodes[u].dest.sources {
      var r, a := Installed(n.nodes[st.u].dest.chain).value, n.nodes[u].dest.sources[s];
      AdvertisedSource(n, st, u, s);
      CompareBothWays(a.seqno, r.seqno);
    } else {
      NodesKept(n, st);
    }
  }

  lemma {:induction false} CompareBothWays(q: u16, p: u16)
    ensures Compare(q, p) < 0 ==> Compare(p, q) > 0
  {
  }

  /** Steps inside a node keep its distances. */
  lemma {:induction false} InsideKeeps(n: Net, st: Step)
    requires Enabled(n, st) && Unaged(n, st)
    requires !(st.Advertise? || st.Originate? || st.BumpSeqno? || st.Lose?)
    ensures SameDistances(n.nodes[st.u].dest.sources, Local(n, st).sources)
  {
    hide Feasible, Switch, Preferred, ChangeMetric, LosesRoute, UpdateCore;
    if st.Receive? {
      CoreSameDistances(n.nodes[st.u].dest, n.dst, Received(st), st.now, st.keep, st.kernelOk);
    }
  }

  /** A router's distance is at least as good as every finite update of its that is still in flight. */
  lemma {:induction false} DistanceCoversSent(n: Net, steps: seq<Step>, m: Msg)
    requires Initial(n) && Run(n, steps)
    requires m in Exec(n, steps).chan && m.metric < INFINITY
    ensures Vouched(Exec(n, steps), m.sender, m.id, m.seqno, m.metric)
  {
    InitialInv(n);
    RunKeepsInv(n, steps);
  }

  /** A run in all of whose states the seqno `q` is comparable. */
  ghost predicate RunComparable(n: Net, steps: seq<Step>, s: RouterId, q: u16)
    requires Run(n, steps)
    decreases |steps|
  {
    Comparable(n, s, q) && (|steps| > 0 ==> RunComparable(Apply(n, steps[0]), steps[1..], s, q))
  }

  lemma {:induction false} StepStillVouched(n: Net, st: Step, v: NodeId, s: RouterId, q: u16, m: u16)
    requires Inv(n) && Enabled(n, st) && Guarded(n, st) && AllWindowed(n) && Comparable(n, s, q)
    requires Vouched(n, v, s, q, m)
    ensures Vouched(Apply(n, st), v, s, q, m)
  {
    hide Acyclic, MsgsVouched, RoutesVouched, EdgesDescend;
    if st.Advertise? {
      assert Windowed(n, s);
      AdvertiseVouches(n, st, v, s, q, m);
    } else if !(st.Originate? || st.BumpSeqno? || st.Lose?) {
      InsideIsLocal(n, st);
      StillVouched(n, st.u, Local(n, st), v, s, q, m);
    }
  }

  lemma {:induction false} RunStillVouched(n: Net, steps: seq<Step>, v: NodeId, s: RouterId, q: u16, m: u16)
    requires Run(n, steps) && Inv(n) && RunComparable(n, steps, s, q) && Vouched(n, v, s, q, m)
    ensures Vouched(Exec(n, steps), v, s, q, m)
    decreases |steps|
  {
    hide Acyclic, MsgsVouched, RoutesVouched, EdgesDescend, Vouched, Comparable, AllWindowed, Inv;
    if |steps| > 0 {
      var n' := Apply(n, steps[0]);
      NextWindowed(n, steps);
      StepStillVouched(n, steps[0], v, s, q, m);
      StepKeepsInv(n, steps[0]);
      RunStillVouched(n', steps[1..], v, s, q, m);
    }
  }

  lemma {:induction false} NextWindowed(n: Net, steps: seq<Step>)
    requires Run(n, steps) && |steps| > 0
    ensures AllWindowed(Apply(n, steps[0]))
  {
    assert Run(Apply(n, steps[0]), steps[1..]);
  }

  /** A router's distance stays at least as good as every finite update it ever sent, delivered, lost or on its way. */
  lemma {:induction false} DistanceCoversEverSent(n: Net, before: seq<Step>, after: seq<Step>, m: Msg)
    requires Initial(n) && Run(n, before) && m in Exec(n, before).chan && m.metric < INFINITY
    requires Run(Exec(n, before), after) && RunComparable(Exec(n, before), after, m.id, m.seqno)
    ensures Vouched(Exec(Exec(n, before), after), m.sender, m.id, m.seqno, m.metric)
  {
    InitialInv(n);
    RunKeepsInv(n, before);
    DistanceCoversSent(n, before, m);
    RunStillVouched(Exec(n, before), after, m.sender, m.id, m.seqno, m.metric);
  }

  /** Every advertised metric exceeds the metric received: links have a positive cost. */
  predicate PositiveCost(n: Net, st: Step)
    requires Enabled(n, st)
  {
    st.Advertise? ==>
      var r := Installed(n.nodes[st.u].dest.chain).value;
      st.flavour.Interfering? ==> r.cost + r.add > 0
  }

  /** The next hop originates `s` or has a strictly better distance. */
  predicate DescendsStrictly(n: Net, s: RouterId, u: NodeId, v: NodeId) {
    && u in n.nodes && v in n.nodes
    && (|| n.nodes[v].id == s
        || (&& s in n.nodes[u].dest.sources && s in n.nodes[v].dest.sources
            && var a, b := n.nodes[v].dest.sources[s], n.nodes[u].dest.sources[s];
              Better(a.seqno, a.metric, b.seqno, b.metric)))
  }

  ghost predicate EdgesDescendStrictly(n: Net) {
    forall s, u, v | Edge(n, s, u, v) :: DescendsStrictly(n, s, u, v)
  }

  lemma {:induction false} LocalStepStrict(n: Net, u: NodeId, d': Dest, s: RouterId, x: NodeId, v: NodeId)
    requires u in n.nodes && Inv(n) && EdgesDescendStrictly(n) && LocalStep(n, u, d')
    requires Windowed(SetDest(n, u, d'), s)
    requires Edge(SetDest(n, u, d'), s, x, v)
    ensures DescendsStrictly(SetDest(n, u, d'), s, x, v)
  {
    var n' := SetDest(n, u, d');
    if Edge(n, s, x, v) {
      assert DescendsStrictly(n, s, x, v) && Descends(n, s, x, v);
    } else {
      var r :| r in d'.chain && Uses(r, s, v);
      StillVouched(n, u, d', v, s, r.seqno, r.refmetric);
      if n.nodes[v].id != s {
        var base: u16 :| Window(n', s, base);
        var a, c := n'.nodes[v].dest.sources[s], d'.sources[s];
        AtLeastTransitive(base, a.seqno, a.metric, r.seqno, r.refmetric, c.seqno, c.metric);
      }
    }
  }

  /** A next hop's distance `a`, better than `b` and covering (q, m), stays better than `b` updated. */
  lemma {:induction false} StaysBetter(base: u16, a: Source, a': Source, b: Source, b': Source, q: u16, m: u16,
                                       metric: u16)
    requires InWindow(base, a.seqno) && InWindow(base, a'.seqno) && InWindow(base, b.seqno) && InWindow(base, b'.seqno)
    requires AtLeast(a'.seqno, a'.metric, a.seqno, a.metric) && Better(a.seqno, a.metric, b.seqno, b.metric)
    requires (b'.seqno == b.seqno && b'.metric == b.metric)
          || (b'.seqno == q && b'.metric == metric && m < metric && AtLeast(a.seqno, a.metric, q, m))
    ensures Better(a'.seqno, a'.metric, b'.seqno, b'.metric)
  {
    if b'.seqno == b.seqno && b'.metric == b.metric {
      AtLeastTransitive(base, a'.seqno, a'.metric, a.seqno, a.metric, b.seqno, b.metric);
    } else {
      AtLeastTransitive(base, a.seqno, a.metric, q, m, q, metric);
      AtLeastTransitive(base, a'.seqno, a'.metric, a.seqno, a.metric, q, metric);
    }
  }

  /** What an advertisement does to the distances of a node. */
  lemma {:induction false} AdvertisedSource(n: Net, st: Step, x: NodeId, s: RouterId)
    requires st.Advertise? && Enabled(n, st) && x in n.nodes && s in n.nodes[x].dest.sources
    ensures
      var n', r, a := Apply(n, st), Installed(n.nodes[st.u].dest.chain).value, n.nodes[x].dest.sources[s];
      && x in n'.nodes && n'.nodes[x].id == n.nodes[x].id && s in n'.nodes[x].dest.sources
      && n'.nodes[x].dest.sources[s]
         == if x == st.u && s == r.src then UpdateSource(a, r.seqno, AdvertisedMetric(r, st.flavour), st.now) else a
  {
  }

  lemma {:induction false} AdvertiseStrict(n: Net, st: Step, s: RouterId, x: NodeId, v: NodeId)
    requires Inv(n) && EdgesDescendStrictly(n) && st.Advertise? && Enabled(n, st) && Guarded(n, st)
    requires PositiveCost(n, st) && Windowed(n, s) && Edge(n, s, x, v)
    ensures DescendsStrictly(Apply(n, st), s, x, v)
  {
    hide Acyclic, MsgsVouched, Apply;
    var d := n.nodes[st.u].dest;
    var r := Installed(d.chain).value;
    assert Descends(n, s, x, v) && DescendsStrictly(n, s, x, v);
    AdvertisedSource(n, st, x, s);
    if n.nodes[v].id != s {
      AdvertisedSource(n, st, v, s);
      if s == r.src {
        var base: u16 :| Window(n, s, base);
        var metric := AdvertisedMetric(r, st.flavour);
        var t := UpdateSource(d.sources[s], r.seqno, metric, st.now);
        UpdateSourceImproves(base, d.sources[s], r.seqno, metric, st.now);
        MetricBounds(r, if st.flavour.Noninterfering? then st.flavour.diversityFactor else 0);
        EdgeIsInstalled(n, s, x, v);
        var a, b := n.nodes[v].dest.sources[s], n.nodes[x].dest.sources[s];
        StaysBetter(base, a, if v == st.u then t else a, b, if x == st.u then t else b, r.seqno, r.refmetric, metric);
      }
    } else {
      NodesKept(n, st);
    }
  }

  lemma {:induction false} NodesKept(n: Net, st: Step)
    requires st.Advertise? && Enabled(n, st)
    ensures Apply(n, st).nodes.Keys == n.nodes.Keys
    ensures forall x | x in n.nodes :: Apply(n, st).nodes[x].id == n.nodes[x].id
  {
  }

  lemma {:induction false} StepStrict(n: Net, st: Step)
    requires Inv(n) && EdgesDescendStrictly(n) && Enabled(n, st) && Guarded(n, st) && PositiveCost(n, st)
    requires AllWindowed(n) && AllWindowed(Apply(n, st))
    ensures EdgesDescendStrictly(Apply(n, st))
  {
    var n' := Apply(n, st);
    forall s, x, v | Edge(n', s, x, v) ensures DescendsStrictly(n', s, x, v) {
      assert Windowed(n, s) && Windowed(n', s);
      if st.Advertise? {
        AdvertiseEdges(n, st, s, x, v);
        AdvertiseStrict(n, st, s, x, v);
      } else if st.Originate? || st.BumpSeqno? || st.Lose? {
        assert Edge(n, s, x, v);
        assert Descends(n, s, x, v) && DescendsStrictly(n, s, x, v);
      } else {
        InsideIsLocal(n, st);
        LocalStepStrict(n, st.u, Local(n, st), s, x, v);
      }
    }
  }

  ghost predicate PositiveRun(n: Net, steps: seq<Step>)
    requires Run(n, steps)
    decreases |steps|
  {
    |steps| > 0 ==> PositiveCost(n, steps[0]) && PositiveRun(Apply(n, steps[0]), steps[1..])
  }

  lemma {:induction false} RunStrict(n: Net, steps: seq<Step>)
    requires Run(n, steps) && PositiveRun(n, steps) && Inv(n) && EdgesDescendStrictly(n)
    ensures EdgesDescendStrictly(Exec(n, steps))
    decreases |steps|
  {
    if |steps| > 0 {
      var n' := Apply(n, steps[0]);
      assert Run(n', steps[1..]);
      StepKeepsInv(n, steps[0]);
      StepStrict(n, steps[0]);
      RunStrict(n', steps[1..]);
    }
  }

  /**
   With positive link costs the next hop of every used route has a strictly better
   distance than the router that uses it, even after an unfeasible update for the same
   source was kept.
   */
  lemma {:induction false} NextHopStrictlyBetter(n: Net, steps: seq<Step>, s: RouterId, u: NodeId, v: NodeId)
    requires Initial(n) && Run(n, steps) && PositiveRun(n, steps)
    requires Forwards(Exec(n, steps), s, u, v)
    ensures DescendsStrictly(Exec(n, steps), s, u, v)
  {
    InitialInv(n);
    RunStrict(n, steps);
    var n' := Exec(n, steps);
    var r :| r in n'.nodes[u].dest.chain && r.installed && r.src == s && r.key.neigh == v && Metric(r) < INFINITY;
    assert Uses(r, s, v);
  }

  /**
   A router that raises its seqno ends starvation: the next update that it originates is feasible, at any metric, for
   every router whose distance is at the former seqno or less than a half circle behind it, and for no other unless its
   distance is stale, or is at the new seqno and worse than the update.
   */
  lemma {:induction false} BumpEndsStarvation(n: Net, u: NodeId, metric: u16, v: NodeId, now: int)
    requires u in n.nodes && v in n.nodes && n.nodes[u].id in n.nodes[v].dest.sources && metric < INFINITY
    ensures
      var n' := Apply(Apply(n, BumpSeqno(u)), Originate(u, metric));
      var id, q := n.nodes[u].id, n.nodes[u].seqno;
      var s := n'.nodes[v].dest.sources[id];
      && n'.chan == n.chan + {Msg(u, id, (q + 1) % 0x10000, metric)}
      && (Feasible(s, n'.nodes[u].seqno, metric, now) <==>
            || (q - s.seqno) % 0x10000 < 0x8000
            || Stale(s, now)
            || (s.seqno == (q + 1) % 0x10000 && metric < s.metric))
  {
    var q: int, d: int := n.nodes[u].seqno, n.nodes[v].dest.sources[n.nodes[u].id].seqno;
    assert (d - (q + 1) % 0x10000) % 0x10000 == (d - q - 1) % 0x10000;
    assert (q - d) % 0x10000 < 0x8000 <==> (d - q - 1) % 0x10000 >= 0x8000;
  }
}
