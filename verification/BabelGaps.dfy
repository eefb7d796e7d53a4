/**
 Two runs of babeld that end in a forwarding loop, each breaking exactly one hypothesis
 of `BabelNet.LoopFree`, and the exact reach of both gaps.
 Router 0 originates source 9; routers 1 and 2 are its neighbours and each other's.
 */
module BabelGaps {
  import opened Basics
  import opened Seqno
  import opened Address
  import opened BabelRoute
  import opened BabelNet

  const HERE: Addr := [0, 0, 0, 0, 0, 0, 0, 0, 0, 0, 0, 0, 0, 0, 0, 0]
  const DST: Prefix := Prefix(HERE, 0)
  const NOTHING: Dest := Dest([], map[], false)

  function Net3(a: Dest, b: Dest, chan: set<Msg>): Net {
    Net(map[0 := Node(9, 0, NOTHING), 1 := Node(1, 0, a), 2 := Node(2, 0, b)], chan, DST)
  }

  function Via(neigh: nat, seqno: u16, refmetric: u16, cost: u16, installed: bool): Route {
    Route(DST, Key(neigh, HERE), 9, seqno, refmetric, cost, 0, 0, 100, installed)
  }

  function One(r: Route, seqno: u16, metric: u16): Dest {
    Dest([r], map[9 := Source(seqno, metric, 0, 1)], false)
  }

  function Two(r: Route, t: Route, seqno: u16, metric: u16): Dest {
    Dest([r, t], map[9 := Source(seqno, metric, 0, 2)], false)
  }

  function Rx(u: NodeId, m: Msg, cost: u16): Step { Receive(u, m, HERE, cost, 0, 100, 0, false, true) }

  /** The same, but the kernel refuses the metric change. */
  function RxRefused(u: NodeId, m: Msg, cost: u16): Step { Receive(u, m, HERE, cost, 0, 100, 0, false, false) }

  function Rc(u: NodeId, neigh: nat): Step { Reconsider(u, Key(neigh, HERE), 0, true, true) }

  function Ad(u: NodeId): Step { Advertise(u, Interfering, 0, 0) }

  // ---- Building runs

  lemma {:induction false} Extend(n: Net, steps: seq<Step>, st: Step)
    requires Run(n, steps)
    requires Enabled(Exec(n, steps), st) && Guarded(Exec(n, steps), st)
    requires AllWindowed(Apply(Exec(n, steps), st))
    ensures Run(n, steps + [st]) && Exec(n, steps + [st]) == Apply(Exec(n, steps), st)
    decreases |steps|
  {
    if |steps| == 0 {
      assert (steps + [st])[1..] == [];
    } else {
      var n1 := Apply(n, steps[0]);
      Extend(n1, steps[1..], st);
      assert (steps + [st])[1..] == steps[1..] + [st];
    }
  }

  /** Some guarded run leads from `n` to `n'`. */
  ghost predicate Reach(n: Net, n': Net) {
    exists steps :: Run(n, steps) && Exec(n, steps) == n'
  }

  lemma {:induction false} ReachStep(n: Net, n': Net, st: Step)
    requires Reach(n, n') && Enabled(n', st) && Guarded(n', st) && AllWindowed(Apply(n', st))
    ensures Reach(n, Apply(n', st))
  {
    var steps :| Run(n, steps) && Exec(n, steps) == n';
    Extend(n, steps, st);
  }

  predicate LowSeqnos(d: Dest) {
    && (forall id | id in d.sources :: d.sources[id].seqno <= 1)
    && (forall r | r in d.chain :: r.seqno <= 1)
  }

  lemma {:induction false} LowWindow(a: Dest, b: Dest, chan: set<Msg>)
    requires LowSeqnos(a) && LowSeqnos(b) && forall m | m in chan :: m.seqno <= 1
    ensures AllWindowed(Net3(a, b, chan))
  {
    forall s: RouterId ensures Windowed(Net3(a, b, chan), s) {
      assert Window(Net3(a, b, chan), s, 0);
    }
  }

  function Sides(u: NodeId, a: Dest, b: Dest): Dest { if u == 1 then a else b }

  /** A guarded step of router 1 or 2 that changes only its routes. */
  lemma {:induction false} StepAt(n: Net, a: Dest, b: Dest, chan: set<Msg>, st: Step, d': Dest)
    requires Reach(n, Net3(a, b, chan))
    requires st.Receive? || st.Reconsider? || st.Withdraw? || st.Expire? || st.Flush?
    requires st.u == 1 || st.u == 2
    requires Enabled(Net3(a, b, chan), st) && Guarded(Net3(a, b, chan), st)
    requires Local(Net3(a, b, chan), st) == d'
    requires LowSeqnos(a) && LowSeqnos(b) && LowSeqnos(d') && forall m | m in chan :: m.seqno <= 1
    ensures Reach(n, if st.u == 1 then Net3(d', b, chan) else Net3(a, d', chan))
  {
    hide Local, Guarded, Reach;
    var a', b' := if st.u == 1 then d' else a, if st.u == 2 then d' else b;
    assert Apply(Net3(a, b, chan), st).nodes == Net3(a', b', chan).nodes;
    LowWindow(a', b', chan);
    ReachStep(n, Net3(a, b, chan), st);
  }

  lemma {:induction false} RxAt(n: Net, a: Dest, b: Dest, chan: set<Msg>, u: NodeId, m: Msg, cost: u16, d': Dest)
    requires Reach(n, Net3(a, b, chan))
    requires (u == 1 || u == 2) && m in chan && m.id == 9
    requires
      var d := Sides(u, a, b);
      var up := Received(Rx(u, m, cost));
      && Fresh(d, 9, 0) && !Revives(d, up, 0, true)
      && d' == (if Has(d.chain, up.key)
                then var d1 := UpdateCore(d, DST, up, 0, false, true);
                  d1.(sources := Release(d1.sources, Get(d.chain, up.key).src))
                else UpdateCore(d, DST, up, 0, false, true))
    requires LowSeqnos(a) && LowSeqnos(b) && LowSeqnos(d') && forall m | m in chan :: m.seqno <= 1
    ensures Reach(n, if u == 1 then Net3(d', b, chan) else Net3(a, d', chan))
  {
    StepAt(n, a, b, chan, Rx(u, m, cost), d');
  }

  lemma {:induction false} RcAt(n: Net, a: Dest, b: Dest, chan: set<Msg>, u: NodeId, neigh: nat, d': Dest)
    requires Reach(n, Net3(a, b, chan))
    requires u == 1 || u == 2
    requires
      var d := Sides(u, a, b);
      && Has(d.chain, Key(neigh, HERE)) && Get(d.chain, Key(neigh, HERE)).src == 9 && Fresh(d, 9, 0)
      && d' == Consider(d, Key(neigh, HERE), 0, true, true)
    requires LowSeqnos(a) && LowSeqnos(b) && LowSeqnos(d') && forall m | m in chan :: m.seqno <= 1
    ensures Reach(n, if u == 1 then Net3(d', b, chan) else Net3(a, d', chan))
  {
    StepAt(n, a, b, chan, Rc(u, neigh), d');
  }

  /** An advertisement by router 1 or 2 of its only or first route. */
  lemma {:induction false} AdAt(n: Net, a: Dest, b: Dest, chan: set<Msg>, u: NodeId, d': Dest, m: Msg)
    requires Reach(n, Net3(a, b, chan))
    requires u == 1 || u == 2
    requires Enabled(Net3(a, b, chan), Ad(u)) && Guarded(Net3(a, b, chan), Ad(u))
    requires
      var d := if u == 1 then a else b;
      var r := Installed(d.chain).value;
      && r.src == 9
      && m == Msg(u, 9, r.seqno, Metric(r))
      && d'.chain == d.chain && d'.xroute == d.xroute
      && d'.sources == d.sources[9 := UpdateSource(d.sources[9], r.seqno, Metric(r), 0)]
    requires LowSeqnos(a) && LowSeqnos(b) && LowSeqnos(d') && m.seqno <= 1 && forall m | m in chan :: m.seqno <= 1
    ensures Reach(n, if u == 1 then Net3(d', b, chan + {m}) else Net3(a, d', chan + {m}))
  {
    var a', b' := if u == 1 then d' else a, if u == 2 then d' else b;
    var n' := Apply(Net3(a, b, chan), Ad(u));
    assert n'.nodes == Net3(a', b', chan).nodes;
    assert n'.chan == chan + {m};
    LowWindow(a', b', chan + {m});
    ReachStep(n, Net3(a, b, chan), Ad(u));
  }

  const O0 := Msg(0, 9, 0, 0)
  const B5 := Msg(2, 9, 0, 5)

  /** A first update about source 9 is stored and, when reconsidered, installed. */
  lemma {:induction false} First(neigh: nat, refmetric: u16, cost: u16)
    requires refmetric + cost < INFINITY
    ensures
      var u := Update(9, 0, refmetric, Key(neigh, HERE), cost, 0, 100);
      var d := One(Via(neigh, 0, refmetric, cost, false), 0, INFINITY);
      && UpdateCore(NOTHING, DST, u, 0, false, true) == d
      && Consider(d, Key(neigh, HERE), 0, true, true) == One(Via(neigh, 0, refmetric, cost, true), 0, INFINITY)
  {
    var u := Update(9, 0, refmetric, Key(neigh, HERE), cost, 0, 100);
    assert FindSource(map[], 9, 0, 0) == map[9 := Source(0, INFINITY, 0, 0)];
  }

  const START := Net3(NOTHING, NOTHING, {})

  lemma {:induction false} Originated()
    ensures Reach(START, Net3(NOTHING, NOTHING, {O0}))
  {
    LowWindow(NOTHING, NOTHING, {});
    assert Run(START, []) && Exec(START, []) == START;
    assert Apply(START, Originate(0, 0)) == Net3(NOTHING, NOTHING, {O0});
    LowWindow(NOTHING, NOTHING, {O0});
    ReachStep(START, START, Originate(0, 0));
  }

  /** Router `u`, which has heard nothing, stores and installs a first update. */
  lemma {:induction false} Learns(a: Dest, b: Dest, chan: set<Msg>, u: NodeId, m: Msg, cost: u16)
    requires Reach(START, Net3(a, b, chan)) && (u == 1 || u == 2) && Sides(u, a, b) == NOTHING
    requires m in chan && m == Msg(m.sender, 9, 0, m.metric) && m.metric + cost < INFINITY
    requires LowSeqnos(a) && LowSeqnos(b) && forall m | m in chan :: m.seqno <= 1
    ensures
      var d := One(Via(m.sender, 0, m.metric, cost, true), 0, INFINITY);
      Reach(START, if u == 1 then Net3(d, b, chan) else Net3(a, d, chan))
  {
    First(m.sender, m.metric, cost);
    var d1 := One(Via(m.sender, 0, m.metric, cost, false), 0, INFINITY);
    RxAt(START, a, b, chan, u, m, cost, d1);
    var a1, b1 := if u == 1 then d1 else a, if u == 2 then d1 else b;
    RcAt(START, a1, b1, chan, u, m.sender, One(Via(m.sender, 0, m.metric, cost, true), 0, INFINITY));
  }

  /** Router 2 uses router 0 and has told router 1, which uses router 2. */
  lemma {:induction false} CommonStart()
    ensures Reach(START, Net3(One(Via(2, 0, 5, 1, true), 0, INFINITY), One(Via(0, 0, 0, 5, true), 0, 5), {O0, B5}))
  {
    Originated();
    Learns(NOTHING, NOTHING, {O0}, 2, O0, 5);
    var b3 := One(Via(0, 0, 0, 5, true), 0, 5);
    AdAt(START, NOTHING, One(Via(0, 0, 0, 5, true), 0, INFINITY), {O0}, 2, b3, B5);
    assert {O0} + {B5} == {O0, B5};
    Learns(NOTHING, b3, {O0, B5}, 1, B5, 1);
  }

  // ---- A refused metric change

  /**
   Router 2's route expires and it tells router 1, whose kernel refuses the metric change:
   router 1 keeps the old metric under the new seqno, advertises it, and router 2 believes it.
   */
  lemma {:induction false} KernelRefusalLoops() returns (n1: Net, m: Msg, n2: Net)
    ensures Reach(START, n1) && Enabled(n1, RxRefused(1, m, 1)) && Enabled(n1, Rx(1, m, 1))
    ensures Guarded(n1, Rx(1, m, 1)) && AllWindowed(Apply(n1, RxRefused(1, m, 1)))
    ensures Misleads(n1.nodes[1].dest, Received(RxRefused(1, m, 1)), 0, false)
    ensures Reach(Apply(n1, RxRefused(1, m, 1)), n2) && ForwardingLoop(n2, 9, [1, 2, 1])
  {
    CommonStart();
    var a, b0 := One(Via(2, 0, 5, 1, true), 0, INFINITY), One(Via(0, 0, 0, 5, true), 0, 5);
    var b := One(Via(0, 1, INFINITY, INFINITY, true), 0, 5);
    StepAt(START, a, b0, {O0, B5}, Expire(2, Key(0, HERE), true), b);
    var retraction := Msg(2, 9, 1, INFINITY);
    AdAt(START, a, b, {O0, B5}, 2, b, retraction);
    var chan := {O0, B5} + {retraction};
    n1 := Net3(a, b, chan);
    m := retraction;
    var a' := One(Via(2, 1, 5, 1, true), 0, INFINITY);
    Refused(a, b, chan, retraction);
    AfterRefusal(a', b, chan);
    n2 := Net3(One(Via(2, 1, 5, 1, true), 1, 6),
               Two(Via(1, 1, 6, 1, true), Via(0, 1, INFINITY, INFINITY, false), 0, 5),
               chan + {Msg(1, 9, 1, 6)});
    LoopBetween(n2);
  }

  lemma {:induction false} Refused(a: Dest, b: Dest, chan: set<Msg>, m: Msg)
    requires a == One(Via(2, 0, 5, 1, true), 0, INFINITY) && LowSeqnos(b)
    requires m == Msg(2, 9, 1, INFINITY) && m in chan && forall m | m in chan :: m.seqno <= 1
    ensures
      var st := RxRefused(1, m, 1);
      var n := Net3(a, b, chan);
      && Enabled(n, st) && Enabled(n, Rx(1, m, 1)) && Guarded(n, Rx(1, m, 1)) && AllWindowed(Apply(n, st))
      && Apply(n, st) == Net3(One(Via(2, 1, 5, 1, true), 0, INFINITY), b, chan)
      && Misleads(a, Received(st), 0, false)
  {
    var st := RxRefused(1, m, 1);
    var a' := One(Via(2, 1, 5, 1, true), 0, INFINITY);
    assert Local(Net3(a, b, chan), st) == a';
    assert Apply(Net3(a, b, chan), st).nodes == Net3(a', b, chan).nodes;
    LowWindow(a', b, chan);
  }

  lemma {:induction false} AfterRefusal(a: Dest, b: Dest, chan: set<Msg>)
    requires a == One(Via(2, 1, 5, 1, true), 0, INFINITY)
    requires b == One(Via(0, 1, INFINITY, INFINITY, true), 0, 5)
    requires forall m | m in chan :: m.seqno <= 1
    ensures Reach(Net3(a, b, chan),
                  Net3(One(Via(2, 1, 5, 1, true), 1, 6),
                       Two(Via(1, 1, 6, 1, true), Via(0, 1, INFINITY, INFINITY, false), 0, 5),
                       chan + {Msg(1, 9, 1, 6)}))
  {
    var n := Net3(a, b, chan);
    LowWindow(a, b, chan);
    assert Run(n, []) && Exec(n, []) == n;
    var a2 := One(Via(2, 1, 5, 1, true), 1, 6);
    AdAt(n, a, b, chan, 1, a2, Msg(1, 9, 1, 6));
    Adopts(n, a2, b, chan + {Msg(1, 9, 1, 6)}, Via(0, 1, INFINITY, INFINITY, true), Msg(1, 9, 1, 6));
  }

  /** Router 2, whose route `r` is retracted, hears a feasible update from router 1 and switches to it. */
  lemma {:induction false} Adopts(n: Net, a: Dest, b: Dest, chan: set<Msg>, r: Route, m: Msg)
    requires Reach(n, Net3(a, b, chan)) && LowSeqnos(a) && LowSeqnos(b)
    requires r == Via(0, r.seqno, INFINITY, INFINITY, true) && b == One(r, 0, 5)
    requires m in chan && m.sender == 1 && m.id == 9 && m.metric < 100 && forall m | m in chan :: m.seqno <= 1
    requires Feasible(b.sources[9], m.seqno, m.metric, 0)
    ensures Reach(n, Net3(a, Two(Via(1, m.seqno, m.metric, 1, true), r.(installed := false), 0, 5), chan))
  {
    SecondRoute(b, r, 0, 5, m, 2);
    var b2 := Two(r, Via(1, m.seqno, m.metric, 1, false), 0, 5);
    RxAt(n, a, b, chan, 2, m, 1, b2);
    IndexUnique(b2.chain, Key(1, HERE), 1);
    RcAt(n, a, b2, chan, 2, 1, Two(Via(1, m.seqno, m.metric, 1, true), r.(installed := false), 0, 5));
  }

  /** A feasible update from another neighbour joins the chain, and wins if the head is worse. */
  lemma {:induction false} SecondRoute(d: Dest, r: Route, seqno: u16, metric: u16, m: Msg, u: NodeId)
    requires d == One(r, seqno, metric) && r.key == Key(if r.key.neigh == 2 then 2 else 0, HERE) && r.src == 9
    requires r.installed && Metric(r) > m.metric + 1 && m.metric < 100
    requires m.id == 9 && m.sender != r.key.neigh && m.seqno <= 1 && seqno <= 1
    requires Feasible(d.sources[9], m.seqno, m.metric, 0)
    ensures
      var t := Via(m.sender, m.seqno, m.metric, 1, false);
      && !Has(d.chain, Key(m.sender, HERE))
      && UpdateCore(d, DST, Received(Rx(u, m, 1)), 0, false, true) == Two(r, t, seqno, metric)
      && Consider(Two(r, t, seqno, metric), Key(m.sender, HERE), 0, true, true)
         == Two(t.(installed := true), r.(installed := false), seqno, metric)
  {
    var t := Via(m.sender, m.seqno, m.metric, 1, false);
    var c := [r, t];
    IndexUnique(c, t.key, 1);
    IndexUnique(c, r.key, 0);
    var c1 := [r.(installed := false), t];
    assert Uninstall(c, r.key) == c1;
    IndexUnique(c1, t.key, 1);
    assert Promote(c1[1 := t.(installed := true)], 1) == [t.(installed := true), r.(installed := false)];
  }

  lemma {:induction false} LoopBetween(n: Net)
    requires 1 in n.nodes && 2 in n.nodes
    requires
      var a, b := n.nodes[1].dest.chain, n.nodes[2].dest.chain;
      && |a| > 0 && a[0].installed && a[0].src == 9 && a[0].key.neigh == 2 && Metric(a[0]) < INFINITY
      && |b| > 0 && b[0].installed && b[0].src == 9 && b[0].key.neigh == 1 && Metric(b[0]) < INFINITY
    ensures ForwardingLoop(n, 9, [1, 2, 1])
  {
    assert n.nodes[1].dest.chain[0] in n.nodes[1].dest.chain && n.nodes[2].dest.chain[0] in n.nodes[2].dest.chain;
    assert Forwards(n, 9, 1, 2) && Forwards(n, 9, 2, 1);
  }

  // ---- A retracted route revived

  const A1 := Msg(1, 9, 0, 1)
  const BI := Msg(2, 9, 0, INFINITY)

  /** Router 1 has switched to router 0 and said so; router 2 lost router 0, said so and now uses router 1. */
  lemma {:induction false} Crossed()
    ensures Reach(START, Net3(Two(Via(0, 0, 0, 1, true), Via(2, 0, 5, 1, false), 0, 1),
                              Two(Via(1, 0, 1, 1, true), Via(0, 0, INFINITY, INFINITY, false), 0, 5),
                              {O0, B5} + {A1} + {BI}))
  {
    CommonStart();
    var b0 := One(Via(0, 0, 0, 5, true), 0, 5);
    Prefers0(b0, {O0, B5});
    var a2 := Two(Via(0, 0, 0, 1, true), Via(2, 0, 5, 1, false), 0, INFINITY);
    var a3 := Two(Via(0, 0, 0, 1, true), Via(2, 0, 5, 1, false), 0, 1);
    AdAt(START, a2, b0, {O0, B5}, 1, a3, A1);
    CrossedBack(a3, b0, {O0, B5} + {A1});
  }

  /** Router 1 hears router 0 directly and prefers it to router 2. */
  lemma {:induction false} Prefers0(b: Dest, chan: set<Msg>)
    requires LowSeqnos(b) && O0 in chan && forall m | m in chan :: m.seqno <= 1
    requires Reach(START, Net3(One(Via(2, 0, 5, 1, true), 0, INFINITY), b, chan))
    ensures Reach(START, Net3(Two(Via(0, 0, 0, 1, true), Via(2, 0, 5, 1, false), 0, INFINITY), b, chan))
  {
    var a0 := One(Via(2, 0, 5, 1, true), 0, INFINITY);
    SecondRoute(a0, Via(2, 0, 5, 1, true), 0, INFINITY, O0, 1);
    var a1 := Two(Via(2, 0, 5, 1, true), Via(0, 0, 0, 1, false), 0, INFINITY);
    RxAt(START, a0, b, chan, 1, O0, 1, a1);
    IndexUnique(a1.chain, Key(0, HERE), 1);
    RcAt(START, a1, b, chan, 1, 0, Two(Via(0, 0, 0, 1, true), Via(2, 0, 5, 1, false), 0, INFINITY));
  }

  lemma {:induction false} CrossedBack(a: Dest, b0: Dest, chan: set<Msg>)
    requires LowSeqnos(a) && b0 == One(Via(0, 0, 0, 5, true), 0, 5) && A1 in chan
    requires forall m | m in chan :: m.seqno <= 1
    requires Reach(START, Net3(a, b0, chan))
    ensures Reach(START, Net3(a, Two(Via(1, 0, 1, 1, true), Via(0, 0, INFINITY, INFINITY, false), 0, 5), chan + {BI}))
  {
    var b1 := One(Via(0, 0, INFINITY, INFINITY, true), 0, 5);
    StepAt(START, a, b0, chan, Withdraw(2, Key(0, HERE), true), b1);
    AdAt(START, a, b1, chan, 2, b1, BI);
    Adopts(START, a, b1, chan + {BI}, Via(0, 0, INFINITY, INFINITY, true), A1);
  }

  /** Router 1 loses router 0 and installs the retracted route through router 2. */
  lemma {:induction false} InstallsRetracted(b: Dest, chan: set<Msg>)
    requires LowSeqnos(b) && BI in chan && forall m | m in chan :: m.seqno <= 1
    requires Reach(START, Net3(Two(Via(0, 0, 0, 1, true), Via(2, 0, 5, 1, false), 0, 1), b, chan))
    ensures Reach(START, Net3(One(Via(2, 0, INFINITY, 1, true), 0, 1), b, chan))
  {
    LosesDirect(b, chan);
    var a1 := One(Via(2, 0, 5, 1, false), 0, 1);
    var a2 := One(Via(2, 0, INFINITY, 1, false), 0, 1);
    RxAt(START, a1, b, chan, 1, BI, 1, a2);
    RcAt(START, a2, b, chan, 1, 2, One(Via(2, 0, INFINITY, 1, true), 0, 1));
  }

  lemma {:induction false} LosesDirect(b: Dest, chan: set<Msg>)
    requires LowSeqnos(b) && forall m | m in chan :: m.seqno <= 1
    requires Reach(START, Net3(Two(Via(0, 0, 0, 1, true), Via(2, 0, 5, 1, false), 0, 1), b, chan))
    ensures Reach(START, Net3(One(Via(2, 0, 5, 1, false), 0, 1), b, chan))
  {
    var a := Two(Via(0, 0, 0, 1, true), Via(2, 0, 5, 1, false), 0, 1);
    var a1 := One(Via(2, 0, 5, 1, false), 0, 1);
    assert Without(a.chain, 0) == a1.chain;
    assert Release(a.sources, 9) == a1.sources;
    StepAt(START, a, b, chan, Flush(1, Key(0, HERE)), a1);
  }

  /**
   Router 1 receives, late, an update that router 2 sent before it lost its route. It is
   unfeasible, but the route is installed and its source is the same, so router 1 starts
   using it while router 2 uses router 1.
   */
  lemma {:induction false} RevivalLoops() returns (n: Net, st: Step)
    ensures Reach(START, n) && Enabled(n, st) && st.Receive?
    ensures
      var d := n.nodes[st.u].dest;
      && Fresh(d, st.m.id, st.now) && st.kernelOk && AllWindowed(Apply(n, st))
      && Revives(d, Received(st), st.now, true)
    ensures ForwardingLoop(Apply(n, st), 9, [1, 2, 1])
  {
    Crossed();
    var b := Two(Via(1, 0, 1, 1, true), Via(0, 0, INFINITY, INFINITY, false), 0, 5);
    var chan := {O0, B5} + {A1} + {BI};
    InstallsRetracted(b, chan);
    var a := One(Via(2, 0, INFINITY, 1, true), 0, 1);
    n, st := Net3(a, b, chan), Rx(1, B5, 1);
    var a' := One(Via(2, 0, 5, 1, true), 0, 1);
    Revived(a, b, chan);
    LowWindow(a', b, chan);
    LoopBetween(Net3(a', b, chan));
  }

  lemma {:induction false} Revived(a: Dest, b: Dest, chan: set<Msg>)
    requires a == One(Via(2, 0, INFINITY, 1, true), 0, 1) && B5 in chan
    ensures
      var n, st := Net3(a, b, chan), Rx(1, B5, 1);
      && Enabled(n, st) && Fresh(a, 9, 0) && Revives(a, Received(st), 0, true)
      && Apply(n, st) == Net3(One(Via(2, 0, 5, 1, true), 0, 1), b, chan)
  {
    var n, st := Net3(a, b, chan), Rx(1, B5, 1);
    var a' := One(Via(2, 0, 5, 1, true), 0, 1);
    assert Local(n, st) == a';
    assert Apply(n, st).nodes == Net3(a', b, chan).nodes;
  }

  /**
   The exact reach of both gaps on the router itself, for every answer of the kernel: an update for a source that is
   not stale makes it use an entry that is unfeasible and that it was not using before if and only if the update
   revives a retracted route, or brings a new source under which the metric that was kept is not feasible.
   */
  lemma {:induction false} UnfeasibleUseIff(d: Dest, dst: Prefix, u: Update, now: int, keep: bool, kernelOk: bool)
    requires ChainOk(d.chain) && Has(d.chain, u.key) && Fresh(d, u.id, now)
    requires Get(d.chain, u.key).src in d.sources
    ensures
      var d' := UpdateCore(d, dst, u, now, keep, kernelOk);
      var r, r' := Get(d.chain, u.key), d'.chain[Index(d.chain, u.key)];
      (&& Uses(r', u.id, u.key.neigh) && !Uses(r, u.id, u.key.neigh)
       && !Better(r'.seqno, r'.refmetric, d'.sources[u.id].seqno, d'.sources[u.id].metric))
      <==> (|| Revives(d, u, now, kernelOk)
            || (&& Keeps(d, u, now, kernelOk) && r.src != u.id
                && !Feasible(FindSource(d.sources, u.id, u.seqno, now)[u.id], u.seqno, r.refmetric, now)))
  {
    var r := Get(d.chain, u.key);
    var d' := UpdateCore(d, dst, u, now, keep, kernelOk);
    var r' := d'.chain[Index(d.chain, u.key)];
    var r1 := r.(installed := r.installed && !LosesRoute(d, u, now), src := u.id, seqno := u.seqno);
    assert KernelRejects(r1, u.refmetric, u.cost, u.add, kernelOk)
       <==> KernelRejects(r, u.refmetric, u.cost, u.add, kernelOk) && !LosesRoute(d, u, now);
    assert r'.refmetric == if KernelRejects(r1, u.refmetric, u.cost, u.add, kernelOk) then r.refmetric else u.refmetric;
  }

  /** What a neighbour told last holds of its distance: its old route, and the update unless that is a retraction. */
  predicate Honours(r: Route, u: Update, seqno: u16, metric: u16) {
    && (r.src == u.id ==> AtLeast(seqno, metric, r.seqno, r.refmetric))
    && (u.refmetric < INFINITY ==> AtLeast(seqno, metric, u.seqno, u.refmetric))
  }

  ghost predicate AllComparable(seqno: u16, r: Route, u: Update) {
    exists base: u16 :: InWindow(base, seqno) && InWindow(base, r.seqno) && InWindow(base, u.seqno)
  }

  /** Whatever distance the neighbour has, it is as good as the metric `r` under the seqno of `u`. */
  ghost predicate AlwaysVouched(r: Route, u: Update) {
    forall seqno: u16, metric: u16 | AllComparable(seqno, r, u) && Honours(r, u, seqno, metric) ::
      AtLeast(seqno, metric, u.seqno, r.refmetric)
  }

  /**
   The exact reach of the first gap on its neighbours: when the kernel refuses a change and the metric of the route
   is kept under the new seqno, the neighbour vouches for that, whatever its distance, if and only if the old route
   already said so or the update says no less.
   */
  lemma {:induction false} KeptVouchedIff(r: Route, u: Update)
    requires r.refmetric < INFINITY && exists base: u16 :: InWindow(base, r.seqno) && InWindow(base, u.seqno)
    ensures AlwaysVouched(r, u) <==> Covers(r, u.id, u.seqno) || u.refmetric <= r.refmetric
  {
    var b: u16 :| InWindow(b, r.seqno) && InWindow(b, u.seqno);
    CompareInWindow(b, r.seqno, u.seqno);
    CompareInWindow(b, u.seqno, r.seqno);
    if Covers(r, u.id, u.seqno) || u.refmetric <= r.refmetric {
      forall seqno: u16, metric: u16 | AllComparable(seqno, r, u) && Honours(r, u, seqno, metric)
        ensures AtLeast(seqno, metric, u.seqno, r.refmetric)
      {
        var base: u16 :| InWindow(base, seqno) && InWindow(base, r.seqno) && InWindow(base, u.seqno);
        if u.refmetric <= r.refmetric {
          AtLeastTransitive(base, seqno, metric, u.seqno, u.refmetric, u.seqno, r.refmetric);
        } else {
          AtLeastTransitive(base, seqno, metric, r.seqno, r.refmetric, u.seqno, r.refmetric);
        }
      }
    } else {
      assert AllComparable(u.seqno, r, u) && Honours(r, u, u.seqno, u.refmetric);
      assert !AtLeast(u.seqno, u.refmetric, u.seqno, r.refmetric);
    }
  }
}
