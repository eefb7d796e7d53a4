/**
 What babeld does to the routes of one destination: the chain of routes that share a
 slot of the route table, the sources of that destination with their feasibility
 distances, and whether the destination is redistributed locally (an xroute).
 The functions follow route.c and source.c.  Clock readings, smoothed metrics, filter
 results and kernel answers are parameters.
 */
module BabelRoute {
  import opened Basics
  import opened Seqno
  import opened Address

  const SOURCE_GC_TIME: int := 200
  const KERNEL_METRIC: int := 0
  const KERNEL_INFINITY: int := 0xFFFF

  type RouterId = nat

  /** A route is found by the neighbour that announced it and the next hop announced. */
  datatype Key = Key(neigh: nat, nexthop: Addr)

  datatype Route = Route(dst: Prefix, key: Key, src: RouterId, seqno: u16,
                         refmetric: u16, cost: u16, add: u16,
                         time: int, hold: int, installed: bool)

  /** A source: the feasibility distance (seqno, metric), its age and its reference count. */
  datatype Source = Source(seqno: u16, metric: u16, time: int, count: nat)

  type Sources = map<RouterId, Source>

  datatype Dest = Dest(chain: seq<Route>, sources: Sources, xroute: bool)

  /** An update received from a neighbour, with the local cost and filter metric. */
  datatype Update = Update(id: RouterId, seqno: u16, refmetric: u16, key: Key,
                           cost: u16, add: u16, hold: int)

  // ---- Metrics

  function Min(x: int, y: int): int { if x <= y then x else y }
  function Max(x: int, y: int): int { if x <= y then y else x }

  function Saturate(m: nat): u16 { Min(m, INFINITY) }

  function Metric(r: Route): u16 { Saturate(r.refmetric + r.cost + r.add) }

  function NoninterferingMetric(r: Route, diversityFactor: nat): u16 {
    Saturate(Max(r.refmetric + (diversityFactor * r.cost + 128) / 256 + r.add, r.refmetric + 1))
  }

  function MetricToKernel(m: int): int {
    if m < INFINITY then KERNEL_METRIC else KERNEL_INFINITY
  }

  /** Both advertised metrics are at least the reference metric; the second exceeds it. */
  lemma {:induction false} MetricBounds(r: Route, diversityFactor: nat)
    ensures r.refmetric <= Metric(r)
    ensures r.refmetric < INFINITY ==> r.refmetric < NoninterferingMetric(r, diversityFactor)
    ensures r.refmetric <= NoninterferingMetric(r, diversityFactor)
    ensures r.cost + r.add > 0 && r.refmetric < INFINITY ==> r.refmetric < Metric(r)
  {
  }

  // ---- Sources and feasibility

  predicate Stale(s: Source, now: int) { s.time < now - SOURCE_GC_TIME }

  predicate Feasible(s: Source, seqno: u16, refmetric: u16, now: int) {
    || Stale(s, now)
    || refmetric >= INFINITY
    || Compare(seqno, s.seqno) > 0
    || (s.seqno == seqno && refmetric < s.metric)
  }

  function FindSource(sources: Sources, id: RouterId, seqno: u16, now: int): (r: Sources)
    ensures r.Keys == sources.Keys + {id}
  {
    if id in sources then sources
    else sources[id := Source(seqno, INFINITY, now, 0)]
  }

  function Retain(sources: Sources, id: RouterId): Sources
    requires id in sources
  {
    sources[id := sources[id].(count := sources[id].count + 1)]
  }

  function Release(sources: Sources, id: RouterId): Sources {
    if id in sources && sources[id].count > 0
    then sources[id := sources[id].(count := sources[id].count - 1)]
    else sources
  }

  function UpdateSource(s: Source, seqno: u16, metric: u16, now: int): Source {
    if metric >= INFINITY then s
    else if Stale(s, now) || Compare(s.seqno, seqno) < 0 || (s.seqno == seqno && s.metric > metric)
    then s.(seqno := seqno, metric := metric, time := now)
    else s.(time := now)
  }

  /** Sources in use survive, whatever their age; others are dropped once stale. */
  function ExpireSources(sources: Sources, now: int): Sources {
    map id | id in sources && !(Stale(Clamp(sources[id], now), now) && sources[id].count == 0)
      :: Clamp(sources[id], now)
  }

  /** Protection against a clock that was stepped back. */
  function Clamp(s: Source, now: int): Source { s.(time := Min(s.time, now)) }

  // ---- The chain

  function Index(c: seq<Route>, k: Key): (i: nat)
    ensures i <= |c|
    ensures i < |c| ==> c[i].key == k
    ensures forall j | 0 <= j < i :: c[j].key != k
  {
    if |c| == 0 || c[0].key == k then 0 else 1 + Index(c[1..], k)
  }

  predicate Has(c: seq<Route>, k: Key) { Index(c, k) < |c| }

  function Get(c: seq<Route>, k: Key): (r: Route)
    requires Has(c, k)
    ensures r in c && r.key == k
  {
    c[Index(c, k)]
  }

  function Put(c: seq<Route>, k: Key, r: Route): seq<Route>
    requires Has(c, k)
  {
    c[Index(c, k) := r]
  }

  /** Moves the route at `i` to the head, keeping the order of the others. */
  function Promote(c: seq<Route>, i: nat): seq<Route>
    requires i < |c|
  {
    [c[i]] + c[..i] + c[i + 1..]
  }

  function Without(c: seq<Route>, i: nat): seq<Route>
    requires i < |c|
  {
    c[..i] + c[i + 1..]
  }

  function Installed(c: seq<Route>): Option<Route> {
    if |c| > 0 && c[0].installed then Some(c[0]) else None
  }

  // ---- Installing, switching and changing metrics

  function Install(c: seq<Route>, k: Key, kernelOk: bool): seq<Route>
    requires Has(c, k)
  {
    var i := Index(c, k);
    if c[i].installed || (i != 0 && c[0].installed) || !kernelOk then c
    else Promote(c[i := c[i].(installed := true)], i)
  }

  function Uninstall(c: seq<Route>, k: Key): seq<Route>
    requires Has(c, k)
  {
    Put(c, k, Get(c, k).(installed := false))
  }

  function Switch(c: seq<Route>, cur: Option<Key>, k: Key, kernelOk: bool): seq<Route>
    requires Has(c, k)
    requires cur.Some? ==> Has(c, cur.value)
  {
    if cur.None? then Install(c, k, kernelOk)
    else if !Get(c, cur.value).installed || !kernelOk then c
    else
      var c1 := Uninstall(c, cur.value);
      IndexPut(c, cur.value, Get(c, cur.value).(installed := false), k);
      var i := Index(c1, k);
      Promote(c1[i := c1[i].(installed := true)], i)
  }

  /** Whether the kernel has to be told about the new metric and refuses. */
  predicate KernelRejects(r: Route, refmetric: u16, cost: u16, add: u16, kernelOk: bool) {
    && r.installed
    && MetricToKernel(Metric(r)) != MetricToKernel(Saturate(refmetric + cost + add))
    && !kernelOk
  }

  function ChangeMetric(r: Route, refmetric: u16, cost: u16, add: u16, kernelOk: bool): Route {
    if KernelRejects(r, refmetric, cost, add, kernelOk) then r
    else r.(refmetric := refmetric, cost := cost, add := add)
  }

  function Retract(r: Route, kernelOk: bool): Route {
    ChangeMetric(r, INFINITY, INFINITY, 0, kernelOk)
  }

  // ---- Route selection

  /** The route's source, or an unreferenced one if there is none. */
  function SourceOf(d: Dest, r: Route): Source {
    if r.src in d.sources then d.sources[r.src] else Source(0, INFINITY, 0, 0)
  }

  predicate RouteFeasible(d: Dest, r: Route, now: int) {
    Feasible(SourceOf(d, r), r.seqno, r.refmetric, now)
  }

  predicate Expired(r: Route, now: int) { r.time < now - r.hold }

  predicate Acceptable(d: Dest, r: Route, now: int, feasible: bool, exclude: Option<nat>) {
    && !Expired(r, now)
    && (feasible ==> RouteFeasible(d, r, now))
    && !(exclude.Some? && r.key.neigh == exclude.value)
  }

  /** Whether `Consider` reaches its install label. */
  predicate Preferred(d: Dest, r: Route, now: int, smoothedWorse: bool) {
    && !r.installed
    && RouteFeasible(d, r, now)
    && !d.xroute
    && var cur := Installed(d.chain);
      || cur.None?
      || (Metric(r) < INFINITY
          && (Metric(cur.value) >= INFINITY || (Metric(cur.value) >= Metric(r) && smoothedWorse)))
  }

  function Consider(d: Dest, k: Key, now: int, smoothedWorse: bool, kernelOk: bool): Dest {
    if Has(d.chain, k) && Preferred(d, Get(d.chain, k), now, smoothedWorse) then
      var cur := Installed(d.chain);
      d.(chain := Switch(d.chain, if cur.Some? then Some(cur.value.key) else None, k, kernelOk))
    else d
  }

  /** The first acceptable route from `from` on with the least smoothed metric, given the best so far. */
  function BestFrom(d: Dest, from: nat, best: Option<nat>, now: int, sm: Key -> int,
                    feasible: bool, exclude: Option<nat>): (r: Option<nat>)
    requires from <= |d.chain|
    requires best.Some? ==> best.value < from
    ensures r.Some? ==> r.value < |d.chain|
    decreases |d.chain| - from
  {
    if from == |d.chain| then best
    else
      var r := d.chain[from];
      var better := Acceptable(d, r, now, feasible, exclude)
                    && (best.None? || sm(r.key) < sm(d.chain[best.value].key));
      BestFrom(d, from + 1, if better then Some(from) else best, now, sm, feasible, exclude)
  }

  function FindBest(d: Dest, now: int, sm: Key -> int, feasible: bool, exclude: Option<nat>): (r: Option<nat>)
    ensures r.Some? ==> r.value < |d.chain|
  {
    BestFrom(d, 0, None, now, sm, feasible, exclude)
  }

  /** `consider_route` with smoothed metrics given per route. */
  function ConsiderBy(d: Dest, k: Key, now: int, sm: Key -> int, kernelOk: bool): Dest {
    var cur := Installed(d.chain);
    Consider(d, k, now, cur.Some? && sm(cur.value.key) > sm(k), kernelOk)
  }

  /** If the changed route is installed and the best one has a better metric, considers that. */
  function TryBetter(d: Dest, k: Key, now: int, sm: Key -> int, kernelOk: bool): Dest
    requires Has(d.chain, k)
  {
    var r := Get(d.chain, k);
    var best := FindBest(d, now, sm, true, None);
    if r.installed && best.Some? && Metric(d.chain[best.value]) < Metric(r)
    then ConsiderBy(d, d.chain[best.value].key, now, sm, kernelOk) else d
  }

  function RouteChanged(d: Dest, k: Key, now: int, sm: Key -> int, kernel1: bool, kernel2: bool): Dest
    requires Has(d.chain, k)
  {
    var d1 := TryBetter(d, k, now, sm, kernel1);
    if Has(d1.chain, k) && Get(d1.chain, k).installed then d1
    else ConsiderBy(d1, k, now, sm, kernel2)
  }

  function RouteLost(d: Dest, now: int, sm: Key -> int, kernelOk: bool): Dest {
    var best := FindBest(d, now, sm, true, None);
    if best.Some? then ConsiderBy(d, d.chain[best.value].key, now, sm, kernelOk) else d
  }

  // ---- Receiving an update

  /** Whether the installed route stops being used because its source changed unfeasibly. */
  predicate LosesRoute(d: Dest, u: Update, now: int) {
    && Has(d.chain, u.key)
    && var r := Get(d.chain, u.key);
      && r.installed && u.id != r.src
      && !Feasible(FindSource(d.sources, u.id, u.seqno, now)[u.id], u.seqno, u.refmetric, now)
  }

  function NewRoute(dst: Prefix, u: Update, now: int): Route {
    Route(dst, u.key, u.id, u.seqno, u.refmetric, u.cost, u.add, now, u.hold, false)
  }

  /** `update_route` up to the point where routes are reconsidered. */
  function UpdateCore(d: Dest, dst: Prefix, u: Update, now: int, keepUnfeasible: bool, kernelOk: bool): Dest {
    var sources := FindSource(d.sources, u.id, u.seqno, now);
    var feasible := Feasible(sources[u.id], u.seqno, u.refmetric, now);
    if Has(d.chain, u.key) then
      var r := Get(d.chain, u.key);
      var r1 := r.(installed := r.installed && !LosesRoute(d, u, now),
                   src := u.id,
                   time := if (feasible || keepUnfeasible) && u.refmetric < INFINITY then now else r.time,
                   seqno := u.seqno);
      var r2 := ChangeMetric(r1, u.refmetric, u.cost, u.add, kernelOk).(hold := u.hold);
      Dest(Put(d.chain, u.key, r2), Retain(sources, u.id), d.xroute)
    else if u.refmetric >= INFINITY || (!feasible && !keepUnfeasible) then
      d.(sources := sources)
    else
      Dest(d.chain + [NewRoute(dst, u, now)], Retain(sources, u.id), d.xroute)
  }

  /** The kernel's answers to the calls one operation makes, in order. */
  datatype Kernel = Kernel(metric: bool, first: bool, second: bool, third: bool)

  /** Our own routes come back to us, martian destinations and filtered updates are ignored. */
  predicate Ignored(dst: Prefix, myid: RouterId, u: Update) {
    u.id == myid || Martian(dst) || u.add >= INFINITY
  }

  /**
   What follows once an update is stored: an existing route, formerly of source `was`, is
   reconsidered, possibly after losing the installed route, and `was` is released; a new
   route is considered.
   */
  function AfterUpdate(d: Dest, k: Key, was: Option<RouterId>, lost: bool, now: int, sm: Key -> int,
                       kernel: Kernel): Dest
    requires was.Some? ==> Has(d.chain, k)
  {
    if was.Some? then
      var d2 := RouteChanged(d, k, now, sm, kernel.first, kernel.second);
      var d3 := if lost then RouteLost(d2, now, sm, kernel.third) else d2;
      d3.(sources := Release(d3.sources, was.value))
    else if Has(d.chain, k) then ConsiderBy(d, k, now, sm, kernel.first)
    else d
  }

  /** The source of the route that an update is about, if there is one. */
  function FormerSource(d: Dest, u: Update): Option<RouterId> {
    if Has(d.chain, u.key) then Some(Get(d.chain, u.key).src) else None
  }

  function UpdateRoute(d: Dest, dst: Prefix, myid: RouterId, u: Update, now: int, sm: Key -> int,
                       keepUnfeasible: bool, kernel: Kernel): Dest
  {
    if Ignored(dst, myid, u) then d
    else
      var d1 := UpdateCore(d, dst, u, now, keepUnfeasible, kernel.metric);
      UpdateCoreHas(d, dst, u, now, keepUnfeasible, kernel.metric);
      AfterUpdate(d1, u.key, FormerSource(d, u), LosesRoute(d, u, now), now, sm, kernel)
  }

  // ---- Flushing

  function Drop(d: Dest, k: Key): Dest
    requires Has(d.chain, k)
  {
    d.(chain := Without(d.chain, Index(d.chain, k)))
  }

  function FlushRoute(d: Dest, k: Key, now: int, sm: Key -> int, kernelOk: bool): Dest
    requires Has(d.chain, k)
  {
    var r := Get(d.chain, k);
    var d1 := Drop(d, k);
    var d2 := if r.installed then RouteLost(d1, now, sm, kernelOk) else d1;
    d2.(sources := Release(d2.sources, r.src))
  }

  // ---- Facts about chains

  /** Only the head may be installed, and keys are unique. */
  ghost predicate ChainOk(c: seq<Route>) {
    && (forall i | 0 < i < |c| :: !c[i].installed)
    && (forall i, j | 0 <= i < j < |c| :: c[i].key != c[j].key)
  }

  lemma {:induction false} IndexUnique(c: seq<Route>, k: Key, i: nat)
    requires i < |c| && c[i].key == k
    requires forall j | 0 <= j < i :: c[j].key != k
    ensures Index(c, k) == i
  {
    var j := Index(c, k);
    if i < j || j < i { assert false; }
  }

  lemma {:induction false} IndexPut(c: seq<Route>, k: Key, r: Route, k': Key)
    requires Has(c, k) && r.key == k
    ensures Index(Put(c, k, r), k') == Index(c, k')
  {
    var i := Index(c, k');
    if i < |c| {
      IndexUnique(Put(c, k, r), k', i);
    }
  }

  lemma {:induction false} UpdateCoreHas(d: Dest, dst: Prefix, u: Update, now: int, keepUnfeasible: bool,
                                         kernelOk: bool)
    ensures Has(d.chain, u.key) ==> Has(UpdateCore(d, dst, u, now, keepUnfeasible, kernelOk).chain, u.key)
  {
    if Has(d.chain, u.key) {
      var r' := UpdateCore(d, dst, u, now, keepUnfeasible, kernelOk).chain[Index(d.chain, u.key)];
      IndexPut(d.chain, u.key, r', u.key);
    }
  }
}
