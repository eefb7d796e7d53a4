/**
 The route table of babeld: an array of slots sorted by destination, found by binary
 search, grown and shrunk by halves, each holding the chain of routes to one destination;
 beside it the source table and the redistributed routes.  Every method is proved
 against the function of `BabelRoute` that says what it does to one destination.
 */
module RouteTable {
  import opened Basics
  import opened Address
  import opened BabelRoute
  import opened BabelSlot
  import opened BabelRetract

  type Slots = seq<seq<Route>>

  // ---- Tables as values

  /** The routes to `p`, by linear search. */
  function ChainOf(t: Slots, p: Prefix): seq<Route> {
    if |t| == 0 then []
    else if t[0] != [] && t[0][0].dst == p then t[0]
    else ChainOf(t[1..], p)
  }

  ghost predicate SlotOk(c: seq<Route>) {
    c != [] && forall r | r in c :: r.dst == c[0].dst
  }

  ghost predicate SlotsOk(t: Slots) {
    && (forall i | 0 <= i < |t| :: SlotOk(t[i]))
    && (forall i, j | 0 <= i < j < |t| :: ComparePrefix(t[i][0].dst, t[j][0].dst) < 0)
  }

  ghost predicate IsPow2(n: int)
    decreases n
  {
    n == 1 || (n > 1 && n % 2 == 0 && IsPow2(n / 2))
  }

  /** Capacity is 0 or 8 times a power of two, at least a quarter used above 8. */
  ghost predicate CapacityOk(capacity: int, used: int) {
    && used <= capacity
    && (capacity == 0 || (capacity % 8 == 0 && IsPow2(capacity / 8)))
    && (capacity > 8 ==> used >= capacity / 4)
    && (used == 0 ==> capacity == 0)
  }

  function Total(t: Slots): nat {
    if |t| == 0 then 0 else |t[0]| + Total(t[1..])
  }

  lemma {:induction false} ChainAt(t: Slots, i: nat)
    requires SlotsOk(t) && i < |t|
    ensures ChainOf(t, t[i][0].dst) == t[i]
  {
    if i > 0 {
      CompareOrder(t[0][0].dst, t[i][0].dst);
      ChainAt(t[1..], i - 1);
    }
  }

  lemma {:induction false} ChainAbsent(t: Slots, p: Prefix)
    requires SlotsOk(t) && forall i | 0 <= i < |t| :: t[i][0].dst != p
    ensures ChainOf(t, p) == []
  {
    if |t| > 0 {
      ChainAbsent(t[1..], p);
    }
  }

  lemma {:induction false} ChainCases(t: Slots, p: Prefix)
    requires SlotsOk(t)
    ensures ChainOf(t, p) == [] || exists i :: 0 <= i < |t| && t[i] == ChainOf(t, p) && t[i][0].dst == p
    ensures ChainOf(t, p) == [] ==> forall i | 0 <= i < |t| :: t[i][0].dst != p
  {
    if forall i | 0 <= i < |t| :: t[i][0].dst != p {
      ChainAbsent(t, p);
    } else {
      var i :| 0 <= i < |t| && t[i][0].dst == p;
      ChainAt(t, i);
    }
  }

  lemma {:induction false} ChainConcat(a: Slots, b: Slots, p: Prefix)
    requires forall i | 0 <= i < |a| :: a[i] != []
    ensures ChainOf(a + b, p) == if ChainOf(a, p) != [] then ChainOf(a, p) else ChainOf(b, p)
  {
    if |a| == 0 {
      assert a + b == b;
    } else {
      assert (a + b)[1..] == a[1..] + b;
      ChainConcat(a[1..], b, p);
    }
  }

  /** Splitting a table at slot `i`. */
  lemma {:induction false} ChainSplit(t: Slots, i: nat, p: Prefix)
    requires i < |t| && forall j | 0 <= j < |t| :: t[j] != []
    ensures ChainOf(t, p) ==
      if ChainOf(t[..i], p) != [] then ChainOf(t[..i], p)
      else if t[i][0].dst == p then t[i] else ChainOf(t[i + 1..], p)
  {
    assert t == t[..i] + t[i..];
    ChainConcat(t[..i], t[i..], p);
    assert t[i..][1..] == t[i + 1..];
  }

  lemma {:induction false} SetSlotOk(t: Slots, i: nat, c: seq<Route>, q: Prefix)
    requires SlotsOk(t) && i < |t| && SlotOk(c) && c[0].dst == t[i][0].dst
    ensures SlotsOk(t[i := c])
    ensures ChainOf(t[i := c], q) == if q == t[i][0].dst then c else ChainOf(t, q)
  {
    var u := t[i := c];
    if q == t[i][0].dst {
      ChainAt(u, i);
    } else {
      ChainSplit(t, i, q);
      ChainSplit(u, i, q);
      assert u[..i] == t[..i] && u[i + 1..] == t[i + 1..];
    }
  }

  function Inserted(t: Slots, n: nat, c: seq<Route>): (u: Slots)
    requires n <= |t|
    ensures |u| == |t| + 1 && u[n] == c
    ensures forall j | 0 <= j < n :: u[j] == t[j]
    ensures forall j | n <= j < |t| :: u[j + 1] == t[j]
  {
    t[..n] + [c] + t[n..]
  }

  function Removed(t: Slots, i: nat): (u: Slots)
    requires i < |t|
    ensures |u| == |t| - 1
    ensures forall j | 0 <= j < i :: u[j] == t[j]
    ensures forall j | i < j < |t| :: u[j - 1] == t[j]
  {
    t[..i] + t[i + 1..]
  }

  /** `c` belongs at place `n`. */
  ghost predicate Fits(t: Slots, n: nat, c: seq<Route>)
    requires n <= |t| && SlotsOk(t) && SlotOk(c)
  {
    && (forall j | 0 <= j < n :: ComparePrefix(t[j][0].dst, c[0].dst) < 0)
    && (forall j | n <= j < |t| :: ComparePrefix(c[0].dst, t[j][0].dst) < 0)
  }

  lemma {:induction false} InsertedSorted(t: Slots, n: nat, c: seq<Route>)
    requires SlotsOk(t) && n <= |t| && SlotOk(c) && Fits(t, n, c)
    ensures SlotsOk(Inserted(t, n, c))
  {
    var u := Inserted(t, n, c);
    forall i | 0 <= i < |u| ensures SlotOk(u[i]) {
      assert u[i] == if i < n then t[i] else if i == n then c else t[i - 1];
    }
    forall i, j | 0 <= i < j < |u| ensures ComparePrefix(u[i][0].dst, u[j][0].dst) < 0 {
      assert u[i] == if i < n then t[i] else if i == n then c else t[i - 1];
      assert u[j] == if j < n then t[j] else if j == n then c else t[j - 1];
    }
  }

  /** Putting a slot where the binary search says keeps order and adds one chain. */
  lemma {:induction false} InsertSlotOk(t: Slots, n: nat, c: seq<Route>, q: Prefix)
    requires SlotsOk(t) && n <= |t| && SlotOk(c) && Fits(t, n, c)
    ensures SlotsOk(Inserted(t, n, c))
    ensures ChainOf(Inserted(t, n, c), q) == if q == c[0].dst then c else ChainOf(t, q)
  {
    var u := Inserted(t, n, c);
    InsertedSorted(t, n, c);
    if q == c[0].dst {
      ChainAt(u, n);
    } else {
      ChainSplit(u, n, q);
      assert t == t[..n] + t[n..];
      ChainConcat(t[..n], t[n..], q);
      assert u[..n] == t[..n] && u[n + 1..] == t[n..];
    }
  }

  lemma {:induction false} RemovedSorted(t: Slots, i: nat)
    requires SlotsOk(t) && i < |t|
    ensures SlotsOk(Removed(t, i))
    ensures forall j | 0 <= j < |t| - 1 :: Removed(t, i)[j][0].dst != t[i][0].dst
  {
    var u := Removed(t, i);
    forall j | 0 <= j < |u| ensures SlotOk(u[j]) && u[j][0].dst != t[i][0].dst {
      var x := if j < i then j else j + 1;
      assert u[j] == t[x];
      CompareOrder(t[x][0].dst, t[i][0].dst);
      CompareOrder(t[i][0].dst, t[x][0].dst);
    }
    forall h, j | 0 <= h < j < |u| ensures ComparePrefix(u[h][0].dst, u[j][0].dst) < 0 {
      var x, y := if h < i then h else h + 1, if j < i then j else j + 1;
      assert u[h] == t[x] && u[j] == t[y];
    }
  }

  lemma {:induction false} RemoveSlotOk(t: Slots, i: nat, q: Prefix)
    requires SlotsOk(t) && i < |t|
    ensures SlotsOk(Removed(t, i))
    ensures ChainOf(Removed(t, i), q) == if q == t[i][0].dst then [] else ChainOf(t, q)
  {
    RemovedSorted(t, i);
    if q == t[i][0].dst {
      ChainAbsent(Removed(t, i), q);
    } else {
      ChainSplit(t, i, q);
      ChainConcat(t[..i], t[i + 1..], q);
    }
  }

  lemma {:induction false} RemoveAll(t: Slots, i: nat, p: Prefix)
    requires SlotsOk(t) && i < |t| && t[i][0].dst == p
    ensures SlotsOk(Removed(t, i))
    ensures forall q :: ChainOf(Removed(t, i), q) == if q == p then [] else ChainOf(t, q)
  {
    RemovedSorted(t, i);
    forall q ensures ChainOf(Removed(t, i), q) == if q == p then [] else ChainOf(t, q) {
      RemoveSlotOk(t, i, q);
    }
  }

  lemma {:induction false} TotalAt(t: Slots, i: nat)
    requires i < |t|
    ensures Total(t) == Total(t[..i]) + |t[i]| + Total(t[i + 1..])
  {
    if i == 0 {
      assert t[..0] == [];
    } else {
      TotalAt(t[1..], i - 1);
      assert t[1..][..i - 1] == t[..i][1..];
      assert t[1..][i..] == t[i + 1..];
    }
  }

  /** Only the chain of `p` changed, and neither its place nor its length. */
  ghost predicate InPlace(t: Slots, u: Slots, p: Prefix) {
    && |t| == |u|
    && forall j | 0 <= j < |t| ::
        && t[j] != [] && u[j] != [] && u[j][0].dst == t[j][0].dst && |u[j]| == |t[j]|
        && (t[j][0].dst != p ==> u[j] == t[j])
  }

  /** One route left slot `i`, which is gone if that was its last. */
  ghost predicate OneLess(t: Slots, u: Slots, i: nat) {
    && i < |t| && t[i] != []
    && if |t[i]| == 1 then u == Removed(t, i)
       else && |u| == |t| && |u[i]| == |t[i]| - 1 && u[i][0].dst == t[i][0].dst
            && forall j | 0 <= j < |t| && j != i :: u[j] == t[j]
  }

  lemma {:induction false} OneLessInPlace(t: Slots, u: Slots, v: Slots, i: nat, p: Prefix)
    requires SlotsOk(t) && OneLess(t, u, i) && InPlace(u, v, p) && t[i][0].dst == p
    ensures OneLess(t, v, i)
  {
    if |t[i]| == 1 {
      RemovedSorted(t, i);
      assert v == u;
    } else {
      forall j | 0 <= j < |t| && j != i ensures v[j] == t[j] {
        CompareOrder(t[j][0].dst, t[i][0].dst);
        CompareOrder(t[i][0].dst, t[j][0].dst);
      }
    }
  }

  lemma {:induction false} OneLessTotal(t: Slots, u: Slots, i: nat)
    requires OneLess(t, u, i)
    ensures Total(u) == Total(t) - 1
  {
    TotalAt(t, i);
    if |t[i]| == 1 {
      TotalConcat(t[..i], t[i + 1..]);
    } else {
      TotalAt(u, i);
      assert u[..i] == t[..i] && u[i + 1..] == t[i + 1..];
    }
  }

  lemma {:induction false} OneLessBefore(t: Slots, u: Slots, i: nat)
    requires OneLess(t, u, i)
    ensures i <= |u| && u[..i] == t[..i]
  {
  }

  lemma {:induction false} TotalConcat(a: Slots, b: Slots)
    ensures Total(a + b) == Total(a) + Total(b)
  {
    if |a| == 0 {
      assert a + b == b;
    } else {
      assert (a + b)[1..] == a[1..] + b;
      TotalConcat(a[1..], b);
    }
  }

  lemma {:induction false} GrowOk(capacity: int)
    requires CapacityOk(capacity, capacity)
    ensures CapacityOk(if capacity < 1 then 8 else 2 * capacity, capacity + 1)
  {
    assert IsPow2(1);
    if capacity > 0 {
      assert (2 * capacity) / 8 == 2 * (capacity / 8);
      assert IsPow2(2 * (capacity / 8));
    }
  }

  /** One more slot, after doubling a full table. */
  lemma {:induction false} CapacityAfter(capacity: int, used: nat)
    requires CapacityOk(capacity, used)
    ensures used <= capacity
    ensures used < capacity ==> CapacityOk(capacity, used + 1)
    ensures used == capacity ==> CapacityOk(if capacity < 1 then 8 else 2 * capacity, used + 1)
  {
    if used == capacity {
      GrowOk(capacity);
    }
  }

  lemma {:induction false} ShrinkOk(capacity: int, used: int)
    requires capacity > 8 && capacity % 8 == 0 && IsPow2(capacity / 8)
    requires 0 < used < capacity / 4 && used + 1 >= capacity / 4
    ensures CapacityOk(capacity / 2, used)
  {
    assert capacity / 8 > 1;
    assert (capacity / 2) / 8 == (capacity / 8) / 2 && (capacity / 2) % 8 == 0;
  }

  datatype Xroute = Xroute(dst: Prefix, metric: u16)

  predicate Redistributed(xroutes: seq<Xroute>, p: Prefix) {
    exists i :: 0 <= i < |xroutes| && xroutes[i].dst == p
  }

  function SourcesFor(sources: map<Prefix, Sources>, p: Prefix): Sources {
    if p in sources then sources[p] else map[]
  }

  class Table {
    var routes: array<seq<Route>>
    var slots: nat
    var sources: map<Prefix, Sources>
    var xroutes: seq<Xroute>
    /** How many redistributed prefixes there is room for. */
    var maxXroutes: nat

    ghost predicate Valid()
      reads this, routes
    {
      CapacityOk(routes.Length, slots) && SlotsOk(routes[..slots])
    }

    ghost function Chain(p: Prefix): seq<Route>
      reads this, routes
      requires slots <= routes.Length
    {
      ChainOf(routes[..slots], p)
    }

    /** All that is known about destination `p`. */
    ghost function At(p: Prefix): Dest
      reads this, routes
      requires slots <= routes.Length
    {
      Dest(Chain(p), SourcesFor(sources, p), Redistributed(xroutes, p))
    }

    /** Every destination satisfies the invariant of `BabelSlot`. */
    ghost predicate Consistent()
      reads this, routes
    {
      Valid() && forall p :: DestOk(At(p))
    }

    /** No prefix twice, and no more room than the code keeps. */
    ghost predicate XroutesOk()
      reads this
    {
      Distinct(xroutes) && CapacityOk(maxXroutes, |xroutes|)
    }

    constructor ()
      ensures Consistent() && XroutesOk() && fresh(routes) && slots == 0 && xroutes == [] && sources == map[]
    {
      routes := new seq<Route>[0];
      slots, sources, xroutes, maxXroutes := 0, map[], [], 0;
    }

    // ---- Slots

    /** Binary search: the slot of `p`, or the place where it belongs. */
    method FindSlot(p: Prefix) returns (found: bool, i: nat)
      requires Valid()
      ensures found <==> Chain(p) != []
      ensures found ==> i < slots && routes[i] == Chain(p) && routes[i][0].dst == p
      ensures !found ==> i <= slots
      ensures !found ==> forall j | 0 <= j < i :: ComparePrefix(routes[j][0].dst, p) < 0
      ensures !found ==> forall j | i <= j < slots :: ComparePrefix(p, routes[j][0].dst) < 0
    {
      ghost var t := routes[..slots];
      if slots < 1 {
        ChainAbsent(t, p);
        return false, 0;
      }
      var lo: int, hi: int := 0, slots - 1;
      while lo <= hi
        invariant 0 <= lo <= hi + 1 <= slots
        invariant forall j | 0 <= j < lo :: ComparePrefix(t[j][0].dst, p) < 0
        invariant forall j | hi < j < slots :: ComparePrefix(p, t[j][0].dst) < 0
      {
        var m := (lo + hi) / 2;
        var c := ComparePrefix(p, routes[m][0].dst);
        CompareOrder(p, t[m][0].dst);
        if c == 0 {
          ChainAt(t, m);
          return true, m;
        } else if c < 0 {
          forall j | m <= j < slots ensures ComparePrefix(p, t[j][0].dst) < 0 {
            if m < j { CompareTransitive(p, t[m][0].dst, t[j][0].dst); }
          }
          hi := m - 1;
        } else {
          forall j | 0 <= j <= m ensures ComparePrefix(t[j][0].dst, p) < 0 {
            if j < m { CompareTransitive(t[j][0].dst, t[m][0].dst, p); }
          }
          lo := m + 1;
        }
      }
      forall j | 0 <= j < slots ensures t[j][0].dst != p {
        CompareOrder(t[j][0].dst, p);
      }
      ChainAbsent(t, p);
      return false, lo;
    }

    /** Replaces the chain of an occupied slot. */
    method SetSlot(i: nat, c: seq<Route>)
      requires Valid() && i < slots && SlotOk(c) && c[0].dst == routes[i][0].dst
      modifies routes
      ensures Valid() && routes[..slots] == old(routes[..slots])[i := c]
      ensures forall q :: Chain(q) == if q == old(routes[i][0].dst) then c else old(Chain(q))
    {
      ghost var t := routes[..slots];
      forall q ensures ChainOf(t[i := c], q) == if q == t[i][0].dst then c else ChainOf(t, q) {
        SetSlotOk(t, i, c, q);
      }
      SetSlotOk(t, i, c, t[i][0].dst);
      routes[i] := c;
      assert routes[..slots] == t[i := c];
    }

    /** Makes room for `n` slots: a new array with the old contents. */
    method Resize(n: nat)
      requires slots <= n && slots <= routes.Length
      modifies this`routes
      ensures fresh(routes) && routes.Length == n && routes[..slots] == old(routes[..slots])
    {
      var a := new seq<Route>[n](_ => []);
      var i := 0;
      while i < slots
        modifies a
        invariant i <= slots
        invariant forall j | 0 <= j < i :: a[j] == routes[j]
      {
        a[i] := routes[i];
        i := i + 1;
      }
      assert a[..slots] == routes[..slots];
      routes := a;
    }

    /** Opens slot `n`, growing the table when full. */
    method OpenSlot(n: nat, c: seq<Route>)
      requires n <= slots && CapacityOk(routes.Length, slots)
      modifies this`routes, this`slots, routes
      ensures slots == old(slots) + 1 && CapacityOk(routes.Length, slots)
      ensures routes == old(routes) || fresh(routes)
      ensures routes[..slots] == Inserted(old(routes[..slots]), n, c)
    {
      ghost var t := routes[..slots];
      CapacityAfter(routes.Length, slots);
      hide CapacityOk;
      if slots >= routes.Length {
        Resize(if routes.Length < 1 then 8 else 2 * routes.Length);
      }
      assert routes[..n] == t[..n] && routes[n..slots] == t[n..];
      ShiftUp(n);
      routes[n] := c;
      slots := slots + 1;
      assert routes[..slots] == routes[..n] + [routes[n]] + routes[n + 1..slots];
    }

    /** Gives a new destination its slot. */
    method InsertSlot(n: nat, c: seq<Route>)
      requires Valid() && n <= slots && SlotOk(c)
      requires Fits(routes[..slots], n, c)
      modifies this`routes, this`slots, routes
      ensures Valid() && (routes == old(routes) || fresh(routes))
      ensures forall q :: Chain(q) == if q == c[0].dst then c else old(Chain(q))
    {
      ghost var t := routes[..slots];
      OpenSlot(n, c);
      forall q ensures ChainOf(Inserted(t, n, c), q) == if q == c[0].dst then c else ChainOf(t, q) {
        InsertSlotOk(t, n, c, q);
      }
      InsertedSorted(t, n, c);
    }

    /** Moves the slots from `n` on one place up, from the last down. */
    method ShiftUp(n: nat)
      requires n <= slots < routes.Length
      modifies routes
      ensures routes[..n] == old(routes[..n]) && routes[n + 1..slots + 1] == old(routes[n..slots])
    {
      var j := slots;
      while j > n
        invariant n <= j <= slots
        invariant forall h | 0 <= h < j :: routes[h] == old(routes[h])
        invariant forall h | j <= h < slots :: routes[h + 1] == old(routes[h])
      {
        routes[j] := routes[j - 1];
        j := j - 1;
      }
    }

    method ShiftDown(i: nat)
      requires i < slots <= routes.Length
      modifies routes
      ensures routes[..i] == old(routes[..i]) && routes[i..slots - 1] == old(routes[i + 1..slots])
    {
      var j := i;
      while j + 1 < slots
        invariant i <= j < slots
        invariant forall h | 0 <= h < i :: routes[h] == old(routes[h])
        invariant forall h | i < h <= j :: routes[h - 1] == old(routes[h])
        invariant forall h | j < h < slots :: routes[h] == old(routes[h])
      {
        routes[j] := routes[j + 1];
        j := j + 1;
      }
    }

    /** Closes slot `i`, shrinking the table when less than a quarter is used. */
    method CloseSlot(i: nat)
      requires i < slots && CapacityOk(routes.Length, slots)
      modifies this`routes, this`slots, routes
      ensures slots == old(slots) - 1 && CapacityOk(routes.Length, slots)
      ensures routes == old(routes) || fresh(routes)
      ensures routes[..slots] == Removed(old(routes[..slots]), i)
    {
      ghost var t := routes[..slots];
      assert routes[..i] == t[..i] && routes[i + 1..slots] == t[i + 1..];
      ShiftDown(i);
      slots := slots - 1;
      assert routes[..slots] == routes[..i] + routes[i..slots];
      if slots == 0 {
        Resize(0);
      } else if routes.Length > 8 && slots < routes.Length / 4 {
        ShrinkOk(routes.Length, slots);
        Resize(routes.Length / 2);
      }
    }

    /** Takes destination `p` out of the table. */
    method RemoveSlot(i: nat, p: Prefix)
      requires Valid() && i < slots && routes[i] != [] && routes[i][0].dst == p
      modifies this`routes, this`slots, routes
      ensures Valid() && (routes == old(routes) || fresh(routes))
      ensures routes[..slots] == Removed(old(routes[..slots]), i)
      ensures forall q :: Chain(q) == if q == p then [] else old(Chain(q))
    {
      ghost var t: Slots := routes[..slots];
      RemoveAll(t, i, p);
      CloseSlot(i);
    }

    // ---- Chains

    method GetChain(p: Prefix) returns (c: seq<Route>)
      requires Valid()
      ensures c == Chain(p) && forall r | r in c :: r.dst == p
    {
      var found, i := FindSlot(p);
      if found {
        assert SlotOk(routes[..slots][i]);
        return routes[i];
      } else {
        return [];
      }
    }

    /** Rewrites the chain of a destination that has routes. */
    method Replace(p: Prefix, c: seq<Route>)
      requires Valid() && c != [] && |c| == |Chain(p)| && forall r | r in c :: r.dst == p
      modifies routes
      ensures Valid() && At(p) == old(At(p)).(chain := c)
      ensures InPlace(old(routes[..slots]), routes[..slots], p)
      ensures forall q | q != p :: At(q) == old(At(q))
    {
      var found, i := FindSlot(p);
      assert forall j | 0 <= j < slots :: SlotOk(routes[..slots][j]);
      SetSlot(i, c);
    }

    /** Appends a route to its chain, or gives it a slot of its own. */
    method InsertRoute(r: Route)
      requires Valid() && !r.installed
      modifies this`routes, this`slots, routes
      ensures Valid() && (routes == old(routes) || fresh(routes))
      ensures At(r.dst) == old(At(r.dst)).(chain := old(Chain(r.dst)) + [r])
      ensures forall q | q != r.dst :: At(q) == old(At(q))
    {
      var found, i := FindSlot(r.dst);
      if found {
        assert SlotOk(routes[..slots][i]);
        assert SlotOk(routes[i] + [r]);
        SetSlot(i, routes[i] + [r]);
      } else {
        assert [] + [r] == [r];
        InsertSlot(i, [r]);
      }
    }

    /** Takes a route out of its chain, and its slot away if it was the last. */
    method RemoveRoute(p: Prefix, k: Key) returns (ghost i: nat)
      requires Valid() && Has(Chain(p), k)
      modifies this`routes, this`slots, routes
      ensures Valid() && (routes == old(routes) || fresh(routes))
      ensures At(p) == Drop(old(At(p)), k)
      ensures forall q | q != p :: At(q) == old(At(q))
      ensures i < old(slots) && old(routes[..slots])[i] == old(Chain(p))
      ensures OneLess(old(routes[..slots]), routes[..slots], i)
    {
      var found, at := FindSlot(p);
      assert SlotOk(routes[..slots][at]);
      i := at;
      var c := Without(routes[at], Index(routes[at], k));
      if c == [] {
        RemoveSlot(at, p);
      } else {
        SetSlot(at, c);
      }
    }

    method InstallRoute(p: Prefix, k: Key, kernelOk: bool)
      requires Valid() && Has(Chain(p), k)
      modifies routes
      ensures Valid() && At(p) == old(At(p)).(chain := Install(old(Chain(p)), k, kernelOk))
      ensures InPlace(old(routes[..slots]), routes[..slots], p)
      ensures forall q | q != p :: At(q) == old(At(q))
    {
      var c := GetChain(p);
      var i := Index(c, k);
      if c[i].installed || (i != 0 && c[0].installed) || !kernelOk {
        return;
      }
      Replace(p, Promote(c[i := c[i].(installed := true)], i));
    }

    method UninstallRoute(p: Prefix, k: Key)
      requires Valid() && Has(Chain(p), k)
      modifies routes
      ensures Valid() && At(p) == old(At(p)).(chain := Uninstall(old(Chain(p)), k))
      ensures forall q | q != p :: At(q) == old(At(q))
    {
      var c := GetChain(p);
      Replace(p, Put(c, k, Get(c, k).(installed := false)));
    }

    method SwitchRoutes(p: Prefix, cur: Option<Key>, k: Key, kernelOk: bool)
      requires Valid() && Has(Chain(p), k) && (cur.Some? ==> Has(Chain(p), cur.value))
      modifies routes
      ensures Valid() && At(p) == old(At(p)).(chain := Switch(old(Chain(p)), cur, k, kernelOk))
      ensures InPlace(old(routes[..slots]), routes[..slots], p)
      ensures forall q | q != p :: At(q) == old(At(q))
    {
      if cur.None? {
        InstallRoute(p, k, kernelOk);
        return;
      }
      Unmoved(routes[..slots], p);
      var c := GetChain(p);
      if !Get(c, cur.value).installed || !kernelOk {
        return;
      }
      var c1 := Uninstall(c, cur.value);
      IndexPut(c, cur.value, Get(c, cur.value).(installed := false), k);
      var i := Index(c1, k);
      PromoteDst(c1[i := c1[i].(installed := true)], i, p);
      Replace(p, Promote(c1[i := c1[i].(installed := true)], i));
    }

    // ---- Selection

    method FindBestRoute(p: Prefix, now: int, sm: Key -> int, feasible: bool, exclude: Option<nat>)
      returns (best: Option<Route>)
      requires Valid()
      ensures
        var r := FindBest(At(p), now, sm, feasible, exclude);
        best == if r.Some? then Some(Chain(p)[r.value]) else None
    {
      var c := GetChain(p);
      var x := FindXroute(p);
      var d := Dest(c, SourcesFor(sources, p), x.Some?);
      var i: nat, b: Option<nat> := 0, None;
      while i < |c|
        invariant i <= |c| && (b.Some? ==> b.value < i)
        invariant FindBest(d, now, sm, feasible, exclude) == BestFrom(d, i, b, now, sm, feasible, exclude)
      {
        if Acceptable(d, c[i], now, feasible, exclude) && (b.None? || sm(c[i].key) < sm(c[b.value].key)) {
          b := Some(i);
        }
        i := i + 1;
      }
      best := if b.Some? then Some(c[b.value]) else None;
    }

    method FindXroute(p: Prefix) returns (x: Option<nat>)
      ensures x.Some? ==> x.value < |xroutes| && xroutes[x.value].dst == p
      ensures x.None? ==> forall i | 0 <= i < |xroutes| :: xroutes[i].dst != p
    {
      var i := 0;
      while i < |xroutes|
        invariant i <= |xroutes| && forall j | 0 <= j < i :: xroutes[j].dst != p
      {
        if xroutes[i].dst == p {
          return Some(i);
        }
        i := i + 1;
      }
      return None;
    }

    method ConsiderRoute(p: Prefix, k: Key, now: int, sm: Key -> int, kernelOk: bool)
      requires Valid()
      modifies routes
      ensures Valid() && At(p) == ConsiderBy(old(At(p)), k, now, sm, kernelOk)
      ensures InPlace(old(routes[..slots]), routes[..slots], p)
      ensures forall q | q != p :: At(q) == old(At(q))
    {
      var c := GetChain(p);
      if !Has(c, k) || Get(c, k).installed {
        return;
      }
      var x := FindXroute(p);
      var d := Dest(c, SourcesFor(sources, p), x.Some?);
      var r := Get(c, k);
      if !RouteFeasible(d, r, now) || x.Some? {
        return;
      }
      var cur := Installed(c);
      if cur.None? {
        SwitchRoutes(p, None, k, kernelOk);
        return;
      }
      if Metric(r) >= INFINITY {
        return;
      }
      if Metric(cur.value) >= INFINITY || (Metric(cur.value) >= Metric(r) && sm(cur.value.key) > sm(k)) {
        SwitchRoutes(p, Some(cur.value.key), k, kernelOk);
      }
    }

    method SwitchToBetter(p: Prefix, k: Key, now: int, sm: Key -> int, kernelOk: bool)
      requires Valid() && Has(Chain(p), k)
      modifies routes
      ensures Valid() && At(p) == TryBetter(old(At(p)), k, now, sm, kernelOk)
      ensures InPlace(old(routes[..slots]), routes[..slots], p)
      ensures forall q | q != p :: At(q) == old(At(q))
    {
      Unmoved(routes[..slots], p);
      var c := GetChain(p);
      var r := Get(c, k);
      if r.installed {
        var best := FindBestRoute(p, now, sm, true, None);
        if best.Some? && Metric(best.value) < Metric(r) {
          ConsiderRoute(p, best.value.key, now, sm, kernelOk);
        }
      }
    }

    method ReconsiderChanged(p: Prefix, k: Key, now: int, sm: Key -> int, kernel1: bool, kernel2: bool)
      requires Valid() && Has(Chain(p), k)
      modifies routes
      ensures Valid() && At(p) == RouteChanged(old(At(p)), k, now, sm, kernel1, kernel2)
      ensures InPlace(old(routes[..slots]), routes[..slots], p)
      ensures forall q | q != p :: At(q) == old(At(q))
    {
      SwitchToBetter(p, k, now, sm, kernel1);
      var c := GetChain(p);
      if !(Has(c, k) && Get(c, k).installed) {
        ConsiderRoute(p, k, now, sm, kernel2);
      }
    }

    method ReconsiderLost(p: Prefix, now: int, sm: Key -> int, kernelOk: bool)
      requires Valid()
      modifies routes
      ensures Valid() && At(p) == RouteLost(old(At(p)), now, sm, kernelOk)
      ensures InPlace(old(routes[..slots]), routes[..slots], p)
      ensures forall q | q != p :: At(q) == old(At(q))
    {
      var best := FindBestRoute(p, now, sm, true, None);
      if best.Some? {
        ConsiderRoute(p, best.value.key, now, sm, kernelOk);
      }
    }

    // ---- Updates

    method SetSources(p: Prefix, s: Sources)
      requires Valid()
      modifies this`sources
      ensures Valid() && At(p) == old(At(p)).(sources := s)
      ensures forall q | q != p :: At(q) == old(At(q))
    {
      sources := sources[p := s];
    }

    /** The part of update_route before routes are reconsidered. */
    method StoreUpdate(p: Prefix, u: Update, now: int, keep: bool, kernelOk: bool) returns (lost: bool)
      requires Valid()
      modifies this`routes, this`slots, this`sources, routes
      ensures Valid() && (routes == old(routes) || fresh(routes))
      ensures At(p) == UpdateCore(old(At(p)), p, u, now, keep, kernelOk)
      ensures forall q | q != p :: At(q) == old(At(q))
      ensures lost == LosesRoute(old(At(p)), u, now)
    {
      hide Feasible, KernelRejects, Retain;
      var c := GetChain(p);
      var srcs: Sources := FindSource(SourcesFor(sources, p), u.id, u.seqno, now);
      var feasible := Feasible(srcs[u.id], u.seqno, u.refmetric, now);
      lost := false;
      if Has(c, u.key) {
        var r := Get(c, u.key);
        lost := !feasible && r.installed && u.id != r.src;
        var r1 := r.(installed := r.installed && !lost,
                     src := u.id,
                     time := if (feasible || keep) && u.refmetric < INFINITY then now else r.time,
                     seqno := u.seqno);
        var r2 := ChangeMetric(r1, u.refmetric, u.cost, u.add, kernelOk).(hold := u.hold);
        Replace(p, Put(c, u.key, r2));
        SetSources(p, Retain(srcs, u.id));
      } else if u.refmetric >= INFINITY || (!feasible && !keep) {
        SetSources(p, srcs);
      } else {
        InsertRoute(NewRoute(p, u, now));
        SetSources(p, Retain(srcs, u.id));
      }
    }

    /** Drops one reference to a source. */
    method ReleaseSource(p: Prefix, id: RouterId)
      requires Valid() && id in SourcesFor(sources, p) && SourcesFor(sources, p)[id].count > 0
      modifies this`sources
      ensures Valid() && At(p) == old(At(p)).(sources := Release(old(At(p)).sources, id))
      ensures forall q | q != p :: At(q) == old(At(q))
    {
      var s: Sources := SourcesFor(sources, p);
      SetSources(p, s[id := s[id].(count := s[id].count - 1)]);
    }

    /** Reconsiders routes after an update was stored, and drops the old reference. */
    method Settle(p: Prefix, k: Key, was: Option<RouterId>, lost: bool, now: int, sm: Key -> int, kernel: Kernel)
      requires Valid() && (was.Some? ==> Has(Chain(p), k)) && Exclusive(At(p)) && Counted(At(p), was)
      modifies this`sources, routes
      ensures Valid() && At(p) == AfterUpdate(old(At(p)), k, was, lost, now, sm, kernel)
      ensures forall q | q != p :: At(q) == old(At(q))
    {
      ghost var d1 := At(p);
      if was.None? {
        var c := GetChain(p);
        if Has(c, k) {
          ConsiderRoute(p, k, now, sm, kernel.first);
        }
        return;
      }
      ReconsiderChanged(p, k, now, sm, kernel.first, kernel.second);
      RouteChangedReselects(d1, k, now, sm, kernel.first, kernel.second);
      if lost {
        ghost var d2 := At(p);
        ReconsiderLost(p, now, sm, kernel.third);
        RouteLostReselects(d2, now, sm, kernel.third);
        ReselectedTransitive(d1, d2, At(p));
      }
      ReselectedCounted(d1, At(p), was);
      ReleaseOk(At(p), was.value);
      ReleaseSource(p, was.value);
    }

    /** Receives an update. */
    method ReceiveUpdate(p: Prefix, myid: RouterId, u: Update, now: int, sm: Key -> int, keep: bool, kernel: Kernel)
      requires Valid() && DestOk(At(p))
      modifies this`routes, this`slots, this`sources, routes
      ensures Valid() && DestOk(At(p)) && (routes == old(routes) || fresh(routes))
      ensures At(p) == UpdateRoute(old(At(p)), p, myid, u, now, sm, keep, kernel)
      ensures forall q | q != p :: At(q) == old(At(q))
    {
      hide UpdateCore, AfterUpdate, LosesRoute, DestOk, Martian;
      UpdateRouteOk(At(p), p, myid, u, now, sm, keep, kernel);
      if Ignored(p, myid, u) {
        return;
      }
      UpdateCoreOk(At(p), p, u, now, keep, kernel.metric);
      UpdateCoreHas(At(p), p, u, now, keep, kernel.metric);
      var c := GetChain(p);
      var was := if Has(c, u.key) then Some(Get(c, u.key).src) else None;
      assert was == FormerSource(At(p), u);
      var lost := StoreUpdate(p, u, now, keep, kernel.metric);
      Settle(p, u.key, was, lost, now, sm, kernel);
    }

    // ---- Redistributed routes

    /** Enters `p`, or lowers its metric; says whether anything changed. */
    method EnterXroute(p: Prefix, metric: u16) returns (changed: bool)
      requires XroutesOk()
      modifies this`xroutes, this`maxXroutes
      ensures XroutesOk() && Redistributed(xroutes, p)
      ensures forall q | q != p :: Redistributed(xroutes, q) <==> Redistributed(old(xroutes), q)
      ensures !changed ==> xroutes == old(xroutes)
      ensures changed <==> forall x | x in old(xroutes) && x.dst == p :: metric < x.metric
      ensures changed ==> Xroute(p, metric) in xroutes
      ensures forall x: Xroute | x.dst != p :: x in xroutes <==> x in old(xroutes)
    {
      var x := FindXroute(p);
      ghost var xs := xroutes;
      if x.Some? {
        if xroutes[x.value].metric <= metric {
          assert xroutes[x.value] in xroutes;
          return false;
        }
        xroutes := xroutes[x.value := Xroute(p, metric)];
        assert xroutes[x.value] in xroutes;
        assert forall i | 0 <= i < |xs| :: xroutes[i].dst == xs[i].dst;
        XroutesElsewhere(xs, xroutes, x.value);
      } else {
        CapacityAfter(maxXroutes, |xroutes|);
        if |xroutes| >= maxXroutes {
          maxXroutes := if maxXroutes < 1 then 8 else 2 * maxXroutes;
        }
        xroutes := xroutes + [Xroute(p, metric)];
        assert xroutes[|xs|].dst == p;
        assert forall i | 0 <= i < |xs| :: xroutes[i] == xs[i];
        assert xroutes[|xs|] in xroutes;
      }
      return true;
    }

    /** Redistributes `p`: from then on no Babel route to it is installed. */
    method AddXrouteFor(p: Prefix, metric: u16)
      requires Valid() && DestOk(At(p)) && XroutesOk()
      modifies this`xroutes, this`maxXroutes, routes
      ensures Valid() && DestOk(At(p)) && XroutesOk()
      ensures At(p) == if Martian(p) || metric >= INFINITY then old(At(p)) else AddXroute(old(At(p)))
      ensures forall q | q != p :: At(q) == old(At(q))
    {
      AddXrouteOk(At(p));
      if Martian(p) || metric >= INFINITY {
        return;
      }
      ghost var d := At(p);
      var changed := EnterXroute(p, metric);
      if !changed {
        StillExclusive(d);
        return;
      }
      assert forall q | q != p :: At(q) == old(At(q));
      var c := GetChain(p);
      if Installed(c).Some? {
        UninstallRoute(p, c[0].key);
      }
    }

    method FlushXroute(i: nat)
      requires Valid() && i < |xroutes| && XroutesOk()
      modifies this`xroutes, this`maxXroutes
      ensures Valid() && XroutesOk()
      ensures forall q :: At(q) == old(At(q)).(xroute := old(At(q)).xroute && q != old(xroutes)[i].dst)
      ensures forall x :: x in xroutes <==> x in old(xroutes) && x.dst != old(xroutes)[i].dst
    {
      SwapRemovedRest(xroutes, i);
      forall q ensures Redistributed(SwapRemoved(xroutes, i), q) <==> Redistributed(xroutes, q) && q != xroutes[i].dst {
        SwapRemovedOk(xroutes, i, q);
      }
      SwapRemovedOk(xroutes, i, xroutes[i].dst);
      xroutes := SwapRemoved(xroutes, i);
      if |xroutes| == 0 {
        maxXroutes := 0;
      } else if maxXroutes > 8 && |xroutes| < maxXroutes / 4 {
        ShrinkOk(maxXroutes, |xroutes|);
        maxXroutes := maxXroutes / 2;
      }
    }

    // ---- Retracting

    method RetractRoute(p: Prefix, k: Key, now: int, sm: Key -> int, kernel: Kernel)
      requires Valid() && Has(Chain(p), k)
      modifies routes
      ensures Valid() && At(p) == RetractReact(old(At(p)), k, now, sm, kernel)
      ensures InPlace(old(routes[..slots]), routes[..slots], p)
      ensures forall q | q != p :: At(q) == old(At(q))
    {
      hide RouteChanged, InPlace;
      var c := GetChain(p);
      var r := Get(c, k);
      PutHas(c, k, Retract(r, kernel.metric));
      Replace(p, Put(c, k, Retract(r, kernel.metric)));
      ghost var t := routes[..slots];
      if Metric(r) != INFINITY {
        ReconsiderChanged(p, k, now, sm, kernel.first, kernel.second);
        InPlaceTransitive(old(routes[..slots]), t, routes[..slots], p);
      }
    }

    /** The same for slot `i`, which stays where it is. */
    method RetractAt(i: nat, p: Prefix, k: Key, now: int, sm: Key -> int, kernel: Kernel)
      requires Valid() && i < slots && Has(Chain(p), k) && routes[i] == Chain(p)
      modifies routes
      ensures Valid() && At(p) == RetractReact(old(At(p)), k, now, sm, kernel) && routes[i] == Chain(p)
      ensures InPlace(old(routes[..slots]), routes[..slots], p)
      ensures forall q | q != p :: At(q) == old(At(q))
    {
      hide RetractReact;
      ghost var t := routes[..slots];
      ChainCases(t, p);
      RetractRoute(p, k, now, sm, kernel);
      StillAt(t, routes[..slots], i, p);
    }

    /** Walks along the list of slot `i` as it is after each change. */
    method RetractSlot(i: nat, p: Prefix, neigh: nat, now: int, sm: Key -> int, kernel: nat -> Kernel)
      requires Consistent() && i < slots && routes[i] == Chain(p)
      modifies routes
      ensures Valid() && DestOk(At(p)) && (forall q | q != p :: At(q) == old(At(q)))
      ensures InPlace(old(routes[..slots]), routes[..slots], p)
      ensures Outcome(old(At(p)), At(p), neigh, now, sm, kernel(0))
    {
      hide DestOk, RetractReact, InPlace, Underway, FiniteKeys, Outcome;
      var j: nat, n: nat := 0, 0;
      ghost var d0, t0 := At(p), routes[..slots];
      Unmoved(t0, p);
      SetOut(d0, neigh, now, sm, kernel(0));
      while j < |routes[i]|
        invariant Valid() && (forall q | q != p :: At(q) == old(At(q))) && InPlace(t0, routes[..slots], p)
        invariant routes[i] == Chain(p) && j <= |routes[i]| && (j == 0 ==> n == 0)
        invariant Underway(d0, At(p), j, neigh, now, sm, kernel(0))
        decreases |FiniteKeys(routes[i], neigh)|, |routes[i]| - j
      {
        ghost var d, t := At(p), routes[..slots];
        var k := routes[i][j].key;
        if k.neigh == neigh && routes[i][j].refmetric != INFINITY {
          UnderwayOn(d0, d, j, neigh, now, sm, kernel(n), kernel(0));
          RetractAt(i, p, k, now, sm, kernel(n));
          InPlaceTransitive(t0, t, routes[..slots], p);
          j, n := Index(routes[i], k) + 1, n + 1;
        } else {
          UnderwayPast(d0, d, j, neigh, now, sm, kernel(0));
          j := j + 1;
        }
      }
      Arrived(d0, At(p), neigh, now, sm, kernel(0));
    }

    /** retract_neighbour_routes, for all answers of the kernel and all smoothed metrics: a finite route through the
        neighbour is left at a destination if and only if one escapes there; nothing else is retracted. */
    method RetractNeighbour(neigh: nat, now: int, sm: (Prefix, Key) -> int, kernel: (Prefix, nat) -> Kernel)
      requires Consistent()
      modifies routes
      ensures Consistent()
      ensures forall p :: Outcome(old(At(p)), At(p), neigh, now, SmoothedFor(sm, p), KernelFor(kernel, p)(0))
    {
      hide DestOk, InPlace, Outcome, SmoothedFor, KernelFor;
      ghost var t0 := routes[..slots];
      ghost var done: set<Prefix> := {};
      var i := 0;
      while i < slots
        invariant i <= slots && Consistent() && InOrder(t0, routes[..slots])
        invariant forall j | 0 <= j < slots :: t0[j][0].dst in done <==> j < i
        invariant forall p | p !in done :: At(p) == old(At(p))
        invariant forall p | p in done ::
                    Outcome(old(At(p)), At(p), neigh, now, SmoothedFor(sm, p), KernelFor(kernel, p)(0))
      {
        ghost var t := routes[..slots];
        assert SlotOk(t[i]);
        var p := routes[i][0].dst;
        ChainAt(t, i);
        RetractSlot(i, p, neigh, now, SmoothedFor(sm, p), KernelFor(kernel, p));
        InOrderOn(t0, t, routes[..slots], p);
        OnlyHere(t0, i, done);
        done := done + {p};
        i := i + 1;
      }
      forall p ensures Outcome(old(At(p)), At(p), neigh, now, SmoothedFor(sm, p), KernelFor(kernel, p)(0)) {
        if p !in done {
          ChainAbsent(t0, p);
          EmptyOutcome(At(p), neigh, now, SmoothedFor(sm, p), KernelFor(kernel, p)(0));
        }
      }
    }

    // ---- Flushing

    method Flush(p: Prefix, k: Key, now: int, sm: Key -> int, kernelOk: bool) returns (ghost i: nat)
      requires Valid() && DestOk(At(p)) && Has(Chain(p), k)
      modifies this`routes, this`slots, this`sources, routes
      ensures Valid() && DestOk(At(p)) && (routes == old(routes) || fresh(routes))
      ensures At(p) == FlushRoute(old(At(p)), k, now, sm, kernelOk)
      ensures forall q | q != p :: At(q) == old(At(q))
      ensures i < old(slots) && old(routes[..slots])[i] == old(Chain(p))
      ensures OneLess(old(routes[..slots]), routes[..slots], i)
      ensures forall k' :: Has(Chain(p), k') <==> old(Has(Chain(p), k')) && k' != k
    {
      hide DestOk, Exclusive, Counted, OneLess, InPlace, RouteLost, Release;
      FlushRouteOk(At(p), k, now, sm, kernelOk);
      DropOk(At(p), k);
      ghost var t := routes[..slots];
      var c := GetChain(p);
      var r := Get(c, k);
      i := RemoveRoute(p, k);
      ghost var u := routes[..slots];
      Replaced(p, r, now, sm, kernelOk);
      OneLessInPlace(t, u, routes[..slots], i, p);
    }

    /** Looks for another route after an installed one is gone, and drops its reference. */
    method Replaced(p: Prefix, r: Route, now: int, sm: Key -> int, kernelOk: bool)
      requires Valid() && Exclusive(At(p)) && Counted(At(p), Some(r.src))
      modifies this`sources, routes
      ensures Valid()
      ensures
        var d := if r.installed then RouteLost(old(At(p)), now, sm, kernelOk) else old(At(p));
        At(p) == d.(sources := Release(d.sources, r.src))
      ensures InPlace(old(routes[..slots]), routes[..slots], p)
      ensures forall q | q != p :: At(q) == old(At(q))
    {
      ghost var d := At(p);
      SelfRearranged(d.chain);
      if r.installed {
        ReconsiderLost(p, now, sm, kernelOk);
        RouteLostReselects(d, now, sm, kernelOk);
      }
      ReselectedCounted(d, At(p), Some(r.src));
      ReleaseOk(At(p), r.src);
      ReleaseSource(p, r.src);
    }

    /** Flushes every route; no source is referenced afterwards. */
    method FlushAll(now: int, sm: (Prefix, Key) -> int)
      requires Consistent()
      modifies this`routes, this`slots, this`sources, routes
      ensures Consistent() && slots == 0 && routes.Length == 0
      ensures forall p, id | id in At(p).sources :: At(p).sources[id].count == 0
    {
      var i: int := slots - 1;
      while i >= 0
        invariant Consistent() && (routes == old(routes) || fresh(routes))
        invariant -1 <= i == slots - 1
        decreases i
      {
        while i < slots
          invariant Consistent() && (routes == old(routes) || fresh(routes))
          invariant i <= slots <= i + 1
          decreases Total(routes[..slots])
        {
          FlushHead(i, now, sm);
        }
        i := i - 1;
      }
      forall p, id | id in At(p).sources ensures At(p).sources[id].count == 0 {
        assert routes[..slots] == [];
        assert DestOk(At(p));
      }
    }

    /** Uninstalls the head of slot `i`, so that no other route is looked for, and flushes it. */
    method FlushHead(i: nat, now: int, sm: (Prefix, Key) -> int)
      requires Consistent() && i < slots
      modifies this`routes, this`slots, this`sources, routes
      ensures Consistent() && (routes == old(routes) || fresh(routes))
      ensures Total(routes[..slots]) < old(Total(routes[..slots])) && old(slots) - 1 <= slots <= old(slots)
    {
      ghost var t := routes[..slots];
      assert SlotOk(t[i]);
      var p, k := routes[i][0].dst, routes[i][0].key;
      ChainAt(t, i);
      IndexUnique(t[i], k, 0);
      assert DestOk(At(p));
      FlagOk(At(p), 0, false);
      Replace(p, routes[i][0 := routes[i][0].(installed := false)]);
      ghost var u := routes[..slots];
      IndexUnique(Chain(p), k, 0);
      ghost var j := Flush(p, k, now, SmoothedFor(sm, p), true);
      InPlaceTotal(t, u, p);
      OneLessTotal(u, routes[..slots], j);
    }

    /** Flushes every route through a neighbour, whatever the kernel answers each time; none is left and no other is
        removed. */
    method FlushNeighbour(neigh: nat, now: int, sm: (Prefix, Key) -> int, kernel: nat -> bool)
      requires Consistent()
      modifies this`routes, this`slots, this`sources, routes
      ensures Consistent() && (routes == old(routes) || fresh(routes))
      ensures ExactlyLost(old(routes[..slots]), routes[..slots], neigh)
    {
      hide DestOk;
      ghost var t0 := routes[..slots];
      var i, flushed := 0, 0;
      while i < slots
        invariant Consistent() && (routes == old(routes) || fresh(routes)) && i <= slots
        invariant FreeBelow(routes[..slots], i, neigh)
        invariant OnlyLost(t0, routes[..slots], neigh)
        decreases Total(routes[..slots]), slots - i
      {
        ghost var t := routes[..slots];
        var j := Through(routes[i], neigh);
        if j < |routes[i]| {
          ghost var p, k := FlushAt(i, j, now, sm, kernel(flushed));
          flushed := flushed + 1;
          ghost var u := routes[..slots];
          OnlyLostStep(t0, t, u, neigh, p, k) by {
            forall q | q != p ensures ChainOf(u, q) == ChainOf(t, q) {
              assert At(q).chain == ChainOf(t, q);
            }
          }
          FreeBelowSame(t, u, i, neigh);
        } else {
          i := i + 1;
        }
      }
      AllFree(t0, routes[..slots], neigh);
    }

    /** Flushes the `j`-th route of slot `i`. */
    method FlushAt(i: nat, j: nat, now: int, sm: (Prefix, Key) -> int, kernelOk: bool)
      returns (ghost p: Prefix, ghost k: Key)
      requires Consistent() && i < slots && j < |routes[i]|
      modifies this`routes, this`slots, this`sources, routes
      ensures Valid() && DestOk(At(p)) && (forall q | q != p :: At(q) == old(At(q)))
      ensures routes == old(routes) || fresh(routes)
      ensures k == old(routes[i])[j].key
      ensures i <= slots && routes[..slots][..i] == old(routes[..slots])[..i]
      ensures forall k' :: Has(Chain(p), k') <==> old(Has(Chain(p), k')) && k' != k
      ensures Total(routes[..slots]) < old(Total(routes[..slots]))
    {
      ghost var t := routes[..slots];
      assert SlotOk(t[i]);
      var dst, key := routes[i][0].dst, routes[i][j].key;
      p, k := dst, key;
      ChainAt(t, i);
      HasIff(t[i], k);
      assert DestOk(At(p));
      ghost var l := Flush(dst, key, now, SmoothedFor(sm, dst), kernelOk);
      SlotUnique(t, i, l);
      OneLessTotal(t, routes[..slots], i);
      OneLessBefore(t, routes[..slots], i);
    }
  }

  function SmoothedFor(sm: (Prefix, Key) -> int, p: Prefix): Key -> int { (k: Key) => sm(p, k) }

  function KernelFor(kernel: (Prefix, nat) -> Kernel, p: Prefix): nat -> Kernel { (n: nat) => kernel(p, n) }

  /** What the walk over the routes of one destination comes to. */
  ghost predicate Outcome(d0: Dest, d: Dest, neigh: nat, now: int, sm: Key -> int, kernel: Kernel) {
    && (NoneLeft(d.chain, neigh) <==> !Escapes(d0, neigh, now, sm, kernel))
    && Tamed(d0.chain, d.chain, neigh) && d.sources == d0.sources && d.xroute == d0.xroute
  }

  lemma {:induction false} EmptyOutcome(d: Dest, neigh: nat, now: int, sm: Key -> int, kernel: Kernel)
    requires d.chain == []
    ensures Outcome(d, d, neigh, now, sm, kernel)
  {
    TamedSelf(d.chain, neigh);
    NoEscape(d, neigh, now, sm, kernel);
  }

  /** The walk over the routes of one destination has come to `j`, and left all else as it was. */
  ghost predicate Underway(d0: Dest, d: Dest, j: nat, neigh: nat, now: int, sm: Key -> int, first: Kernel) {
    && Walked(d0, d, j, neigh, now, sm, first) && DestOk(d) && Tamed(d0.chain, d.chain, neigh)
    && d.sources == d0.sources && d.xroute == d0.xroute
  }

  lemma {:induction false} SetOut(d: Dest, neigh: nat, now: int, sm: Key -> int, first: Kernel)
    requires DestOk(d)
    ensures Underway(d, d, 0, neigh, now, sm, first)
  {
    TamedSelf(d.chain, neigh);
  }

  lemma {:induction false} UnderwayPast(d0: Dest, d: Dest, j: nat, neigh: nat, now: int, sm: Key -> int, first: Kernel)
    requires Underway(d0, d, j, neigh, now, sm, first) && j < |d.chain| && !Finite(d.chain[j], neigh)
    ensures Underway(d0, d, j + 1, neigh, now, sm, first)
  {
    WalkPast(d0, d, j, neigh, now, sm, first);
  }

  lemma {:induction false} UnderwayOn(d0: Dest, d: Dest, j: nat, neigh: nat, now: int, sm: Key -> int,
                                      kernel: Kernel, first: Kernel)
    requires Underway(d0, d, j, neigh, now, sm, first) && j < |d.chain| && Finite(d.chain[j], neigh)
    requires j == 0 ==> kernel == first
    ensures Has(d.chain, d.chain[j].key)
    ensures
      var k := d.chain[j].key;
      var e := RetractReact(d, k, now, sm, kernel);
      && Underway(d0, e, After(e, k), neigh, now, sm, first) && After(e, k) <= |e.chain| == |d.chain|
      && (|| |FiniteKeys(e.chain, neigh)| < |FiniteKeys(d.chain, neigh)|
          || (|FiniteKeys(e.chain, neigh)| == |FiniteKeys(d.chain, neigh)| && After(e, k) > j))
  {
    hide RetractReact, Tamed, FiniteKeys, Escapes, Counted;
    var k := d.chain[j].key;
    WalkOn(d0, d, j, neigh, now, sm, kernel, first);
    StepTames(d, k, neigh, now, sm, kernel);
    StepProgress(d, j, neigh, now, sm, kernel);
    StepLength(d, j, neigh, now, sm, kernel);
    TamedTransitive(d0.chain, d.chain, RetractReact(d, k, now, sm, kernel).chain, neigh);
  }

  lemma {:induction false} Arrived(d0: Dest, d: Dest, neigh: nat, now: int, sm: Key -> int, first: Kernel)
    requires Underway(d0, d, |d.chain|, neigh, now, sm, first)
    ensures DestOk(d) && Outcome(d0, d, neigh, now, sm, first)
  {
    WalkEnds(d0, d, neigh, now, sm, first);
  }

  ghost predicate Distinct(xs: seq<Xroute>) {
    forall i, j | 0 <= i < j < |xs| :: xs[i].dst != xs[j].dst
  }

  /** The last element moves into the place of the removed one. */
  function SwapRemoved(xs: seq<Xroute>, i: nat): seq<Xroute>
    requires i < |xs|
  {
    xs[i := xs[|xs| - 1]][..|xs| - 1]
  }

  lemma {:induction false} XroutesElsewhere(xs: seq<Xroute>, ys: seq<Xroute>, i: nat)
    requires i < |xs| && Distinct(xs) && |ys| == |xs| && ys[i].dst == xs[i].dst
    requires forall j | 0 <= j < |xs| && j != i :: ys[j] == xs[j]
    ensures forall x: Xroute | x.dst != xs[i].dst :: x in ys <==> x in xs
  {
    forall x: Xroute | x.dst != xs[i].dst ensures x in ys <==> x in xs {
      if x in xs {
        var j :| 0 <= j < |xs| && xs[j] == x;
        assert ys[j] == x;
      }
      if x in ys {
        var j :| 0 <= j < |ys| && ys[j] == x;
        assert xs[j] == x;
      }
    }
  }

  lemma {:induction false} SwapRemovedRest(xs: seq<Xroute>, i: nat)
    requires i < |xs| && Distinct(xs)
    ensures forall x :: x in SwapRemoved(xs, i) <==> x in xs && x.dst != xs[i].dst
  {
    var ys := SwapRemoved(xs, i);
    forall x ensures x in ys <==> x in xs && x.dst != xs[i].dst {
      if x in xs && x.dst != xs[i].dst {
        var j :| 0 <= j < |xs| && xs[j] == x;
        assert ys[if j == |xs| - 1 then i else j] == x;
      }
      if x in ys {
        var j :| 0 <= j < |ys| && ys[j] == x;
        assert x == xs[if j == i then |xs| - 1 else j];
      }
    }
  }

  lemma {:induction false} SwapRemovedOk(xs: seq<Xroute>, i: nat, p: Prefix)
    requires i < |xs| && Distinct(xs)
    ensures Distinct(SwapRemoved(xs, i))
    ensures Redistributed(SwapRemoved(xs, i), p) <==> Redistributed(xs, p) && p != xs[i].dst
  {
    var ys := SwapRemoved(xs, i);
    if Redistributed(xs, p) && p != xs[i].dst {
      var j :| 0 <= j < |xs| && xs[j].dst == p;
      assert ys[if j == |xs| - 1 then i else j].dst == p;
    }
  }

  predicate Free(c: seq<Route>, neigh: nat) {
    forall r | r in c :: r.key.neigh != neigh
  }

  ghost predicate FreeBelow(t: Slots, i: nat, neigh: nat) {
    i <= |t| && forall j | 0 <= j < i :: Free(t[j], neigh)
  }

  /** From `t0` to `t` no routes were added, and only routes through `neigh` removed. */
  ghost predicate OnlyLost(t0: Slots, t: Slots, neigh: nat) {
    forall p, k :: KeptAt(t0, t, neigh, p, k)
  }

  predicate KeptAt(t0: Slots, t: Slots, neigh: nat, p: Prefix, k: Key) {
    && (Has(ChainOf(t, p), k) ==> Has(ChainOf(t0, p), k))
    && (Has(ChainOf(t0, p), k) && k.neigh != neigh ==> Has(ChainOf(t, p), k))
  }

  lemma {:induction false} OnlyLostStep(t0: Slots, t: Slots, u: Slots, neigh: nat, p: Prefix, k: Key)
    requires OnlyLost(t0, t, neigh) && k.neigh == neigh
    requires forall q | q != p :: ChainOf(u, q) == ChainOf(t, q)
    requires forall k' :: Has(ChainOf(u, p), k') <==> Has(ChainOf(t, p), k') && k' != k
    ensures OnlyLost(t0, u, neigh)
  {
    forall q, k' ensures KeptAt(t0, u, neigh, q, k') {
      assert KeptAt(t0, t, neigh, q, k');
      if q == p {
        assert Has(ChainOf(u, p), k') <==> Has(ChainOf(t, p), k') && k' != k;
      }
    }
  }

  /** Routes of `t` are those of `t0` not through `neigh`. */
  ghost predicate ExactlyLost(t0: Slots, t: Slots, neigh: nat) {
    forall p, k :: Has(ChainOf(t, p), k) <==> Has(ChainOf(t0, p), k) && k.neigh != neigh
  }

  lemma {:induction false} FreeBelowSame(t: Slots, u: Slots, i: nat, neigh: nat)
    requires FreeBelow(t, i, neigh) && i <= |u| && u[..i] == t[..i]
    ensures FreeBelow(u, i, neigh)
  {
    forall j | 0 <= j < i ensures Free(u[j], neigh) {
      assert u[j] == u[..i][j] == t[..i][j] == t[j];
    }
  }

  lemma {:induction false} FreeChain(t: Slots, neigh: nat, p: Prefix, k: Key)
    requires SlotsOk(t) && FreeBelow(t, |t|, neigh) && Has(ChainOf(t, p), k)
    ensures k.neigh != neigh
  {
    ChainCases(t, p);
    var i :| 0 <= i < |t| && t[i] == ChainOf(t, p);
    assert Free(t[i], neigh) && Get(t[i], k) in t[i];
  }

  lemma {:induction false} AllFree(t0: Slots, t: Slots, neigh: nat)
    requires SlotsOk(t) && FreeBelow(t, |t|, neigh) && OnlyLost(t0, t, neigh)
    ensures ExactlyLost(t0, t, neigh)
  {
    forall p, k ensures Has(ChainOf(t, p), k) <==> Has(ChainOf(t0, p), k) && k.neigh != neigh {
      assert KeptAt(t0, t, neigh, p, k);
      if Has(ChainOf(t, p), k) {
        FreeChain(t, neigh, p, k);
      }
    }
  }

  /** The first route through `neigh`. */
  function Through(c: seq<Route>, neigh: nat): (j: nat)
    ensures j <= |c|
    ensures j < |c| ==> c[j].key.neigh == neigh
    ensures j == |c| ==> Free(c, neigh)
  {
    if |c| == 0 then 0 else if c[0].key.neigh == neigh then 0 else 1 + Through(c[1..], neigh)
  }

  lemma {:induction false} PromoteDst(c: seq<Route>, i: nat, p: Prefix)
    requires i < |c| && forall r | r in c :: r.dst == p
    ensures |Promote(c, i)| == |c| && forall r | r in Promote(c, i) :: r.dst == p
  {
  }

  lemma {:induction false} Unmoved(t: Slots, p: Prefix)
    requires SlotsOk(t)
    ensures InPlace(t, t, p)
  {
  }

  lemma {:induction false} InPlaceTransitive(t: Slots, u: Slots, v: Slots, p: Prefix)
    requires InPlace(t, u, p) && InPlace(u, v, p)
    ensures InPlace(t, v, p)
  {
  }

  lemma {:induction false} StillAt(t: Slots, u: Slots, i: nat, p: Prefix)
    requires SlotsOk(u) && InPlace(t, u, p) && i < |t| && t[i][0].dst == p
    ensures u[i] == ChainOf(u, p)
  {
    ChainAt(u, i);
  }

  /** The same destinations in the same slots. */
  ghost predicate InOrder(t: Slots, u: Slots) {
    |t| == |u| && forall j | 0 <= j < |t| :: t[j] != [] && u[j] != [] && u[j][0].dst == t[j][0].dst
  }

  lemma {:induction false} InOrderOn(t: Slots, u: Slots, v: Slots, p: Prefix)
    requires InOrder(t, u) && InPlace(u, v, p)
    ensures InOrder(t, v)
  {
  }

  lemma {:induction false} OnlyHere(t: Slots, i: nat, done: set<Prefix>)
    requires SlotsOk(t) && i < |t| && forall j | 0 <= j < |t| :: t[j][0].dst in done <==> j < i
    ensures forall j | 0 <= j < |t| :: t[j][0].dst in done + {t[i][0].dst} <==> j < i + 1
  {
    forall j | 0 <= j < |t| && t[j][0].dst == t[i][0].dst ensures j == i {
      SlotUnique(t, i, j);
    }
  }

  lemma {:induction false} SlotUnique(t: Slots, i: nat, j: nat)
    requires SlotsOk(t) && i < |t| && j < |t| && t[i][0].dst == t[j][0].dst
    ensures i == j
  {
    CompareOrder(t[i][0].dst, t[j][0].dst);
    CompareOrder(t[j][0].dst, t[i][0].dst);
  }

  lemma {:induction false} InPlaceTotal(t: Slots, u: Slots, p: Prefix)
    requires InPlace(t, u, p)
    ensures Total(t) == Total(u)
  {
    if |t| > 0 {
      InPlaceTotal(t[1..], u[1..], p);
    }
  }

  lemma {:induction false} StillExclusive(d: Dest)
    requires DestOk(d) && d.xroute
    ensures AddXroute(d) == d
  {
    if |d.chain| > 0 {
      assert d.chain[0] in d.chain;
    }
  }

  lemma {:induction false} FlagOk(d: Dest, i: nat, flag: bool)
    requires DestOk(d) && i < |d.chain| && !flag
    ensures DestOk(d.(chain := d.chain[i := d.chain[i].(installed := flag)]))
  {
    FlagRearranged(d.chain, i, flag);
    var d' := d.(chain := d.chain[i := d.chain[i].(installed := flag)]);
    assert ChainOk(d'.chain);
    ReselectedCounted(d, d', None);
  }
}
