/**
 Metric smoothing: a route's smoothed metric drifts towards its metric by randomised
 steps, one per elapsed half-life and then one per elapsed second.
 */
module Smoothing {
  import opened Basics

  /** Division as in C, towards zero. */
  function CDiv(a: int, b: int): int
    requires b > 0
  {
    if a >= 0 then a / b else -(-a / b)
  }

  function Abs(x: int): nat { if x < 0 then -x else x }

  /** Between three and five quarters of the value, by the random number drawn. */
  function Roughly(value: int, random: nat): int
    decreases Abs(value), value < 0
  {
    if value < 0 then -Roughly(-value, random)
    else if value <= 1 then value
    else value * 3 / 4 + random % (value / 2)
  }

  /** 2^(1/halfLife), scaled by 2^16. */
  function TwoToTheOneOver(halfLife: int): int
    requires halfLife > 0
  {
    if halfLife == 1 then 131072
    else if halfLife == 2 then 92682
    else if halfLife == 3 then 82570
    else if halfLife == 4 then 77935
    else 0x10000 + 45426 / halfLife
  }

  function HalfStep(diff: int, random: nat): int { CDiv(Roughly(diff, random), 2) }

  function SecondStep(diff: int, random: nat, halfLife: int): int
    requires halfLife > 0
  {
    CDiv(Roughly(diff, random) * (TwoToTheOneOver(halfLife) - 0x10000), 0x10000)
  }

  /** The most that can be left of a distance after one half-life. */
  function Remainder(v: nat): nat { v - 3 * v / 8 }

  function Decayed(v: nat, halfLives: nat): nat {
    if halfLives == 0 then v else Decayed(Remainder(v), halfLives - 1)
  }

  /** From `x` towards `target`, not beyond it. */
  predicate Towards(x: int, y: int, target: int) {
    x <= y <= target || target <= y <= x
  }

  // ---- Steps

  lemma {:induction false} RoughlyBounds(v: nat, random: nat)
    ensures v * 3 / 4 <= Roughly(v, random)
    ensures 4 * Roughly(v, random) <= 5 * v
    ensures v > 1 ==> 4 * Roughly(v, random) <= 5 * v - 4
    ensures v > 0 ==> Roughly(v, random) > 0
  {
  }

  lemma {:induction false} RoughlyOdd(diff: int, random: nat)
    requires diff < 0
    ensures HalfStep(diff, random) == -HalfStep(-diff, random)
  {
    RoughlyBounds(-diff, random);
  }

  /** A half-life step never overshoots and leaves at most v - floor(3v/8) of a distance v. */
  lemma {:induction false} HalfStepDecays(diff: int, random: nat)
    ensures Towards(0, HalfStep(diff, random), diff)
    ensures Abs(diff - HalfStep(diff, random)) <= Remainder(Abs(diff))
  {
    if diff < 0 {
      RoughlyOdd(diff, random);
      RoughlyBounds(-diff, random);
    } else {
      RoughlyBounds(diff, random);
    }
  }

  /** The least that is left of a distance after one half-life: smoothing does not jump. */
  function HalfKept(v: nat): nat { v - 5 * v / 8 }

  function HalvesKept(v: nat, halfLives: nat): nat {
    if halfLives == 0 then v else HalfKept(HalvesKept(v, halfLives - 1))
  }

  lemma {:induction false} HalfStepKeeps(diff: int, random: nat)
    ensures Abs(diff - HalfStep(diff, random)) >= HalfKept(Abs(diff))
  {
    if diff < 0 {
      RoughlyOdd(diff, random);
      RoughlyBounds(-diff, random);
    } else {
      RoughlyBounds(diff, random);
    }
  }

  lemma {:induction false} HalfKeptMonotone(v: nat, w: nat)
    requires v <= w
    ensures HalfKept(v) <= HalfKept(w)
  {
  }

  lemma {:induction false} ScaleBounds(r: nat, k: nat, v: nat)
    requires 4 * r <= 5 * v && k <= 27146
    ensures 0 <= r * k / 0x10000 <= v
  {
    ProductBound(r, k, 27146);
    ScaledDown(r * k, v);
  }

  lemma {:induction false} ProductBound(r: nat, k: nat, l: nat)
    requires k <= l
    ensures 0 <= r * k <= r * l
  {
    assert r * (l - k) >= 0 && r * l == r * k + r * (l - k);
  }

  lemma {:induction false} ScaledDown(n: nat, v: nat)
    requires n <= v * 0x10000
    ensures 0 <= n / 0x10000 <= v
  {
  }

  lemma {:induction false} FactorBounds(halfLife: int)
    requires halfLife > 1
    ensures 0 <= TwoToTheOneOver(halfLife) - 0x10000 <= (if halfLife == 2 then 27146 else 17034)
  {
    if halfLife > 4 {
      assert 45426 / halfLife <= 45426 / 5;
    }
  }

  lemma {:induction false} RoughlyNegative(diff: int, random: nat, k: nat)
    requires diff < 0
    ensures Roughly(diff, random) * k == -(Roughly(-diff, random) * k)
  {
    var r := Roughly(-diff, random);
    assert Roughly(diff, random) == -r;
    assert (-r) * k == -(r * k);
  }

  /** A one-second step never overshoots, for half-lives of two seconds and more. */
  lemma {:induction false} SecondStepTowards(diff: int, random: nat, halfLife: int)
    requires halfLife > 1
    ensures Towards(0, SecondStep(diff, random, halfLife), diff)
  {
    var v := Abs(diff);
    var k := TwoToTheOneOver(halfLife) - 0x10000;
    FactorBounds(halfLife);
    RoughlyBounds(v, random);
    ScaleBounds(Roughly(v, random), k, v);
    if diff < 0 {
      RoughlyNegative(diff, random, k);
    }
  }

  /** The factor is the root of two of degree `halfLife` to within one; for large ones, the logarithm of two over it. */
  lemma {:induction false} FactorIsRoot(halfLife: int)
    requires halfLife > 0
    ensures
      var t := TwoToTheOneOver(halfLife);
      && (halfLife == 1 ==> t == 2 * 0x10000)
      && (halfLife == 2 ==> (t - 1) * (t - 1) < 2 * 0x1_0000_0000 < (t + 1) * (t + 1))
      && (halfLife == 3 ==> (t - 1) * (t - 1) * (t - 1) < 2 * 0x1_0000_0000_0000 < (t + 1) * (t + 1) * (t + 1))
      && (halfLife == 4 ==>
            && (t - 1) * (t - 1) * ((t - 1) * (t - 1)) < 2 * 0x1_0000_0000_0000_0000
            && 2 * 0x1_0000_0000_0000_0000 < (t + 1) * (t + 1) * ((t + 1) * (t + 1)))
      && (halfLife > 4 ==> 45426 - halfLife < halfLife * (t - 0x10000) <= 45426)
  {
    if halfLife > 4 {
      DividesBack(45426, halfLife);
    }
  }

  lemma {:induction false} DividesBack(n: nat, d: int)
    requires d > 0
    ensures n - d < d * (n / d) <= n
  {
    assert n == d * (n / d) + n % d;
  }

  /** The most that can be left of a distance after one second. */
  function SecondRemainder(v: nat, halfLife: int): nat
    requires halfLife > 1
  {
    FactorBounds(halfLife);
    LeastStepFits(v, TwoToTheOneOver(halfLife) - 0x10000);
    v - v * 3 / 4 * (TwoToTheOneOver(halfLife) - 0x10000) / 0x10000
  }

  function SecondsLeft(v: nat, seconds: nat, halfLife: int): nat
    requires halfLife > 1
  {
    if seconds == 0 then v else SecondRemainder(SecondsLeft(v, seconds - 1, halfLife), halfLife)
  }

  lemma {:induction false} LeastStepFits(v: nat, k: nat)
    requires k <= 27146
    ensures 0 <= v * 3 / 4 * k / 0x10000 <= v
  {
    ScaleBounds(v * 3 / 4, k, v);
  }

  /** A one-second step leaves at most that much of a distance. */
  lemma {:induction false} SecondStepDecays(diff: int, random: nat, halfLife: int)
    requires halfLife > 1
    ensures Abs(diff - SecondStep(diff, random, halfLife)) <= SecondRemainder(Abs(diff), halfLife)
  {
    var v := Abs(diff);
    var k := TwoToTheOneOver(halfLife) - 0x10000;
    FactorBounds(halfLife);
    RoughlyBounds(v, random);
    var r := Roughly(v, random);
    ScaleBounds(r, k, v);
    ScaledMore(v * 3 / 4, r, k);
    if diff < 0 {
      RoughlyNegative(diff, random, k);
    }
  }

  /** The least that is left of a distance after one second. */
  function SecondKept(v: nat, halfLife: int): nat
    requires halfLife > 1
  {
    FactorBounds(halfLife);
    ScaleBounds(5 * v / 4, TwoToTheOneOver(halfLife) - 0x10000, v);
    v - 5 * v / 4 * (TwoToTheOneOver(halfLife) - 0x10000) / 0x10000
  }

  function SecondsKept(v: nat, seconds: nat, halfLife: int): nat
    requires halfLife > 1
  {
    if seconds == 0 then v else SecondKept(SecondsKept(v, seconds - 1, halfLife), halfLife)
  }

  lemma {:induction false} SecondStepKeeps(diff: int, random: nat, halfLife: int)
    requires halfLife > 1
    ensures Abs(diff - SecondStep(diff, random, halfLife)) >= SecondKept(Abs(diff), halfLife)
  {
    var v := Abs(diff);
    var k := TwoToTheOneOver(halfLife) - 0x10000;
    FactorBounds(halfLife);
    RoughlyBounds(v, random);
    var r := Roughly(v, random);
    ScaleBounds(r, k, v);
    ScaledMore(r, 5 * v / 4, k);
    if diff < 0 {
      RoughlyNegative(diff, random, k);
    }
  }

  lemma {:induction false} SecondKeptMonotone(v: nat, w: nat, halfLife: int)
    requires v <= w && halfLife > 1
    ensures SecondKept(v, halfLife) <= SecondKept(w, halfLife)
    decreases w - v
  {
    if v < w {
      SecondKeptMonotone(v, w - 1, halfLife);
      FactorBounds(halfLife);
      TwoMore(5 * (w - 1) / 4, 5 * w / 4, TwoToTheOneOver(halfLife) - 0x10000);
    }
  }

  lemma {:induction false} TwoMore(a: nat, b: nat, k: nat)
    requires a <= b <= a + 2 && k <= 0x8000
    ensures b * k / 0x10000 <= a * k / 0x10000 + 1
  {
    assert b * k == a * k + (b - a) * k;
    assert b == a || (b == a + 1 && (b - a) * k == k) || (b == a + 2 && (b - a) * k == 2 * k);
  }

  lemma {:induction false} SecondsKeptMonotone(v: nat, w: nat, seconds: nat, halfLife: int)
    requires v <= w && halfLife > 1
    ensures SecondsKept(v, seconds, halfLife) <= SecondsKept(w, seconds, halfLife)
    decreases seconds
  {
    if seconds > 0 {
      SecondsKeptMonotone(v, w, seconds - 1, halfLife);
      SecondKeptMonotone(SecondsKept(v, seconds - 1, halfLife), SecondsKept(w, seconds - 1, halfLife), halfLife);
    }
  }

  lemma {:induction false} SecondsKeptAtMost(v: nat, seconds: nat, halfLife: int)
    requires halfLife > 1
    ensures SecondsKept(v, seconds, halfLife) <= v
    decreases seconds
  {
    if seconds > 0 {
      SecondsKeptAtMost(v, seconds - 1, halfLife);
      SecondKeptAtMost(SecondsKept(v, seconds - 1, halfLife), halfLife);
    }
  }

  lemma {:induction false} SecondKeptAtMost(v: nat, halfLife: int)
    requires halfLife > 1
    ensures SecondKept(v, halfLife) <= v
  {
    FactorBounds(halfLife);
    ScaleBounds(5 * v / 4, TwoToTheOneOver(halfLife) - 0x10000, v);
  }

  lemma {:induction false} HalvesKeptAtMost(v: nat, k: nat)
    ensures HalvesKept(v, k) <= v
  {
    if k > 0 {
      HalvesKeptAtMost(v, k - 1);
    }
  }

  /** The least that is left after a time: first whole half-lives, then seconds. */
  function Kept(v: nat, seconds: nat, halfLife: int): nat
    requires halfLife > 1
  {
    SecondsKept(HalvesKept(v, seconds / halfLife), seconds % halfLife, halfLife)
  }

  lemma {:induction false} ScaledMore(a: nat, b: nat, k: nat)
    requires a <= b
    ensures 0 <= a * k / 0x10000 <= b * k / 0x10000
  {
    assert b * k == a * k + (b - a) * k && (b - a) * k >= 0;
    QuotientGrows(a * k, b * k);
  }

  lemma {:induction false} QuotientGrows(a: nat, b: nat)
    requires a <= b
    ensures a / 0x10000 <= b / 0x10000
  {
  }

  /** Less is left of less. */
  lemma {:induction false} SecondRemainderMonotone(v: nat, w: nat, halfLife: int)
    requires v <= w && halfLife > 1
    ensures SecondRemainder(v, halfLife) <= SecondRemainder(w, halfLife)
    decreases w - v
  {
    if v < w {
      SecondRemainderMonotone(v, w - 1, halfLife);
      FactorBounds(halfLife);
      OneMore((w - 1) * 3 / 4, w * 3 / 4, TwoToTheOneOver(halfLife) - 0x10000);
    }
  }

  lemma {:induction false} OneMore(a: nat, b: nat, k: nat)
    requires a <= b <= a + 1 && k <= 0x10000
    ensures b * k / 0x10000 <= a * k / 0x10000 + 1
  {
    assert b * k == a * k + (b - a) * k;
    assert b == a || (b - a) * k == k;
  }

  /** With a half-life of one second a one-second step would overshoot; it is never taken. */
  lemma {:induction false} SecondStepOvershoots()
    ensures SecondStep(100, 49, 1) == 124
  {
  }

  lemma {:induction false} DecayedMonotone(v: nat, w: nat, k: nat)
    requires v <= w
    ensures Decayed(v, k) <= Decayed(w, k)
    decreases k
  {
    if k > 0 {
      assert Remainder(v) <= Remainder(w);
      DecayedMonotone(Remainder(v), Remainder(w), k - 1);
    }
  }

  lemma {:induction false} DecayedOnce(v: nat, k: nat)
    ensures Decayed(v, k + 1) == Remainder(Decayed(v, k))
    decreases k
  {
    if k > 0 {
      DecayedOnce(Remainder(v), k - 1);
    }
  }

  lemma {:induction false} NoTime(v: nat)
    ensures Decayed(v, 0) == v == HalvesKept(v, 0)
  {
  }

  /** One more half-life, between the least and the most that can be left. */
  lemma {:induction false} HalfLifeStep(diff: int, random: nat, v: nat, k: nat)
    requires HalvesKept(v, k) <= Abs(diff) <= Decayed(v, k)
    ensures Towards(0, HalfStep(diff, random), diff)
    ensures HalvesKept(v, k + 1) <= Abs(diff - HalfStep(diff, random)) <= Decayed(v, k + 1)
  {
    hide HalfStep, Decayed;
    HalfStepDecays(diff, random);
    HalfStepKeeps(diff, random);
    HalfKeptMonotone(HalvesKept(v, k), Abs(diff));
    DecayedOnce(v, k);
  }

  // ---- 32-bit arithmetic

  predicate FitsInt32(x: int) { -0x8000_0000 <= x < 0x8000_0000 }

  /**
   The product inside a one-second step fits a 32-bit int for every random number, if and
   only if the half-life is not 2 or the distance is less than 63288.
   */
  lemma {:induction false} SecondStepFitsIff(diff: int, halfLife: int)
    requires halfLife > 1 && Abs(diff) <= 0xFFFF
    ensures (forall random: nat :: FitsInt32(Roughly(diff, random) * (TwoToTheOneOver(halfLife) - 0x10000)))
       <==> (halfLife != 2 || Abs(diff) < 63288)
  {
    var k := TwoToTheOneOver(halfLife) - 0x10000;
    if halfLife != 2 || Abs(diff) < 63288 {
      forall random: nat ensures FitsInt32(Roughly(diff, random) * k) {
        ProductFits(diff, random, halfLife);
      }
    } else {
      ProductOverflows(diff);
      assert !FitsInt32(Roughly(diff, Abs(diff) / 2 - 1) * k);
    }
  }

  lemma {:induction false} ProductOverflows(diff: int)
    requires 63288 <= Abs(diff) <= 0xFFFF
    ensures !FitsInt32(Roughly(diff, Abs(diff) / 2 - 1) * (TwoToTheOneOver(2) - 0x10000))
  {
    LargestRoughly(Abs(diff));
    if diff < 0 {
      RoughlyNegative(diff, Abs(diff) / 2 - 1, 27146);
    }
  }

  lemma {:induction false} LargestRoughly(v: nat)
    requires v >= 63288
    ensures Roughly(v, v / 2 - 1) >= 79109
  {
    var h := v / 2;
    assert (h - 1) % h == h - 1;
  }

  lemma {:induction false} ProductFits(diff: int, random: nat, halfLife: int)
    requires halfLife > 1 && Abs(diff) <= 0xFFFF && (halfLife == 2 ==> Abs(diff) < 63288)
    ensures FitsInt32(Roughly(diff, random) * (TwoToTheOneOver(halfLife) - 0x10000))
  {
    var v := Abs(diff);
    var k := TwoToTheOneOver(halfLife) - 0x10000;
    FactorBounds(halfLife);
    RoughlyBounds(v, random);
    var r := Roughly(v, random);
    assert r <= if halfLife == 2 then 79108 else 81918;
    BoundedProduct(r, k, if halfLife == 2 then 79108 else 81918, if halfLife == 2 then 27146 else 17034);
    if diff < 0 {
      RoughlyNegative(diff, random, k);
    }
  }

  lemma {:induction false} BoundedProduct(a: nat, b: nat, c: nat, d: nat)
    requires a <= c && b <= d
    ensures 0 <= a * b <= c * d
  {
    assert a * b <= c * b <= c * d;
  }

  // ---- Routes

  method Random() returns (r: nat)
  {
    r := *;
  }

  /** The part of a route that smoothing reads and writes. */
  class Smoothed {
    var metric: int
    var smoothed: int
    var time: int

    predicate Valid()
      reads this
    {
      0 <= metric <= INFINITY && 0 <= smoothed <= INFINITY
    }

    /** Asking again at the same time would change nothing. */
    predicate UpToDate(now: int, halfLife: int)
      reads this
    {
      time == now
      && (smoothed == metric || (halfLife > 0 && metric < INFINITY && Abs(metric - smoothed) >= 4))
    }

    constructor (metric: int, smoothed: int, time: int)
      requires 0 <= metric <= INFINITY && 0 <= smoothed <= INFINITY
      ensures Valid() && this.metric == metric && this.smoothed == smoothed && this.time == time
    {
      this.metric, this.smoothed, this.time := metric, smoothed, time;
    }

    /** Brings the smoothed metric up to date and returns it. */
    method Update(now: int, halfLife: int) returns (v: int)
      requires Valid()
      modifies this`smoothed, this`time
      ensures Valid() && v == smoothed && UpToDate(now, halfLife)
      ensures Towards(old(smoothed), smoothed, metric)
      ensures old(UpToDate(now, halfLife)) ==> smoothed == old(smoothed)
      ensures halfLife <= 0 || metric >= INFINITY || old(time) > now ==> smoothed == metric
      ensures halfLife > 0 && old(time) <= now ==>
        Abs(metric - smoothed) <= Decayed(Abs(metric - old(smoothed)), (now - old(time)) / halfLife)
      ensures halfLife > 1 && old(time) <= now ==>
        Abs(metric - smoothed) <= Left(Abs(metric - old(smoothed)), now - old(time), halfLife)
      ensures halfLife > 1 && metric < INFINITY && old(time) <= now ==>
        var least := Kept(Abs(metric - old(smoothed)), now - old(time), halfLife);
        least >= 4 ==> Abs(metric - smoothed) >= least
    {
      hide Decayed, SecondsLeft, SecondsKept, HalvesKept, Left, Kept;
      ghost var v0 := Abs(metric - smoothed);
      if halfLife > 1 && time <= now {
        KeptAtMost(v0, now - time, halfLife);
      }
      if halfLife <= 0 || metric >= INFINITY || time > now || smoothed == metric {
        smoothed, time := metric, now;
      } else {
        ghost var before := time;
        HalfLives(now, halfLife);
        if halfLife > 1 {
          WholeAndRest(now - before, now - time, halfLife);
          RestOfTime(v0, Abs(metric - smoothed), now - before, halfLife);
        }
        Seconds(now, halfLife);
        if -4 < metric - smoothed < 4 {
          smoothed := metric;
        }
      }
      return smoothed;
    }

    method HalfLives(now: int, halfLife: int)
      requires Valid() && halfLife > 0 && time <= now
      modifies this`smoothed, this`time
      ensures Valid() && Towards(old(smoothed), smoothed, metric)
      ensures now - halfLife < time <= now && old(time) <= time
      ensures now - time == (now - old(time)) % halfLife
      ensures old(time) == now ==> smoothed == old(smoothed)
      ensures Abs(metric - smoothed) <= Decayed(Abs(metric - old(smoothed)), (now - old(time)) / halfLife)
      ensures Abs(metric - smoothed) >= HalvesKept(Abs(metric - old(smoothed)), (now - old(time)) / halfLife)
    {
      hide HalfStep, Decayed, HalvesKept;
      ghost var v0, k := Abs(metric - smoothed), 0;
      NoTime(v0);
      while time <= now - halfLife
        invariant Valid() && Towards(old(smoothed), smoothed, metric) && time <= now
        invariant k >= 0 && time == old(time) + k * halfLife && old(time) <= time
        invariant old(time) == now ==> smoothed == old(smoothed)
        invariant Abs(metric - smoothed) <= Decayed(v0, k)
        invariant Abs(metric - smoothed) >= HalvesKept(v0, k)
        decreases now - time
      {
        var diff := metric - smoothed;
        var r := Random();
        HalfLifeStep(diff, r, v0, k);
        smoothed := smoothed + HalfStep(diff, r);
        assert time + halfLife == old(time) + (k + 1) * halfLife;
        time, k := time + halfLife, k + 1;
      }
      Quotient(now - old(time), halfLife, k);
      DividesBack(now - old(time), halfLife);
    }

    method Seconds(now: int, halfLife: int)
      requires Valid() && halfLife > 0 && now - halfLife < time <= now
      modifies this`smoothed, this`time
      ensures Valid() && Towards(old(smoothed), smoothed, metric) && time == now
      ensures old(time) == now ==> smoothed == old(smoothed)
      ensures halfLife > 1 ==>
        Abs(metric - smoothed) <= SecondsLeft(Abs(metric - old(smoothed)), now - old(time), halfLife)
      ensures halfLife > 1 ==>
        Abs(metric - smoothed) >= SecondsKept(Abs(metric - old(smoothed)), now - old(time), halfLife)
    {
      ghost var v0 := Abs(metric - smoothed);
      while time < now
        invariant Valid() && Towards(old(smoothed), smoothed, metric) && now - halfLife < time <= now
        invariant old(time) == now ==> smoothed == old(smoothed)
        invariant old(time) <= time && (halfLife > 1 ==>
                    Abs(metric - smoothed) <= SecondsLeft(v0, time - old(time), halfLife))
        invariant halfLife > 1 ==> Abs(metric - smoothed) >= SecondsKept(v0, time - old(time), halfLife)
      {
        var diff := metric - smoothed;
        var r := Random();
        SecondStepTowards(diff, r, halfLife);
        SecondStepDecays(diff, r, halfLife);
        SecondStepKeeps(diff, r, halfLife);
        SecondKeptMonotone(SecondsKept(v0, time - old(time), halfLife), Abs(diff), halfLife);
        SecondRemainderMonotone(Abs(diff), SecondsLeft(v0, time - old(time), halfLife), halfLife);
        smoothed := smoothed + SecondStep(diff, r, halfLife);
        time := time + 1;
      }
    }
  }

  /** The most that is left after a time: first whole half-lives, then seconds. */
  function Left(v: nat, seconds: nat, halfLife: int): nat
    requires halfLife > 1
  {
    SecondsLeft(Decayed(v, seconds / halfLife), seconds % halfLife, halfLife)
  }

  lemma {:induction false} SecondsLeftMonotone(v: nat, w: nat, seconds: nat, halfLife: int)
    requires v <= w && halfLife > 1
    ensures SecondsLeft(v, seconds, halfLife) <= SecondsLeft(w, seconds, halfLife)
    decreases seconds
  {
    if seconds > 0 {
      SecondsLeftMonotone(v, w, seconds - 1, halfLife);
      SecondRemainderMonotone(SecondsLeft(v, seconds - 1, halfLife), SecondsLeft(w, seconds - 1, halfLife), halfLife);
    }
  }

  /** What is left between the two bounds after the whole half-lives stays between them in the rest of the time. */
  lemma {:induction false} RestOfTime(v: nat, w: nat, seconds: nat, halfLife: int)
    requires halfLife > 1
    requires HalvesKept(v, seconds / halfLife) <= w <= Decayed(v, seconds / halfLife)
    ensures SecondsLeft(w, seconds % halfLife, halfLife) <= Left(v, seconds, halfLife)
    ensures SecondsKept(w, seconds % halfLife, halfLife) >= Kept(v, seconds, halfLife)
  {
    SecondsLeftMonotone(w, Decayed(v, seconds / halfLife), seconds % halfLife, halfLife);
    SecondsKeptMonotone(HalvesKept(v, seconds / halfLife), w, seconds % halfLife, halfLife);
  }

  lemma {:induction false} KeptAtMost(v: nat, seconds: nat, halfLife: int)
    requires halfLife > 1
    ensures Kept(v, seconds, halfLife) <= v
  {
    HalvesKeptAtMost(v, seconds / halfLife);
    SecondsKeptAtMost(HalvesKept(v, seconds / halfLife), seconds % halfLife, halfLife);
  }

  lemma {:induction false} WholeAndRest(n: nat, r: nat, d: int)
    requires d > 0 && r == n % d
    ensures n / d >= 0 && n == n / d * d + r
  {
    assert n == d * (n / d) + n % d;
  }

  lemma {:induction false} Quotient(n: int, d: int, k: int)
    requires d > 0 && k * d <= n < k * d + d
    ensures n / d == k
  {
    var e := n / d - k;
    assert e * d == (n / d) * d - k * d;
    MultipleBounds(e, d);
  }

  lemma {:induction false} MultipleBounds(e: int, d: int)
    requires d > 0
    ensures e >= 1 ==> e * d >= d
    ensures e <= -1 ==> e * d <= -d
  {
  }

  /**
   find_best_route: although every comparison updates both routes, the route chosen is the first of those acceptable
   with the least smoothed metric, all of them brought up to date unless it is the only one.
   */
  method FindBest(routes: seq<Smoothed>, acceptable: seq<bool>, now: int, halfLife: int) returns (best: Option<nat>)
    requires |acceptable| == |routes| && forall i, j | 0 <= i < j < |routes| :: routes[i] != routes[j]
    requires forall r | r in routes :: r.Valid()
    modifies routes
    ensures forall r | r in routes :: r.Valid()
    ensures best.None? ==> forall i | 0 <= i < |routes| :: !acceptable[i]
    ensures best.Some? ==> best.value < |routes| && IsFirstLeast(routes, acceptable, best.value, |routes|)
    ensures best.Some? ==> forall i | 0 <= i < |routes| && acceptable[i] ::
              routes[i].UpToDate(now, halfLife) || forall j | 0 <= j < |routes| && acceptable[j] :: j == i
  {
    var i := 0;
    while i < |routes| && !acceptable[i]
      invariant i <= |routes| && forall j | 0 <= j < i :: !acceptable[j]
    {
      i := i + 1;
    }
    if i == |routes| {
      return None;
    }
    var b := BestAfter(routes, acceptable, i, now, halfLife);
    best := Some(b);
  }

  /** Among the first `n` routes, `best` is acceptable, no acceptable one is less, and none before it is equal. */
  ghost predicate IsFirstLeast(routes: seq<Smoothed>, acceptable: seq<bool>, best: nat, n: nat)
    requires |acceptable| == |routes| && best < n <= |routes|
    reads routes
  {
    && acceptable[best]
    && (forall j | 0 <= j < n && acceptable[j] :: routes[best].smoothed <= routes[j].smoothed)
    && (forall j | 0 <= j < best && acceptable[j] :: routes[best].smoothed < routes[j].smoothed)
  }

  /** All acceptable routes among the first `n` are up to date, unless there is just the first. */
  ghost predicate Compared(routes: seq<Smoothed>, acceptable: seq<bool>, first: nat, n: nat, now: int, halfLife: int)
    requires |acceptable| == |routes| && n <= |routes|
    reads routes
  {
    || (forall j | 0 <= j < n && acceptable[j] :: j == first)
    || (forall j | 0 <= j < n && acceptable[j] :: routes[j].UpToDate(now, halfLife))
  }

  method BestAfter(routes: seq<Smoothed>, acceptable: seq<bool>, first: nat, now: int, halfLife: int)
      returns (best: nat)
    requires |acceptable| == |routes| && forall i, j | 0 <= i < j < |routes| :: routes[i] != routes[j]
    requires forall r | r in routes :: r.Valid()
    requires first < |routes| && acceptable[first] && forall j | 0 <= j < first :: !acceptable[j]
    modifies routes
    ensures forall r | r in routes :: r.Valid()
    ensures best < |routes| && IsFirstLeast(routes, acceptable, best, |routes|)
    ensures Compared(routes, acceptable, first, |routes|, now, halfLife)
  {
    hide Towards, Decayed, Abs;
    best := first;
    var i := first + 1;
    ghost var compared := false;
    while i < |routes|
      invariant best < i <= |routes| && forall r | r in routes :: r.Valid()
      invariant IsFirstLeast(routes, acceptable, best, i)
      invariant compared ==> forall j | 0 <= j < i && acceptable[j] :: routes[j].UpToDate(now, halfLife)
      invariant !compared ==> best == first && forall j | 0 <= j < i && acceptable[j] :: j == first
    {
      if acceptable[i] {
        best := Better(routes, acceptable, first, best, i, now, halfLife, compared);
        compared := true;
      }
      i := i + 1;
    }
  }

  /** Compares the best so far with route `i`. */
  method Better(routes: seq<Smoothed>, acceptable: seq<bool>, first: nat, best: nat, i: nat, now: int, halfLife: int,
                ghost compared: bool) returns (next: nat)
    requires |acceptable| == |routes| && forall j, k | 0 <= j < k < |routes| :: routes[j] != routes[k]
    requires forall r | r in routes :: r.Valid()
    requires best < i < |routes| && acceptable[i] && IsFirstLeast(routes, acceptable, best, i)
    requires compared ==> forall j | 0 <= j < i && acceptable[j] :: routes[j].UpToDate(now, halfLife)
    requires !compared ==> best == first && forall j | 0 <= j < i && acceptable[j] :: j == first
    modifies routes[i], routes[best]
    ensures forall r | r in routes :: r.Valid()
    ensures next <= i && IsFirstLeast(routes, acceptable, next, i + 1)
    ensures forall j | 0 <= j < i + 1 && acceptable[j] :: routes[j].UpToDate(now, halfLife)
  {
    hide Towards, Decayed, Abs;
    var a := routes[i].Update(now, halfLife);
    var b := routes[best].Update(now, halfLife);
    next := if a < b then i else best;
  }
}
