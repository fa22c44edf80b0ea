/** The exponential speed curve of the thermostat, over exact reals.

    `pow` stands for the library's power function. Nothing is assumed of it except, at
    the point where it is used, the equation that defines a rational power: the value of
    e to the p/q is the positive number whose q-th power is e to the p. */
module SpeedCurve {
  import opened Prelude
  import opened Rounding

  type Power = (real, real) -> real

  function ComputeSpeed(current: real, target: real, gradient: real, exponent: real, pow: Power): (speed: nat)
    requires gradient != 0.0
    ensures speed <= 100 && speed % 10 == 0
  {
    var diff := current - target;
    if diff <= 0.0 then 0 else
    var unitsAbove := diff / gradient;
    var raw := 10.0 * pow(exponent, unitsAbove - 1.0);
    var capped := if raw > 100.0 then 100.0 else raw;
    var speed := Round(capped / 10.0) * 10;
    Max(0, Min(speed, 100))
  }

  // ----- Powers -----

  function Pow(b: real, n: nat): real {
    if n == 0 then 1.0 else b * Pow(b, n - 1)
  }

  function PowInt(b: int, n: nat): int {
    if n == 0 then 1 else b * PowInt(b, n - 1)
  }

  lemma {:induction false} PowIntIsPow(b: int, n: nat)
    ensures Pow(b as real, n) == PowInt(b, n) as real
  {
    if n > 0 {
      PowIntIsPow(b, n - 1);
      assert (b * PowInt(b, n - 1)) as real == b as real * PowInt(b, n - 1) as real;
    }
  }

  lemma {:induction false} PowPositive(b: real, n: nat)
    requires b > 0.0
    ensures Pow(b, n) > 0.0
  {
    if n > 0 { PowPositive(b, n - 1); }
  }

  lemma Times(a: real, b: real, c: real, d: real)
    requires 0.0 <= a <= b && 0.0 < c <= d
    ensures a * c <= b * d && (a < b ==> a * c < b * d)
  {}

  lemma {:induction false} PowMonotone(a: real, b: real, n: nat)
    requires 0.0 < a <= b
    ensures Pow(a, n) <= Pow(b, n)
    ensures a < b && n > 0 ==> Pow(a, n) < Pow(b, n)
  {
    if n > 0 {
      PowMonotone(a, b, n - 1);
      PowPositive(a, n - 1);
      Times(a, b, Pow(a, n - 1), Pow(b, n - 1));
    }
  }

  /** Comparing two positive numbers is comparing their n-th powers. */
  lemma PowCompare(a: real, b: real, n: nat)
    requires a > 0.0 && b > 0.0 && n > 0
    ensures a <= b <==> Pow(a, n) <= Pow(b, n)
    ensures a < b <==> Pow(a, n) < Pow(b, n)
    ensures a == b <==> Pow(a, n) == Pow(b, n)
  {
    if a <= b { PowMonotone(a, b, n); } else { PowMonotone(b, a, n); }
  }

  lemma {:induction false} PowAdd(b: real, m: nat, n: nat)
    ensures Pow(b, m + n) == Pow(b, m) * Pow(b, n)
  {
    if m > 0 { PowAdd(b, m - 1, n); }
  }

  lemma {:induction false} PowPow(b: real, m: nat, n: nat)
    ensures Pow(Pow(b, m), n) == Pow(b, m * n)
  {
    if n > 0 {
      PowPow(b, m, n - 1);
      PowAdd(b, m, m * (n - 1));
      assert m + m * (n - 1) == m * n;
    }
  }

  lemma {:induction false} PowGrows(b: real, m: nat, n: nat)
    requires b >= 1.0 && m <= n
    ensures Pow(b, m) <= Pow(b, n)
    decreases n
  {
    if m < n {
      PowGrows(b, m, n - 1);
      PowPositive(b, n - 1);
      Times(1.0, b, Pow(b, n - 1), Pow(b, n - 1));
    }
  }

  lemma {:induction false} PowOneMore(b: real, n: nat)
    requires b > 1.0 && n > 0
    ensures Pow(b, n) > 1.0
  {
    PowMonotone(1.0, b, n);
    PowOfOne(n);
  }

  lemma {:induction false} PowOfOne(n: nat)
    ensures Pow(1.0, n) == 1.0
  {
    if n > 0 { PowOfOne(n - 1); }
  }

  // ----- Rational powers -----

  /** `y` is e to the p/q. */
  ghost predicate IsPower(y: real, e: real, p: nat, q: nat) {
    y > 0.0 && q > 0 && Pow(y, q) == Pow(e, p)
  }

  /** Rational powers of a base of at least 1 are ordered as their exponents, however the
      fractions are written. */
  lemma PowersOrdered(y1: real, p1: nat, q1: nat, y2: real, p2: nat, q2: nat, e: real)
    requires IsPower(y1, e, p1, q1) && IsPower(y2, e, p2, q2) && e >= 1.0
    requires p1 * q2 <= p2 * q1
    ensures y1 <= y2
  {
    PowPow(y1, q1, q2);
    PowPow(e, p1, q2);
    PowPow(y2, q2, q1);
    PowPow(e, p2, q1);
    PowGrows(e, p1 * q2, p2 * q1);
    assert q1 * q2 == q2 * q1 && q1 * q2 > 0;
    PowCompare(y1, y2, q1 * q2);
  }

  // ----- The curve at a rational distance above the target -----

  /** The exponent times the value the curve asks of `pow`. */
  function Lifted(current: real, target: real, gradient: real, e: real, pow: Power): real
    requires gradient != 0.0
  {
    e * pow(e, (current - target) / gradient - 1.0)
  }

  /** The reading stands p/q gradients above the target, and there `pow` is the power. */
  ghost predicate At(current: real, target: real, gradient: real, e: real, pow: Power, p: nat, q: nat) {
    && gradient > 0.0 && e > 0.0 && p > 0 && q > 0
    && (current - target) * q as real == p as real * gradient
    && IsPower(Lifted(current, target, gradient, e, pow), e, p, q)
  }

  lemma Sign(a: real, b: real)
    requires b > 0.0
    ensures a > 0.0 <==> a * b > 0.0
  {}

  lemma AtIsAbove(current: real, target: real, gradient: real, e: real, pow: Power, p: nat, q: nat)
    requires At(current, target, gradient, e, pow, p, q)
    ensures current > target
  {
    Sign(p as real, gradient);
    Sign(current - target, q as real);
  }

  /** Speeds are whole tens up to 100, and reach step `k` as the uncapped power rounds. */
  lemma SpeedReaches(current: real, target: real, gradient: real, e: real, pow: Power, k: int)
    requires gradient > 0.0 && current > target && 1 <= k <= 10
    ensures var v := pow(e, (current - target) / gradient - 1.0);
            var s := ComputeSpeed(current, target, gradient, e, pow);
            && s % 10 == 0 && 0 <= s <= 100
            && (s >= 10 * k <==> Round(v) >= k)
  {
    var v := pow(e, (current - target) / gradient - 1.0);
    var raw := 10.0 * v;
    if raw > 100.0 {
      RoundWhole(10);
      RoundMonotone(10.0, v);
    } else {
      RoundMonotone(v, 10.0);
      RoundWhole(10);
      assert raw / 10.0 == v;
    }
  }

  /** Step `k` of the curve with base 2 is reached: (2k-1)^q < 2^p. */
  predicate Reached(k: int, p: nat, q: nat) {
    PowInt(2 * k - 1, q) < PowInt(2, p)
  }

  function StepsReached(p: nat, q: nat, upTo: nat): (n: nat)
    ensures n <= upTo
  {
    if upTo == 0 then 0 else StepsReached(p, q, upTo - 1) + if Reached(upTo, p, q) then 1 else 0
  }

  lemma {:induction false} OddPowers(b: int, n: nat)
    requires b % 2 == 1
    ensures PowInt(b, n) % 2 == 1
  {
    if n > 0 {
      OddPowers(b, n - 1);
      OddTimesOdd(b, PowInt(b, n - 1));
    }
  }

  lemma OddTimesOdd(a: int, b: int)
    requires a % 2 == 1 && b % 2 == 1
    ensures a * b % 2 == 1
  {
    var i, j := a / 2, b / 2;
    assert a * b == 2 * (2 * i * j + i + j) + 1;
  }

  /** No half-way ties: an odd power is never a positive power of two. */
  lemma NoTie(k: int, p: nat, q: nat)
    requires p > 0
    ensures PowInt(2 * k - 1, q) != PowInt(2, p)
  {
    OddPowers(2 * k - 1, q);
    assert PowInt(2, p) == 2 * PowInt(2, p - 1);
  }

  /** The meaning of the curve for exponent 2, step by step. */
  lemma SpeedStep(current: real, target: real, gradient: real, pow: Power, p: nat, q: nat, k: int)
    requires At(current, target, gradient, 2.0, pow, p, q) && 1 <= k <= 10
    ensures ComputeSpeed(current, target, gradient, 2.0, pow) >= 10 * k <==> Reached(k, p, q)
  {
    AtIsAbove(current, target, gradient, 2.0, pow, p, q);
    SpeedReaches(current, target, gradient, 2.0, pow, k);
    var v := pow(2.0, (current - target) / gradient - 1.0);
    var y, odd := 2.0 * v, (2 * k - 1) as real;
    RoundAtLeast(v, k);
    PowCompare(odd, y, q);
    PowIntIsPow(2 * k - 1, q);
    PowIntIsPow(2, p);
    NoTie(k, p, q);
  }

  lemma {:induction false} StepsReachedIs(p: nat, q: nat, upTo: nat, n: nat)
    requires n <= upTo && forall k :: 1 <= k <= upTo ==> (Reached(k, p, q) <==> k <= n)
    ensures StepsReached(p, q, upTo) == n
  {
    if upTo > 0 {
      assert Reached(upTo, p, q) <==> upTo <= n;
      StepsReachedIs(p, q, upTo - 1, Min(n, upTo - 1));
    }
  }

  /** For exponent 2 the speed is ten times the number of steps k in 1..10 with
      (2k-1)^q < 2^p. */
  lemma SpeedCountsSteps(current: real, target: real, gradient: real, pow: Power, p: nat, q: nat)
    requires At(current, target, gradient, 2.0, pow, p, q)
    ensures ComputeSpeed(current, target, gradient, 2.0, pow) == 10 * StepsReached(p, q, 10)
  {
    var s := ComputeSpeed(current, target, gradient, 2.0, pow);
    AtIsAbove(current, target, gradient, 2.0, pow, p, q);
    SpeedReaches(current, target, gradient, 2.0, pow, 1);
    var n := s / 10;
    forall k | 1 <= k <= 10
      ensures Reached(k, p, q) <==> k <= n
    {
      SpeedStep(current, target, gradient, pow, p, q, k);
    }
    StepsReachedIs(p, q, 10, n);
  }

  /** At whole gradients above the target the speed doubles from 10 until it caps. */
  lemma WholeGradients(current: real, target: real, gradient: real, pow: Power, n: nat)
    requires At(current, target, gradient, 2.0, pow, n, 1)
    ensures ComputeSpeed(current, target, gradient, 2.0, pow) == Min(100, 10 * PowInt(2, n - 1))
  {
    SpeedCountsSteps(current, target, gradient, pow, n, 1);
    var half := PowInt(2, n - 1);
    assert PowInt(2, n) == 2 * half;
    PowIntIsPow(2, n - 1);
    PowPositive(2.0, n - 1);
    forall k | 1 <= k <= 10
      ensures Reached(k, n, 1) <==> k <= Min(10, half)
    {
      assert PowInt(2 * k - 1, 1) == 2 * k - 1;
    }
    StepsReachedIs(n, 1, 10, Min(10, half));
  }

  /** The curve never slows down as the reading rises over the target, in whatever terms
      the two distances are written; this covers a rising reading, a falling target and
      two spellings of one fraction, for every exponent of at least 1. */
  lemma SpeedMonotone(c1: real, t1: real, p1: nat, q1: nat, c2: real, t2: real, p2: nat, q2: nat,
                      gradient: real, e: real, pow: Power)
    requires gradient > 0.0 && e >= 1.0 && c1 - t1 <= c2 - t2
    requires c1 > t1 ==> At(c1, t1, gradient, e, pow, p1, q1)
    requires c2 > t2 ==> At(c2, t2, gradient, e, pow, p2, q2)
    ensures ComputeSpeed(c1, t1, gradient, e, pow) <= ComputeSpeed(c2, t2, gradient, e, pow)
  {
    if c1 <= t1 {
      if c2 > t2 { SpeedReaches(c2, t2, gradient, e, pow, 1); }
    } else {
      var v1 := pow(e, (c1 - t1) / gradient - 1.0);
      var v2 := pow(e, (c2 - t2) / gradient - 1.0);
      FractionsOrdered(c1 - t1, p1, q1, c2 - t2, p2, q2, gradient);
      PowersOrdered(Lifted(c1, t1, gradient, e, pow), p1, q1, Lifted(c2, t2, gradient, e, pow), p2, q2, e);
      ScaleOrder(v1, v2, e);
      RoundMonotone(v1, v2);
      SpeedReaches(c1, t1, gradient, e, pow, 1);
      SpeedReaches(c2, t2, gradient, e, pow, 1);
      var s := ComputeSpeed(c1, t1, gradient, e, pow) / 10;
      if s >= 1 {
        SpeedReaches(c1, t1, gradient, e, pow, s);
        SpeedReaches(c2, t2, gradient, e, pow, s);
      }
    }
  }

  lemma FractionsOrdered(d1: real, p1: nat, q1: nat, d2: real, p2: nat, q2: nat, g: real)
    requires g > 0.0 && q1 > 0 && q2 > 0 && d1 <= d2
    requires d1 * q1 as real == p1 as real * g && d2 * q2 as real == p2 as real * g
    ensures p1 * q2 <= p2 * q1
  {
    var r1, r2 := q1 as real, q2 as real;
    var a, b := p1 as real * r2, p2 as real * r1;
    assert a * g == d1 * r1 * r2 && b * g == d2 * r2 * r1;
    assert d1 * (r1 * r2) <= d2 * (r1 * r2);
    ScaleOrder(a, b, g);
    assert (p1 * q2) as real == a && (p2 * q1) as real == b;
  }

  // ----- When the fan is off -----

  /** With base `e`, p/q gradients above the target is too little for the first step. */
  predicate TooClose(e: real, p: nat, q: nat) { Pow(e, p) <= Pow(e / 2.0, q) }

  lemma HalfOfBase(v: real, e: real)
    requires e > 0.0
    ensures v <= 0.5 <==> e * v <= e / 2.0
  {
    ScaleOrder(v, 0.5, e);
  }

  lemma LiftedIs(current: real, target: real, gradient: real, e: real, pow: Power)
    requires gradient != 0.0
    ensures Lifted(current, target, gradient, e, pow) == e * pow(e, (current - target) / gradient - 1.0)
  {}

  /** Above the target the fan is off exactly when the power is at most half its base, which
      is a comparison of whole powers; for every exponent. */
  lemma OffExactly(current: real, target: real, gradient: real, e: real, pow: Power, p: nat, q: nat)
    requires At(current, target, gradient, e, pow, p, q)
    ensures ComputeSpeed(current, target, gradient, e, pow) == 0 <==> TooClose(e, p, q)
  {
    hide ComputeSpeed, Round, Lifted;
    var v := pow(e, (current - target) / gradient - 1.0);
    var y := Lifted(current, target, gradient, e, pow);
    AtIsAbove(current, target, gradient, e, pow, p, q);
    SpeedReaches(current, target, gradient, e, pow, 1);
    RoundAtLeast(v, 1);
    HalfOfBase(v, e);
    LiftedIs(current, target, gradient, e, pow);
    PowCompare(y, e / 2.0, q);
    var s := ComputeSpeed(current, target, gradient, e, pow);
    assert s == 0 <==> s < 10;
    assert s < 10 <==> Round(v) < 1;
    assert Pow(y, q) == Pow(e, p);
  }

  /** Bernoulli's inequality. */
  lemma {:induction false} PowAtLeast(x: real, n: nat)
    requires x >= 0.0
    ensures Pow(1.0 + x, n) >= 1.0 + n as real * x
  {
    if n > 0 {
      PowAtLeast(x, n - 1);
      var m, b := (n - 1) as real, Pow(1.0 + x, n - 1);
      Times(1.0 + x, 1.0 + x, 1.0 + m * x, b);
      assert (1.0 + x) * (1.0 + m * x) == 1.0 + (m + 1.0) * x + m * (x * x);
      assert m * (x * x) >= 0.0;
    }
  }

  /** Powers of a base above 1 exceed every bound. */
  lemma PowUnbounded(b: real, bound: real) returns (n: nat)
    requires b > 1.0 && bound > 0.0
    ensures n > 0 && Pow(b, n) >= bound
  {
    var x := b - 1.0;
    n := (bound / x).Floor + 1;
    assert n as real >= bound / x;
    ScaleOrder(bound / x, n as real, x);
    PowAtLeast(x, n);
  }

  lemma {:induction false} PowInverse(b: real, c: real, n: nat)
    requires b > 0.0 && b * c == 1.0
    ensures Pow(b, n) * Pow(c, n) == 1.0
  {
    if n > 0 {
      PowInverse(b, c, n - 1);
      var x, y := Pow(b, n - 1), Pow(c, n - 1);
      assert (b * x) * (c * y) == (b * c) * (x * y);
    }
  }

  /** An exponent outside 1 to 2 leaves the fan off at some distance above the target: far
      above it when the exponent is below 1, close to it when it is above 2. */
  lemma SomewhereTooClose(e: real) returns (p: nat, q: nat)
    requires 0.0 < e < 1.0 || e > 2.0
    ensures p > 0 && q > 0 && TooClose(e, p, q)
    ensures if e < 1.0 then q == 1 else p == 1
  {
    if e < 1.0 {
      var n := PowUnbounded(1.0 / e, 2.0);
      PowInverse(e, 1.0 / e, n);
      PowPositive(e, n);
      var x, y := Pow(e, n), Pow(1.0 / e, n);
      Times(x, x, 2.0, y);
      p, q := n + 1, 1;
      ScaleOrder(x, 0.5, e);
      assert Pow(e, p) == e * x && Pow(e / 2.0, 1) == e / 2.0 * Pow(e / 2.0, 0);
    } else {
      p := 1;
      q := PowUnbounded(e / 2.0, e);
      assert Pow(e, 1) == e * Pow(e, 0);
    }
  }

  lemma NowhereTooClose(e: real, p: nat, q: nat)
    requires 1.0 <= e <= 2.0 && p > 0 && q > 0
    ensures !TooClose(e, p, q)
  {
    PowOfOne(q);
    PowOfOne(p);
    PowMonotone(e / 2.0, 1.0, q);
    if e > 1.0 { PowOneMore(e, p); }
  }

  /** The promise that the fan is off only at or below the target holds at every distance
      exactly for exponents from 1 to 2. */
  lemma OffOnlyAtTargetExactly(e: real)
    requires e > 0.0
    ensures (forall p: nat, q: nat | p > 0 && q > 0 :: !TooClose(e, p, q)) <==> 1.0 <= e <= 2.0
  {
    hide TooClose;
    if 1.0 <= e <= 2.0 {
      forall p: nat, q: nat | p > 0 && q > 0 ensures !TooClose(e, p, q) { NowhereTooClose(e, p, q); }
    } else {
      var p, q := SomewhereTooClose(e);
    }
  }

  /** The fan is off exactly at or below the target, for exponents from 1 to 2. */
  lemma OffExactlyAtTarget(current: real, target: real, gradient: real, e: real, pow: Power, p: nat, q: nat)
    requires gradient > 0.0 && 1.0 <= e <= 2.0
    requires current > target ==> At(current, target, gradient, e, pow, p, q)
    ensures ComputeSpeed(current, target, gradient, e, pow) == 0 <==> current <= target
  {
    if current > target {
      OffExactly(current, target, gradient, e, pow, p, q);
      NowhereTooClose(e, p, q);
    }
  }

  /** An exponent of zero or below leaves the fan off two gradients above the target, where the
      power asked for is the first. */
  lemma OffWithoutPositive(current: real, target: real, gradient: real, e: real, pow: Power)
    requires gradient > 0.0 && current - target == 2.0 * gradient && e <= 0.0 && pow(e, 1.0) == e
    ensures ComputeSpeed(current, target, gradient, e, pow) == 0
  {
    TwoGradients(gradient);
    SpeedReaches(current, target, gradient, e, pow, 1);
    RoundAtLeast(e, 1);
    hide ComputeSpeed, Round;
  }

  lemma TwoGradients(gradient: real)
    requires gradient > 0.0
    ensures 2.0 * gradient / gradient - 1.0 == 1.0
  {}

  /** Above 2: with exponent 4, half a gradient above the target is a tie that rounds to
      zero, so the fan stays off. */
  lemma OffAboveTarget(pow: Power)
    requires At(72.5, 72.0, 1.0, 4.0, pow, 1, 2)
    ensures ComputeSpeed(72.5, 72.0, 1.0, 4.0, pow) == 0
  {
    assert Pow(4.0, 1) == 4.0 * Pow(4.0, 0) && Pow(4.0 / 2.0, 2) == 2.0 * Pow(2.0, 1);
    OffExactly(72.5, 72.0, 1.0, 4.0, pow, 1, 2);
  }

  /** Below 1: with exponent one half the fan is off two gradients above the target. */
  lemma OffFarAboveTarget(pow: Power)
    requires At(74.0, 72.0, 1.0, 0.5, pow, 2, 1)
    ensures ComputeSpeed(74.0, 72.0, 1.0, 0.5, pow) == 0
  {
    assert Pow(0.5, 2) == 0.5 * Pow(0.5, 1) && Pow(0.5 / 2.0, 1) == 0.25 * Pow(0.25, 0);
    OffExactly(74.0, 72.0, 1.0, 0.5, pow, 2, 1);
  }

  lemma TimesOver(n: real, g: real)
    requires g > 0.0
    ensures n * g / g == n
  {}

  lemma Less(u: real, g: real)
    ensures (u - 1.0) * g == u * g - g
  {}

  lemma SameTimes(x: real, y: real, g: real)
    requires g > 0.0 && x * g == y * g
    ensures x == y
  {
    ScaleOrder(x, y, g);
    ScaleOrder(y, x, g);
  }

  lemma OneLess(d: real, g: real)
    requires g > 0.0
    ensures (d - g) / g == d / g - 1.0
  {
    var q, u := (d - g) / g, d / g;
    assert q * g == d - g && u * g == d;
    Less(u, g);
    SameTimes(q, u - 1.0, g);
  }

  /** The whole curve, for any exponent: off at or below the target; else ten times the rounded
      value of the power at one less than the gradients above it, from 0 to 100. */
  lemma SpeedFromPower(current: real, target: real, gradient: real, exponent: real, pow: Power)
    requires gradient > 0.0
    ensures var v := pow(exponent, (current - target - gradient) / gradient);
            ComputeSpeed(current, target, gradient, exponent, pow)
            == if current <= target || Round(v) <= 0 then 0 else if v >= 10.0 then 100 else 10 * Round(v)
  {
    var units := (current - target) / gradient;
    OneLess(current - target, gradient);
    var v := pow(exponent, units - 1.0);
    assert 10.0 * v / 10.0 == v;
    RoundWhole(10);
    if v <= 10.0 { RoundMonotone(v, 10.0); } else { RoundMonotone(10.0, v); }
    hide Round;
  }

  /** Above the target by n gradients: n = 1 asks for the power zero, 2 for one, 4 for three. */
  lemma GradientsAbove(target: real, gradient: real, pow: Power)
    requires gradient > 0.0 && pow(2.0, 0.0) == 1.0 && pow(2.0, 1.0) == 2.0 && pow(2.0, 3.0) == 8.0
    ensures ComputeSpeed(target + gradient, target, gradient, 2.0, pow) == 10
    ensures ComputeSpeed(target + 2.0 * gradient, target, gradient, 2.0, pow) == 20
    ensures ComputeSpeed(target + 4.0 * gradient, target, gradient, 2.0, pow) == 80
  {
    RoundWhole(1);
    RoundWhole(2);
    RoundWhole(8);
    TimesOver(1.0, gradient);
    TimesOver(2.0, gradient);
    TimesOver(4.0, gradient);
    hide Round;
  }
}
