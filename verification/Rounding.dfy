/** Rounding to the nearest whole number, halves to even, over exact reals. */
module Rounding {
  function Round(x: real): int {
    var low := x.Floor;
    var rest := x - low as real;
    if rest < 0.5 then low
    else if rest > 0.5 then low + 1
    else if low % 2 == 0 then low else low + 1
  }

  /** The values that round to at least `k`: those above `k - 1/2`, and that value itself
      when `k` is even. */
  lemma RoundAtLeast(x: real, k: int)
    ensures Round(x) >= k <==> x > k as real - 0.5 || (x == k as real - 0.5 && k % 2 == 0)
  {
    var low := x.Floor;
    if low >= k {
      assert x >= k as real;
    } else if low <= k - 2 {
      assert x < k as real - 1.0;
    }
  }

  lemma RoundMonotone(x: real, y: real)
    requires x <= y
    ensures Round(x) <= Round(y)
  {
    RoundAtLeast(x, Round(x));
    RoundAtLeast(y, Round(x));
  }

  lemma RoundWhole(n: int)
    ensures Round(n as real) == n
  {
    assert (n as real).Floor == n;
  }

  lemma RoundNear(x: real)
    ensures -0.5 <= Round(x) as real - x <= 0.5
  {}

  /** Rounding to `1 / scale`. */
  function Scaled(x: real, scale: int): real { x * scale as real }

  function RoundTo(x: real, scale: int): real
    requires scale > 0
  {
    Round(Scaled(x, scale)) as real / scale as real
  }

  predicate MultipleOf(x: real, scale: int)
    requires scale > 0
  {
    Scaled(x, scale) == Scaled(x, scale).Floor as real
  }

  lemma ScaleOrder(x: real, y: real, s: real)
    requires s > 0.0
    ensures x <= y <==> x * s <= y * s
  {
    if x < y { assert (y - x) * s > 0.0; } else if y < x { assert (x - y) * s > 0.0; }
  }

  lemma ScaledOrder(x: real, y: real, scale: int)
    requires scale > 0
    ensures x <= y <==> Scaled(x, scale) <= Scaled(y, scale)
  {
    ScaleOrder(x, y, scale as real);
  }

  lemma ScaledRounded(x: real, scale: int)
    requires scale > 0
    ensures Scaled(RoundTo(x, scale), scale) == Round(Scaled(x, scale)) as real
  {
    hide Round;
    var r, s := Round(Scaled(x, scale)) as real, scale as real;
    assert r / s * s == r;
  }

  lemma WholeStays(x: real)
    requires x == x.Floor as real
    ensures Round(x) as real == x
  {
    RoundWhole(x.Floor);
  }

  /** Rounding never crosses a value that is itself a multiple of the unit. */
  lemma RoundToRespects(x: real, m: real, scale: int)
    requires scale > 0 && MultipleOf(m, scale)
    ensures x <= m ==> RoundTo(x, scale) <= m
    ensures m <= x ==> m <= RoundTo(x, scale)
  {
    hide Scaled, Round, RoundTo;
    var xs, ms := Scaled(x, scale), Scaled(m, scale);
    ScaledOrder(x, m, scale);
    ScaledOrder(m, x, scale);
    WholeStays(ms);
    if xs <= ms { RoundMonotone(xs, ms); }
    if ms <= xs { RoundMonotone(ms, xs); }
    ScaledRounded(x, scale);
    ScaledOrder(RoundTo(x, scale), m, scale);
    ScaledOrder(m, RoundTo(x, scale), scale);
  }
}
