/**
 * Decimal rounding as the platform uses it when it reports a payment, a ratio, a
 * score or a cost: `round(x, d)`, half to even, over exact reals.
 */
module Rounding {
  import opened RealDivision

  function HalfEven(x: real): int {
    var below := x.Floor;
    var rest := x - below as real;
    if rest < 0.5 then below
    else if rest > 0.5 then below + 1
    else if below % 2 == 0 then below
    else below + 1
  }

  function Scale(digits: nat): (s: real)
    ensures s >= 1.0
  {
    if digits == 0 then 1.0 else 10.0 * Scale(digits - 1)
  }

  function RoundAt(x: real, scale: real): real
    requires scale > 0.0
  {
    HalfEven(x * scale) as real / scale
  }

  function Round(x: real, digits: nat): real {
    RoundAt(x, Scale(digits))
  }

  lemma HalfEvenMonotone(x: real, y: real)
    requires x <= y
    ensures HalfEven(x) <= HalfEven(y)
  {
    assert x.Floor <= y.Floor;
  }

  lemma RoundAtMonotone(x: real, y: real, s: real)
    requires x <= y && s > 0.0
    ensures RoundAt(x, s) <= RoundAt(y, s)
  {
    var xs, ys := x * s, y * s;
    assert (y - x) * s >= 0.0;
    assert ys - xs == (y - x) * s;
    HalfEvenMonotone(xs, ys);
    DivideMonotone(HalfEven(xs) as real, HalfEven(ys) as real, s);
  }

  /** Rounding never reverses an order: x <= y gives Round(x) <= Round(y). */
  lemma RoundMonotone(x: real, y: real, digits: nat)
    requires x <= y
    ensures Round(x, digits) <= Round(y, digits)
  {
    RoundAtMonotone(x, y, Scale(digits));
  }

  lemma RoundZero(digits: nat)
    ensures Round(0.0, digits) == 0.0
  {
    assert 0.0 * Scale(digits) == 0.0;
  }

  lemma RoundNonNegative(x: real, digits: nat)
    requires x >= 0.0
    ensures Round(x, digits) >= 0.0
  {
    RoundZero(digits);
    RoundMonotone(0.0, x, digits);
  }

  lemma HalfEvenError(y: real)
    ensures -0.5 <= HalfEven(y) as real - y <= 0.5
  {
  }

  lemma DistributeDivision(h: real, x: real, s: real)
    requires s > 0.0
    ensures (h / s - x) * s == h - x * s
  {
    var d := h / s;
    assert d * s == h;
    assert (d - x) * s == d * s - x * s;
  }

  lemma RoundAtError(x: real, s: real)
    requires s > 0.0
    ensures -0.5 <= (RoundAt(x, s) - x) * s <= 0.5
  {
    var xs := x * s;
    HalfEvenError(xs);
    DistributeDivision(HalfEven(xs) as real, x, s);
  }

  /** A reported figure is off by at most half a unit in its last digit. */
  lemma RoundError(x: real, digits: nat)
    ensures -0.5 <= (Round(x, digits) - x) * Scale(digits) <= 0.5
  {
    RoundAtError(x, Scale(digits));
  }

  /** k is the whole number nearest to y, and the even one of two equally near. */
  predicate NearestEven(y: real, k: int) {
    && y - 0.5 <= k as real <= y + 0.5
    && (k as real == y - 0.5 || k as real == y + 0.5 ==> k % 2 == 0)
  }

  /** The reported figure is k units of 1 / scale, and k is the nearest to x, ties to even. */
  predicate RoundsTo(x: real, scale: real, reported: real, k: int) {
    reported * scale == k as real && NearestEven(x * scale, k)
  }

  lemma RoundIsNearestEven(x: real, digits: nat)
    ensures exists k: int :: RoundsTo(x, Scale(digits), Round(x, digits), k)
  {
    hide RoundsTo, RoundAt, HalfEven, Scale;
    var s := Scale(digits);
    var k := HalfEven(x * s);
    RoundAtIsNearestEven(x, s);
    assert Round(x, digits) == RoundAt(x, s);
    assert RoundsTo(x, s, Round(x, digits), k);
  }

  lemma RoundAtIsNearestEven(x: real, s: real)
    requires s > 0.0
    ensures RoundsTo(x, s, RoundAt(x, s), HalfEven(x * s))
  {
    DivideThenMultiply(HalfEven(x * s) as real, s);
    HalfEvenIsNearest(x * s);
  }

  lemma HalfEvenIsNearest(y: real)
    ensures NearestEven(y, HalfEven(y))
  {
  }

  /** The figures the platform reports have 2, 4 or 6 decimals. */
  lemma DecimalScales()
    ensures Scale(2) == 100.0 && Scale(4) == 10000.0 && Scale(6) == 1000000.0
  {
    assert Scale(0) == 1.0;
    assert Scale(1) == 10.0;
    assert Scale(3) == 1000.0;
    assert Scale(5) == 100000.0;
  }
}
