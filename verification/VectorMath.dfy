/** Dot products over real vectors: Cauchy-Schwarz, normalisation, and when two unit vectors agree. */
module VectorMath {

  type Vector = seq<real>

  /** A product under a name, so that proofs about sums of products stay linear. */
  function Times(x: real, y: real): real {
    x * y
  }

  /** The sum of products of paired components; the longer vector's surplus is ignored. */
  function Dot(a: Vector, b: Vector): real {
    if a == [] || b == [] then 0.0 else Times(a[0], b[0]) + Dot(a[1..], b[1..])
  }

  function SquareSum(v: Vector): real {
    if v == [] then 0.0 else Times(v[0], v[0]) + SquareSum(v[1..])
  }

  function Divide(v: Vector, n: real): (w: Vector)
    requires n != 0.0
    ensures |w| == |v|
  {
    if v == [] then [] else [v[0] / n] + Divide(v[1..], n)
  }

  /** The length of a vector: the non-negative number whose square is the sum of squares. */
  predicate IsNorm(n: real, v: Vector) {
    n >= 0.0 && Times(n, n) == SquareSum(v)
  }

  /** A vector of length one, or the zero vector. */
  predicate UnitOrZero(v: Vector) {
    SquareSum(v) == 1.0 || SquareSum(v) == 0.0
  }

  // ----- Products -----

  lemma PositiveProduct(x: real, y: real)
    requires x > 0.0 && y > 0.0
    ensures Times(x, y) > 0.0
  {
  }

  lemma NonNegativeProduct(x: real, y: real)
    requires x >= 0.0 && y >= 0.0
    ensures x * y >= 0.0
  {
  }

  lemma ZeroProduct(x: real)
    ensures Times(0.0, x) == 0.0 && Times(x, 0.0) == 0.0
  {
  }

  lemma SquareOfNegation(x: real)
    ensures Times(-x, -x) == Times(x, x)
  {
  }

  lemma SquareNonNegative(x: real)
    ensures Times(x, x) >= 0.0
    ensures Times(x, x) == 0.0 <==> x == 0.0
  {
    hide *;
    if x > 0.0 {
      PositiveProduct(x, x);
    } else if x < 0.0 {
      PositiveProduct(-x, -x);
      SquareOfNegation(x);
    } else {
      ZeroProduct(x);
    }
  }

  lemma SquareOfSumAndDifference(x: real, y: real)
    ensures Times(x - y, x - y) == Times(x, x) - 2.0 * Times(x, y) + Times(y, y)
    ensures Times(x + y, x + y) == Times(x, x) + 2.0 * Times(x, y) + Times(y, y)
  {
  }

  lemma TwiceProduct(x: real, y: real)
    ensures -(Times(x, x) + Times(y, y)) <= 2.0 * Times(x, y) <= Times(x, x) + Times(y, y)
  {
    hide *;
    SquareNonNegative(x - y);
    SquareNonNegative(x + y);
    SquareOfSumAndDifference(x, y);
  }

  // ----- Dot products -----

  lemma {:induction false} SquareSumNonNegative(v: Vector)
    ensures SquareSum(v) >= 0.0
    ensures SquareSum(v) == 0.0 <==> forall i | 0 <= i < |v| :: v[i] == 0.0
  {
    hide Times;
    if v != [] {
      SquareSumNonNegative(v[1..]);
      SquareNonNegative(v[0]);
      if SquareSum(v) == 0.0 {
        assert forall i | 0 <= i < |v| :: v[i] == if i == 0 then v[0] else v[1..][i - 1];
      }
    }
  }

  lemma {:induction false} DotWithSelf(v: Vector)
    ensures Dot(v, v) == SquareSum(v)
  {
    if v != [] {
      DotWithSelf(v[1..]);
    }
  }

  lemma {:induction false} DotWithZeros(a: Vector, b: Vector)
    requires (forall i | 0 <= i < |a| :: a[i] == 0.0) || (forall i | 0 <= i < |b| :: b[i] == 0.0)
    ensures Dot(a, b) == 0.0
  {
    hide Times;
    if a != [] && b != [] {
      DotWithZeros(a[1..], b[1..]);
      ZeroProduct(a[0]);
      ZeroProduct(b[0]);
    }
  }

  /** Twice a dot product never exceeds the two square sums, whatever the lengths. */
  lemma {:induction false} DotBelowSquares(a: Vector, b: Vector)
    ensures -(SquareSum(a) + SquareSum(b)) <= 2.0 * Dot(a, b) <= SquareSum(a) + SquareSum(b)
  {
    hide Times;
    if a == [] || b == [] {
      SquareSumNonNegative(a);
      SquareSumNonNegative(b);
    } else {
      DotBelowSquares(a[1..], b[1..]);
      TwiceProduct(a[0], b[0]);
    }
  }

  lemma {:induction false} DivideScalesSquares(v: Vector, n: real)
    requires n != 0.0
    ensures Times(SquareSum(Divide(v, n)), Times(n, n)) == SquareSum(v)
  {
    DivideScalesDot(v, v, n, n);
    DotWithSelf(v);
    DotWithSelf(Divide(v, n));
  }

  lemma {:induction false} DivideScalesDot(a: Vector, b: Vector, m: real, n: real)
    requires m != 0.0 && n != 0.0
    ensures Times(Dot(Divide(a, m), Divide(b, n)), Times(m, n)) == Dot(a, b)
  {
    hide Times;
    if a == [] || b == [] {
      ZeroProduct(Times(m, n));
    } else {
      DivideScalesDot(a[1..], b[1..], m, n);
      assert Divide(a, m)[1..] == Divide(a[1..], m) && Divide(b, n)[1..] == Divide(b[1..], n);
      SplitScaled(a[0], m, b[0], n, Dot(Divide(a[1..], m), Divide(b[1..], n)));
    }
  }

  lemma {:induction false} DivideAt(v: Vector, n: real, i: nat)
    requires n != 0.0 && i < |v|
    ensures Times(Divide(v, n)[i], n) == v[i]
  {
    if i > 0 {
      DivideAt(v[1..], n, i - 1);
    }
  }

  lemma SplitScaled(a: real, m: real, b: real, n: real, s: real)
    requires m != 0.0 && n != 0.0
    ensures Times(Times(a / m, b / n) + s, Times(m, n)) == Times(a, b) + Times(s, Times(m, n))
  {
    var x, y := a / m, b / n;
    assert x * m == a && y * n == b;
    calc {
      (x * y + s) * (m * n);
      (x * m) * (y * n) + s * (m * n);
    }
  }

  /** Dividing by its length makes a vector a unit vector. */
  lemma NormalisedIsUnit(v: Vector, n: real)
    requires IsNorm(n, v) && n != 0.0
    ensures SquareSum(Divide(v, n)) == 1.0
  {
    hide Times, SquareSum, Divide;
    DivideScalesSquares(v, n);
    SquareNonNegative(n);
    CancelFactor(SquareSum(Divide(v, n)), Times(n, n));
  }

  lemma CancelFactor(s: real, t: real)
    requires t > 0.0 && Times(s, t) == t
    ensures s == 1.0
  {
    assert s == (s * t) / t;
  }

  /** Cauchy-Schwarz: a dot product is at most the product of the lengths, either way. */
  lemma CauchySchwarz(a: Vector, b: Vector, m: real, n: real)
    requires IsNorm(m, a) && IsNorm(n, b)
    ensures -(m * n) <= Dot(a, b) <= m * n
  {
    if m == 0.0 || n == 0.0 {
      SquareSumNonNegative(a);
      SquareSumNonNegative(b);
      DotWithZeros(a, b);
      assert m * n == 0.0;
    } else {
      DotWithinLengths(a, b, m, n);
    }
  }

  lemma DotWithinLengths(a: Vector, b: Vector, m: real, n: real)
    requires IsNorm(m, a) && IsNorm(n, b) && m > 0.0 && n > 0.0
    ensures -Times(m, n) <= Dot(a, b) <= Times(m, n)
  {
    hide Times, SquareSum, Divide, Dot;
    NormalisedIsUnit(a, m);
    NormalisedIsUnit(b, n);
    DotBelowSquares(Divide(a, m), Divide(b, n));
    DivideScalesDot(a, b, m, n);
    PositiveProduct(m, n);
    ScaleBound(Dot(Divide(a, m), Divide(b, n)), Times(m, n));
  }

  lemma ScaleBound(d: real, p: real)
    requires p > 0.0 && -1.0 <= d <= 1.0
    ensures -p <= Times(d, p) <= p
  {
    NonNegativeProduct(1.0 - d, p);
    NonNegativeProduct(1.0 + d, p);
  }

  /** Vectors of length at most one have similarity between -1 and 1. */
  lemma DotOfUnits(a: Vector, b: Vector)
    requires UnitOrZero(a) && UnitOrZero(b)
    ensures -1.0 <= Dot(a, b) <= 1.0
  {
    DotBelowSquares(a, b);
  }

  /** The squared distance between two vectors of one dimension. */
  function Distance(a: Vector, b: Vector): real
    requires |a| == |b|
  {
    if a == [] then 0.0 else Times(a[0] - b[0], a[0] - b[0]) + Distance(a[1..], b[1..])
  }

  lemma {:induction false} DistanceFromDot(a: Vector, b: Vector)
    requires |a| == |b|
    ensures Distance(a, b) == SquareSum(a) + SquareSum(b) - 2.0 * Dot(a, b)
  {
    hide Times;
    if a != [] {
      DistanceFromDot(a[1..], b[1..]);
      SquareOfSumAndDifference(a[0], b[0]);
    }
  }

  lemma {:induction false} DistanceZero(a: Vector, b: Vector)
    requires |a| == |b|
    ensures Distance(a, b) >= 0.0
    ensures Distance(a, b) == 0.0 <==> a == b
  {
    hide Times;
    if a != [] {
      DistanceZero(a[1..], b[1..]);
      SquareNonNegative(a[0] - b[0]);
      assert a == [a[0]] + a[1..] && b == [b[0]] + b[1..];
    }
  }

  /** Two normalised vectors have similarity 1 exactly if they are the same unit vector. */
  lemma SimilarityOneIff(a: Vector, b: Vector)
    requires |a| == |b| && UnitOrZero(a) && UnitOrZero(b)
    ensures Dot(a, b) == 1.0 <==> a == b && SquareSum(a) == 1.0
  {
    hide Times;
    DistanceFromDot(a, b);
    DistanceZero(a, b);
    DotWithSelf(a);
    DotBelowSquares(a, b);
  }
}
