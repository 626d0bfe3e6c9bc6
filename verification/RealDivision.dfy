/** Comparing quotients of reals. */
module RealDivision {

  lemma DivideThenMultiply(a: real, b: real)
    requires b != 0.0
    ensures (a / b) * b == a
  {
  }

  lemma DivideMonotone(a: real, b: real, q: real)
    requires a <= b && q > 0.0
    ensures a / q <= b / q
  {
    assert b / q - a / q == (b - a) / q;
  }

  lemma DivideStrictlyMonotone(a: real, b: real, q: real)
    requires a < b && q > 0.0
    ensures a / q < b / q
  {
    assert b / q - a / q == (b - a) / q;
  }

  lemma DivideByLarger(a: real, q1: real, q2: real)
    requires a > 0.0 && 0.0 < q1 < q2
    ensures a / q2 < a / q1
  {
    var x := a / q2;
    assert x * q1 < x * q2;
    DivideStrictlyMonotone(x * q1, a, q1);
    assert (x * q1) / q1 == x;
  }
}
