/**
 * The mathematics behind the loan agent's level payment: compound growth, the
 * geometric series, and the present value of a run of equal payments.
 */
module Annuity {
  import opened RealDivision

  function Pow(q: real, n: nat): real {
    if n == 0 then 1.0 else q * Pow(q, n - 1)
  }

  /** 1 + q + ... + q^(n-1): what n unit payments have grown to when the last is made. */
  function GeometricSum(q: real, n: nat): real {
    if n == 0 then 0.0 else GeometricSum(q, n - 1) + Pow(q, n - 1)
  }

  /** What n unit payments, the first due one month from now, are worth today. */
  function PresentValue(q: real, n: nat): real
    requires q > 0.0
  {
    if n == 0 then 0.0 else (1.0 + PresentValue(q, n - 1)) / q
  }

  lemma {:induction false} PowAtLeastOne(q: real, n: nat)
    requires q >= 1.0
    ensures Pow(q, n) >= 1.0
    ensures q > 1.0 && n > 0 ==> Pow(q, n) > 1.0
  {
    if n > 0 {
      PowAtLeastOne(q, n - 1);
      var p := Pow(q, n - 1);
      assert q * p >= q * 1.0;
    }
  }

  lemma {:induction false} PresentValuePositive(q: real, n: nat)
    requires q > 0.0
    ensures PresentValue(q, n) >= 0.0
    ensures n > 0 ==> PresentValue(q, n) > 0.0
  {
    if n > 0 {
      PresentValuePositive(q, n - 1);
    }
  }

  /** One month later, the remaining payments are worth q times as much, less the one just made. */
  lemma PresentValueStep(q: real, n: nat)
    requires q > 0.0 && n > 0
    ensures PresentValue(q, n) * q - 1.0 == PresentValue(q, n - 1)
  {
    var a := 1.0 + PresentValue(q, n - 1);
    assert (a / q) * q == a;
  }

  lemma {:induction false} PresentValueGrows(q: real, m: nat, n: nat)
    requires q > 0.0 && m < n
    ensures PresentValue(q, m) < PresentValue(q, n)
    decreases n
  {
    PresentValuePositive(q, n);
    if m > 0 {
      PresentValueGrows(q, m - 1, n - 1);
      DivideStrictlyMonotone(1.0 + PresentValue(q, m - 1), 1.0 + PresentValue(q, n - 1), q);
    }
  }

  lemma {:induction false} PresentValueFallsWithRate(q1: real, q2: real, n: nat)
    requires 0.0 < q1 < q2
    ensures PresentValue(q2, n) <= PresentValue(q1, n)
    ensures n > 0 ==> PresentValue(q2, n) < PresentValue(q1, n)
  {
    if n > 0 {
      PresentValueFallsWithRate(q1, q2, n - 1);
      PresentValuePositive(q2, n - 1);
      var a1, a2 := 1.0 + PresentValue(q1, n - 1), 1.0 + PresentValue(q2, n - 1);
      DivideByLarger(a2, q1, q2);
      DivideMonotone(a2, a1, q1);
    }
  }

  /** At growth factor 1 the present value just counts the payments. */
  lemma {:induction false} PresentValueAtZeroRate(n: nat)
    ensures PresentValue(1.0, n) == n as real
  {
    if n > 0 {
      PresentValueAtZeroRate(n - 1);
    }
  }

  /** The closed form the payment formula divides by: PV * r * (1+r)^n == (1+r)^n - 1. */
  lemma {:induction false} PresentValueClosedForm(r: real, n: nat)
    requires r > 0.0
    ensures PresentValue(1.0 + r, n) * (r * Pow(1.0 + r, n)) == Pow(1.0 + r, n) - 1.0
  {
    if n > 0 {
      PresentValueClosedForm(r, n - 1);
      var q, p, a := 1.0 + r, Pow(1.0 + r, n - 1), PresentValue(1.0 + r, n - 1);
      PresentValueStep(q, n);
      calc {
        PresentValue(q, n) * (r * (q * p));
        (PresentValue(q, n) * q) * (r * p);
        (1.0 + a) * (r * p);
        r * p + a * (r * p);
        r * p + p - 1.0;
        q * p - 1.0;
      }
    }
  }

  /** Compounding a present value to the last payment date gives the geometric sum. */
  lemma {:induction false} PresentValueCompounds(q: real, n: nat)
    requires q > 0.0
    ensures PresentValue(q, n) * Pow(q, n) == GeometricSum(q, n)
  {
    if n > 0 {
      PresentValueCompounds(q, n - 1);
      PresentValueStep(q, n);
      var p, a := Pow(q, n - 1), PresentValue(q, n - 1);
      calc {
        PresentValue(q, n) * (q * p);
        (PresentValue(q, n) * q) * p;
        (1.0 + a) * p;
        p + GeometricSum(q, n - 1);
      }
    }
  }

  /** n payments are worth at least one payment a month away and at most n payments now. */
  lemma {:induction false} PresentValueBounds(q: real, n: nat)
    requires q >= 1.0 && n > 0
    ensures 1.0 / q <= PresentValue(q, n) <= n as real
  {
    PresentValuePositive(q, n - 1);
    DivideMonotone(1.0, 1.0 + PresentValue(q, n - 1), q);
    if q > 1.0 {
      PresentValueFallsWithRate(1.0, q, n);
    }
    PresentValueAtZeroRate(n);
  }
}
