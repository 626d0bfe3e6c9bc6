/**
 * The loan agent: the level monthly payment of a loan, and the affordability
 * recommendation made from it. Money and rates are exact reals.
 */
module LoanAgent {
  import opened Annuity
  import opened RealDivision
  import Rounding

  const DTI_WARN := 0.36
  const DTI_MAX := 0.43

  datatype RiskLevel = Low | Medium | High | Critical

  datatype LoanInput = LoanInput(
    monthlyIncome: real,
    monthlyDebt: real,
    monthlyExpenses: real,
    loanAmount: real,
    termMonths: int,
    annualInterestRate: real)
  {
    /** The field constraints the input model enforces before the agent runs. */
    predicate Valid() {
      && monthlyIncome > 0.0
      && monthlyDebt >= 0.0
      && monthlyExpenses >= 0.0
      && loanAmount > 0.0
      && 0 < termMonths <= 480
      && 0.0 <= annualInterestRate <= 1.0
    }
  }

  datatype LoanResult = LoanResult(
    estimatedMonthlyPayment: real,
    dtiRatio: real,
    disposableAfterPayment: real,
    riskLevel: RiskLevel,
    recommendation: string,
    requiresHumanReview: bool)

  /** The annuity formula, for a monthly rate r and the growth factor of the whole term. */
  function LevelPayment(principal: real, r: real, factor: real): real
    requires factor != 1.0
  {
    principal * (r * factor) / (factor - 1.0)
  }

  function MonthlyPayment(principal: real, annualRate: real, termMonths: int): real
    requires annualRate >= 0.0 && termMonths >= 1
  {
    if annualRate == 0.0 then
      principal / termMonths as real
    else
      var r := annualRate / 12.0;
      var factor := Pow(1.0 + r, termMonths);
      PowAtLeastOne(1.0 + r, termMonths);
      LevelPayment(principal, r, factor)
  }

  function TotalDebt(payload: LoanInput): real
    requires payload.Valid()
  {
    payload.monthlyDebt + MonthlyPayment(payload.loanAmount, payload.annualInterestRate, payload.termMonths)
  }

  function DtiRatio(payload: LoanInput): real
    requires payload.Valid()
  {
    TotalDebt(payload) / payload.monthlyIncome
  }

  function Disposable(payload: LoanInput): real
    requires payload.Valid()
  {
    payload.monthlyIncome - payload.monthlyExpenses - TotalDebt(payload)
  }

  function Risk(dti: real, disposable: real): RiskLevel {
    if dti >= DTI_MAX || disposable < 0.0 then High
    else if dti >= DTI_WARN then Medium
    else Low
  }

  function Recommendation(risk: RiskLevel): string {
    match risk
    case Low => "Within affordability policy: recommend approval subject to sign-off."
    case Medium => "Refer for manual underwriting: elevated DTI."
    case _ => "Decline or restructure: affordability thresholds exceeded."
  }

  function Run(payload: LoanInput): LoanResult
    requires payload.Valid()
  {
    var payment := MonthlyPayment(payload.loanAmount, payload.annualInterestRate, payload.termMonths);
    var risk := Risk(DtiRatio(payload), Disposable(payload));
    LoanResult(
      Rounding.Round(payment, 2),
      Rounding.Round(DtiRatio(payload), 4),
      Rounding.Round(Disposable(payload), 2),
      risk,
      Recommendation(risk),
      true)
  }

  /** The monthly growth factor of an annual rate. */
  function Growth(annualRate: real): (q: real)
    ensures annualRate >= 0.0 ==> q >= 1.0
  {
    1.0 + annualRate / 12.0
  }

  // ----- The payment is one function, in three forms -----

  /** Both branches are the one level payment whose present value is the principal. */
  lemma PaymentMeetsPrincipal(principal: real, annualRate: real, termMonths: int)
    requires annualRate >= 0.0 && termMonths >= 1
    ensures MonthlyPayment(principal, annualRate, termMonths) * PresentValue(Growth(annualRate), termMonths) == principal
  {
    hide Pow, PresentValue;
    if annualRate == 0.0 {
      PresentValueAtZeroRate(termMonths);
      DivideThenMultiply(principal, termMonths as real);
    } else {
      PaymentMeetsPrincipalAtInterest(principal, annualRate, termMonths);
    }
  }

  lemma PaymentMeetsPrincipalAtInterest(principal: real, annualRate: real, n: int)
    requires annualRate > 0.0 && n >= 1
    ensures MonthlyPayment(principal, annualRate, n) * PresentValue(Growth(annualRate), n) == principal
  {
    var r := annualRate / 12.0;
    PowAtLeastOne(1.0 + r, n);
    PresentValueClosedForm(r, n);
    QuotientCancels(principal, r, Pow(1.0 + r, n), PresentValue(1.0 + r, n));
    assert MonthlyPayment(principal, annualRate, n) == LevelPayment(principal, r, Pow(1.0 + r, n));
    hide *;
  }

  lemma QuotientCancels(p: real, r: real, f: real, pv: real)
    requires f > 1.0 && pv * (r * f) == f - 1.0
    ensures LevelPayment(p, r, f) * pv == p
  {
    var x, a := LevelPayment(p, r, f), r * f;
    assert x * (f - 1.0) == p * a;
    calc {
      (x * pv) * a;
      x * (pv * a);
      p * a;
    }
    assert a != 0.0;
    assert (x * pv - p) * a == 0.0;
  }

  /** Both branches equal principal * q^n / (1 + q + ... + q^(n-1)). */
  lemma PaymentIsGeometric(principal: real, annualRate: real, termMonths: int)
    requires annualRate >= 0.0 && termMonths >= 1
    ensures GeometricSum(Growth(annualRate), termMonths) > 0.0
    ensures MonthlyPayment(principal, annualRate, termMonths)
         == principal * Pow(Growth(annualRate), termMonths) / GeometricSum(Growth(annualRate), termMonths)
  {
    hide *;
    var q := Growth(annualRate);
    PaymentMeetsPrincipal(principal, annualRate, termMonths);
    PresentValueCompounds(q, termMonths);
    PresentValuePositive(q, termMonths);
    PowAtLeastOne(q, termMonths);
    CompoundedQuotient(MonthlyPayment(principal, annualRate, termMonths), PresentValue(q, termMonths),
      Pow(q, termMonths), GeometricSum(q, termMonths), principal);
  }

  lemma CompoundedQuotient(m: real, pv: real, f: real, s: real, p: real)
    requires m * pv == p && pv * f == s && pv > 0.0 && f > 0.0
    ensures s > 0.0 && m == p * f / s
  {
    assert pv * f > 0.0;
    calc {
      m * s;
      m * (pv * f);
      (m * pv) * f;
      p * f;
    }
    assert m == (m * s) / s;
  }

  /** The payment as a quotient by the present value, the form the comparisons use. */
  lemma PaymentQuotient(principal: real, annualRate: real, termMonths: int)
    requires annualRate >= 0.0 && termMonths >= 1
    ensures PresentValue(Growth(annualRate), termMonths) > 0.0
    ensures MonthlyPayment(principal, annualRate, termMonths) == principal / PresentValue(Growth(annualRate), termMonths)
  {
    hide MonthlyPayment, PresentValue;
    var pv := PresentValue(Growth(annualRate), termMonths);
    var m := MonthlyPayment(principal, annualRate, termMonths);
    PaymentMeetsPrincipal(principal, annualRate, termMonths);
    PresentValuePositive(Growth(annualRate), termMonths);
    assert m == (m * pv) / pv;
  }

  // ----- The payment pays the loan off -----

  /** What is owed after k months of interest at the annual rate and a fixed payment. */
  function Balance(principal: real, annualRate: real, payment: real, k: nat): real {
    if k == 0 then principal
    else Balance(principal, annualRate, payment, k - 1) * Growth(annualRate) - payment
  }

  /** The balance is always the present value of the payments still to come. */
  lemma {:induction false} BalanceIsRemainingValue(principal: real, annualRate: real, termMonths: int, k: nat)
    requires annualRate >= 0.0 && termMonths >= 1 && k <= termMonths
    ensures Balance(principal, annualRate, MonthlyPayment(principal, annualRate, termMonths), k)
         == MonthlyPayment(principal, annualRate, termMonths) * PresentValue(Growth(annualRate), termMonths - k)
  {
    hide MonthlyPayment, PresentValue, Pow;
    var m, q := MonthlyPayment(principal, annualRate, termMonths), Growth(annualRate);
    if k == 0 {
      PaymentMeetsPrincipal(principal, annualRate, termMonths);
    } else {
      BalanceIsRemainingValue(principal, annualRate, termMonths, k - 1);
      PresentValueStep(q, termMonths - k + 1);
      ValueAfterPayment(m, PresentValue(q, termMonths - k + 1), PresentValue(q, termMonths - k), q);
    }
  }

  lemma ValueAfterPayment(m: real, before: real, after: real, q: real)
    requires before * q - 1.0 == after
    ensures (m * before) * q - m == m * after
  {
    assert (m * before) * q == m * (before * q);
  }

  lemma BalanceAtTheEnd(principal: real, annualRate: real, termMonths: int)
    requires annualRate >= 0.0 && termMonths >= 1
    ensures Balance(principal, annualRate, MonthlyPayment(principal, annualRate, termMonths), termMonths) == 0.0
  {
    hide MonthlyPayment, Balance;
    BalanceIsRemainingValue(principal, annualRate, termMonths, termMonths);
    assert PresentValue(Growth(annualRate), 0) == 0.0;
  }

  /** After the whole term nothing is owed; before it, the debt is positive and falls every month. */
  lemma AmortisationCloses(principal: real, annualRate: real, termMonths: int)
    requires principal > 0.0 && annualRate >= 0.0 && termMonths >= 1
    ensures var m := MonthlyPayment(principal, annualRate, termMonths);
      && Balance(principal, annualRate, m, termMonths) == 0.0
      && forall k: nat | k < termMonths ::
           && Balance(principal, annualRate, m, k) > 0.0
           && Balance(principal, annualRate, m, k + 1) < Balance(principal, annualRate, m, k)
  {
    hide *;
    var m, q := MonthlyPayment(principal, annualRate, termMonths), Growth(annualRate);
    PaymentQuotient(principal, annualRate, termMonths);
    BalanceAtTheEnd(principal, annualRate, termMonths);
    forall k: nat | k < termMonths
      ensures Balance(principal, annualRate, m, k) > 0.0
           && Balance(principal, annualRate, m, k + 1) < Balance(principal, annualRate, m, k)
    {
      BalanceIsRemainingValue(principal, annualRate, termMonths, k);
      BalanceIsRemainingValue(principal, annualRate, termMonths, k + 1);
      PresentValuePositive(q, termMonths - k);
      PresentValueGrows(q, termMonths - (k + 1), termMonths - k);
      ScaleStrict(m, PresentValue(q, termMonths - (k + 1)), PresentValue(q, termMonths - k));
      ScaleStrict(m, 0.0, PresentValue(q, termMonths - k));
    }
  }

  lemma ScaleStrict(m: real, a: real, b: real)
    requires m > 0.0 && a < b
    ensures m * a < m * b
  {
    assert m * (b - a) > 0.0;
    assert m * b - m * a == m * (b - a);
  }

  /** Two payment plans on one loan drift apart by exactly the compounded difference. */
  lemma {:induction false} BalanceDifference(principal: real, annualRate: real, x: real, y: real, k: nat)
    requires annualRate >= 0.0
    ensures Balance(principal, annualRate, x, k) - Balance(principal, annualRate, y, k)
         == (y - x) * GeometricSum(Growth(annualRate), k)
  {
    if k == 0 {
      assert GeometricSum(Growth(annualRate), 0) == 0.0;
    } else {
      BalanceDifference(principal, annualRate, x, y, k - 1);
      BalanceDifferenceStep(principal, annualRate, x, y, k);
    }
  }

  lemma BalanceDifferenceStep(principal: real, annualRate: real, x: real, y: real, k: nat)
    requires k > 0
    requires Balance(principal, annualRate, x, k - 1) - Balance(principal, annualRate, y, k - 1)
          == (y - x) * GeometricSum(Growth(annualRate), k - 1)
    ensures Balance(principal, annualRate, x, k) - Balance(principal, annualRate, y, k)
         == (y - x) * GeometricSum(Growth(annualRate), k)
  {
    hide *;
    var q := Growth(annualRate);
    GeometricSumFromTheFront(q, k);
    BalanceUnfold(principal, annualRate, x, k);
    BalanceUnfold(principal, annualRate, y, k);
    DifferenceStep(GeometricSum(q, k - 1), GeometricSum(q, k), Balance(principal, annualRate, x, k - 1),
      Balance(principal, annualRate, y, k - 1), q, x, y);
  }

  lemma BalanceUnfold(principal: real, annualRate: real, payment: real, k: nat)
    requires k > 0
    ensures Balance(principal, annualRate, payment, k) == Balance(principal, annualRate, payment, k - 1) * Growth(annualRate) - payment
  {
  }

  lemma DifferenceStep(s: real, t: real, owedX: real, owedY: real, q: real, x: real, y: real)
    requires owedX - owedY == (y - x) * s && t == s * q + 1.0
    ensures (owedX * q - x) - (owedY * q - y) == (y - x) * t
  {
    calc {
      (owedX * q - x) - (owedY * q - y);
      (owedX - owedY) * q + (y - x);
      ((y - x) * s) * q + (y - x);
      (y - x) * (s * q) + (y - x);
      (y - x) * (s * q + 1.0);
    }
  }

  lemma {:induction false} GeometricSumFromTheFront(q: real, n: nat)
    requires n > 0
    ensures GeometricSum(q, n) == GeometricSum(q, n - 1) * q + 1.0
  {
    if n > 1 {
      GeometricSumFromTheFront(q, n - 1);
      var s, p := GeometricSum(q, n - 2), Pow(q, n - 2);
      assert (s + p) * q == s * q + q * p;
    } else {
      assert GeometricSum(q, 1) == GeometricSum(q, 0) + Pow(q, 0);
    }
  }

  /** No other level payment closes the loan: less leaves a debt, more overpays. */
  lemma OnlyThisPaymentCloses(principal: real, annualRate: real, termMonths: int, payment: real)
    requires annualRate >= 0.0 && termMonths >= 1
    ensures Balance(principal, annualRate, payment, termMonths) == 0.0
       <==> payment == MonthlyPayment(principal, annualRate, termMonths)
    ensures Balance(principal, annualRate, payment, termMonths) > 0.0
       <==> payment < MonthlyPayment(principal, annualRate, termMonths)
  {
    hide *;
    var m, s := MonthlyPayment(principal, annualRate, termMonths), GeometricSum(Growth(annualRate), termMonths);
    PaymentIsGeometric(principal, annualRate, termMonths);
    BalanceAtTheEnd(principal, annualRate, termMonths);
    BalanceDifference(principal, annualRate, payment, m, termMonths);
    CompareScaled(payment, m, s);
    CompareScaled(m, payment, s);
    assert (m - payment) * s == m * s - payment * s;
  }

  /** The interest charged over the first k months. */
  function InterestPaid(principal: real, annualRate: real, payment: real, k: nat): real {
    if k == 0 then
      0.0
    else
      InterestPaid(principal, annualRate, payment, k - 1)
      + Balance(principal, annualRate, payment, k - 1) * (annualRate / 12.0)
  }

  /** Money is conserved: everything paid is either interest or a fall in the debt. */
  lemma {:induction false} PaymentsSplitIntoInterestAndPrincipal(principal: real, annualRate: real, payment: real, k: nat)
    ensures principal + InterestPaid(principal, annualRate, payment, k)
         == k as real * payment + Balance(principal, annualRate, payment, k)
  {
    if k > 0 {
      PaymentsSplitIntoInterestAndPrincipal(principal, annualRate, payment, k - 1);
      var b, r := Balance(principal, annualRate, payment, k - 1), annualRate / 12.0;
      assert b * (1.0 + r) == b + b * r;
      assert k as real * payment == (k - 1) as real * payment + payment;
    }
  }

  /** Over the whole term the instalments repay the principal and the interest, to the cent. */
  lemma InstalmentsCoverLoan(principal: real, annualRate: real, termMonths: int)
    requires principal > 0.0 && annualRate >= 0.0 && termMonths >= 1
    ensures var m := MonthlyPayment(principal, annualRate, termMonths);
      termMonths as real * m == principal + InterestPaid(principal, annualRate, m, termMonths)
  {
    hide *;
    var m := MonthlyPayment(principal, annualRate, termMonths);
    AmortisationCloses(principal, annualRate, termMonths);
    PaymentsSplitIntoInterestAndPrincipal(principal, annualRate, m, termMonths);
  }

  // ----- How the payment moves with each input -----

  lemma PaymentRisesWithRate(principal: real, rate1: real, rate2: real, termMonths: int)
    requires principal > 0.0 && 0.0 <= rate1 < rate2 && termMonths >= 1
    ensures MonthlyPayment(principal, rate1, termMonths) < MonthlyPayment(principal, rate2, termMonths)
  {
    hide MonthlyPayment, PresentValue;
    PaymentQuotient(principal, rate1, termMonths);
    PaymentQuotient(principal, rate2, termMonths);
    var q1, q2 := Growth(rate1), Growth(rate2);
    PresentValueFallsWithRate(q1, q2, termMonths);
    DivideByLarger(principal, PresentValue(q2, termMonths), PresentValue(q1, termMonths));
  }

  lemma PaymentFallsWithTerm(principal: real, annualRate: real, term1: int, term2: int)
    requires principal > 0.0 && annualRate >= 0.0 && 1 <= term1 < term2
    ensures MonthlyPayment(principal, annualRate, term2) < MonthlyPayment(principal, annualRate, term1)
  {
    hide MonthlyPayment, PresentValue;
    PaymentQuotient(principal, annualRate, term1);
    PaymentQuotient(principal, annualRate, term2);
    var q := Growth(annualRate);
    PresentValueGrows(q, term1, term2);
    DivideByLarger(principal, PresentValue(q, term1), PresentValue(q, term2));
  }

  lemma PaymentIsLinearInPrincipal(a: real, b: real, c: real, annualRate: real, termMonths: int)
    requires annualRate >= 0.0 && termMonths >= 1
    ensures MonthlyPayment(c * a + b, annualRate, termMonths)
         == c * MonthlyPayment(a, annualRate, termMonths) + MonthlyPayment(b, annualRate, termMonths)
  {
    hide MonthlyPayment, PresentValue;
    var pv := PresentValue(Growth(annualRate), termMonths);
    var ma, mb, m := MonthlyPayment(a, annualRate, termMonths), MonthlyPayment(b, annualRate, termMonths),
      MonthlyPayment(c * a + b, annualRate, termMonths);
    PresentValuePositive(Growth(annualRate), termMonths);
    PaymentMeetsPrincipal(a, annualRate, termMonths);
    PaymentMeetsPrincipal(b, annualRate, termMonths);
    PaymentMeetsPrincipal(c * a + b, annualRate, termMonths);
    calc {
      (c * ma + mb) * pv;
      c * (ma * pv) + mb * pv;
      c * a + b;
      m * pv;
    }
    assert (c * ma + mb - m) * pv == 0.0;
  }

  /** Never less than an interest-free instalment, never more than repaying everything next month. */
  lemma PaymentBounds(principal: real, annualRate: real, termMonths: int)
    requires principal > 0.0 && annualRate >= 0.0 && termMonths >= 1
    ensures principal / termMonths as real
         <= MonthlyPayment(principal, annualRate, termMonths)
         <= principal * (1.0 + annualRate / 12.0)
  {
    hide MonthlyPayment, PresentValue;
    var q := Growth(annualRate);
    PaymentQuotient(principal, annualRate, termMonths);
    PresentValueBounds(q, termMonths);
    QuotientBounds(principal, PresentValue(q, termMonths), q, termMonths as real);
  }

  lemma QuotientBounds(p: real, pv: real, q: real, n: real)
    requires p > 0.0 && q > 0.0 && pv > 0.0 && 1.0 / q <= pv <= n
    ensures p / n <= p / pv <= p * q
  {
    if pv < n {
      DivideByLarger(p, pv, n);
    }
    if 1.0 / q < pv {
      DivideByLarger(p, 1.0 / q, pv);
    }
    assert p / (1.0 / q) == p * q by {
      var x := 1.0 / q;
      assert x * q == 1.0;
      assert (p * q) * x == p * (q * x);
    }
  }

  // ----- Affordability -----

  function Severity(risk: RiskLevel): nat {
    match risk
    case Low => 0
    case Medium => 1
    case High => 2
    case Critical => 3
  }

  /** `a` asks for no more, on terms no harder, from a position no weaker than `b`. */
  predicate NoHarder(a: LoanInput, b: LoanInput) {
    && a.monthlyIncome >= b.monthlyIncome
    && a.monthlyDebt <= b.monthlyDebt
    && a.monthlyExpenses <= b.monthlyExpenses
    && a.loanAmount <= b.loanAmount
    && a.termMonths >= b.termMonths
    && a.annualInterestRate <= b.annualInterestRate
  }

  lemma PaymentMonotone(a: LoanInput, b: LoanInput)
    requires a.Valid() && b.Valid() && NoHarder(a, b)
    ensures 0.0 < MonthlyPayment(a.loanAmount, a.annualInterestRate, a.termMonths)
              <= MonthlyPayment(b.loanAmount, b.annualInterestRate, b.termMonths)
  {
    hide MonthlyPayment, PresentValue, Growth;
    if a.termMonths > b.termMonths {
      PaymentFallsWithTerm(a.loanAmount, a.annualInterestRate, b.termMonths, a.termMonths);
    }
    if a.annualInterestRate < b.annualInterestRate {
      PaymentRisesWithRate(a.loanAmount, a.annualInterestRate, b.annualInterestRate, b.termMonths);
    }
    PaymentQuotient(a.loanAmount, a.annualInterestRate, a.termMonths);
    PaymentQuotient(a.loanAmount, b.annualInterestRate, b.termMonths);
    PaymentQuotient(b.loanAmount, b.annualInterestRate, b.termMonths);
    DivideMonotone(a.loanAmount, b.loanAmount, PresentValue(Growth(b.annualInterestRate), b.termMonths));
  }

  /** Every change for the worse, alone or together, can only raise the reported risk. */
  lemma RiskIsMonotone(a: LoanInput, b: LoanInput)
    requires a.Valid() && b.Valid() && NoHarder(a, b)
    ensures Severity(Run(a).riskLevel) <= Severity(Run(b).riskLevel)
  {
    hide Rounding.Round, DtiRatio, Disposable;
    DebtAndDisposableMonotone(a, b);
  }

  /** Neither the debt ratio nor the disposable income can improve. */
  lemma DebtAndDisposableMonotone(a: LoanInput, b: LoanInput)
    requires a.Valid() && b.Valid() && NoHarder(a, b)
    ensures DtiRatio(a) <= DtiRatio(b) && Disposable(a) >= Disposable(b)
  {
    hide MonthlyPayment;
    PaymentMonotone(a, b);
    SmallerRatio(TotalDebt(a), a.monthlyIncome, TotalDebt(b), b.monthlyIncome);
  }

  lemma SmallerRatio(debtA: real, incomeA: real, debtB: real, incomeB: real)
    requires 0.0 < debtA <= debtB && incomeA >= incomeB > 0.0
    ensures debtA / incomeA <= debtB / incomeB
  {
    DivideMonotone(debtA, debtB, incomeB);
    if incomeA > incomeB {
      DivideByLarger(debtA, incomeB, incomeA);
    }
  }

  /**
   * The policy read backwards: the risk level is decided by comparing the loan
   * with what the applicant's spare debt capacity is worth today.
   */
  lemma BorrowingLimits(payload: LoanInput)
    requires payload.Valid()
    ensures var pv := PresentValue(Growth(payload.annualInterestRate), payload.termMonths);
      var room := payload.monthlyIncome - payload.monthlyExpenses - payload.monthlyDebt;
      && (Run(payload).riskLevel == Low <==>
            payload.loanAmount < (0.36 * payload.monthlyIncome - payload.monthlyDebt) * pv && payload.loanAmount <= room * pv)
      && (Run(payload).riskLevel == High <==>
            payload.loanAmount >= (0.43 * payload.monthlyIncome - payload.monthlyDebt) * pv || payload.loanAmount > room * pv)
      && Run(payload).riskLevel != Critical
  {
    hide MonthlyPayment, PresentValue, Growth, Rounding.Round, Recommendation, DtiRatio, Disposable;
    PaymentMeetsPrincipal(payload.loanAmount, payload.annualInterestRate, payload.termMonths);
    PresentValuePositive(Growth(payload.annualInterestRate), payload.termMonths);
    LimitsByPresentValue(payload, PresentValue(Growth(payload.annualInterestRate), payload.termMonths));
  }

  lemma LimitsByPresentValue(payload: LoanInput, pv: real)
    requires payload.Valid() && pv > 0.0
    requires MonthlyPayment(payload.loanAmount, payload.annualInterestRate, payload.termMonths) * pv == payload.loanAmount
    ensures DtiRatio(payload) < DTI_WARN <==>
      payload.loanAmount < (DTI_WARN * payload.monthlyIncome - payload.monthlyDebt) * pv
    ensures DtiRatio(payload) < DTI_MAX <==>
      payload.loanAmount < (DTI_MAX * payload.monthlyIncome - payload.monthlyDebt) * pv
    ensures Disposable(payload) < 0.0 <==>
      (payload.monthlyIncome - payload.monthlyExpenses - payload.monthlyDebt) * pv < payload.loanAmount
  {
    hide MonthlyPayment;
    var m := MonthlyPayment(payload.loanAmount, payload.annualInterestRate, payload.termMonths);
    RatioBelow(payload.monthlyDebt + m, payload.monthlyIncome, DTI_WARN);
    RatioBelow(payload.monthlyDebt + m, payload.monthlyIncome, DTI_MAX);
    CompareScaled(m, DTI_WARN * payload.monthlyIncome - payload.monthlyDebt, pv);
    CompareScaled(m, DTI_MAX * payload.monthlyIncome - payload.monthlyDebt, pv);
    CompareScaled(payload.monthlyIncome - payload.monthlyExpenses - payload.monthlyDebt, m, pv);
  }

  lemma RatioBelow(debt: real, income: real, limit: real)
    requires income > 0.0
    ensures debt / income < limit <==> debt < limit * income
  {
    var x := debt / income;
    assert x * income == debt;
    CompareScaled(x, limit, income);
  }

  lemma CompareScaled(a: real, b: real, s: real)
    requires s > 0.0
    ensures a < b <==> a * s < b * s
  {
    assert b * s - a * s == (b - a) * s;
    if a < b {
      assert (b - a) * s > 0.0;
    } else {
      assert (a - b) * s >= 0.0;
    }
  }

  /**
   * Every reported figure is within half a unit of its last digit: the payment and
   * what it leaves of the income within half a cent, the share of the income that
   * goes to debt within half a ten-thousandth.
   */
  lemma ReportedFiguresAreClose(payload: LoanInput)
    requires payload.Valid()
    ensures var m := MonthlyPayment(payload.loanAmount, payload.annualInterestRate, payload.termMonths); var r := Run(payload);
      var dti := (payload.monthlyDebt + m) / payload.monthlyIncome;
      var left := payload.monthlyIncome - payload.monthlyExpenses - payload.monthlyDebt - m;
      && m - 0.005 <= r.estimatedMonthlyPayment <= m + 0.005
      && dti - 0.00005 <= r.dtiRatio <= dti + 0.00005
      && left - 0.005 <= r.disposableAfterPayment <= left + 0.005
  {
    hide MonthlyPayment, Rounding.Round;
    Rounding.DecimalScales();
    Rounding.RoundError(MonthlyPayment(payload.loanAmount, payload.annualInterestRate, payload.termMonths), 2);
    Rounding.RoundError(DtiRatio(payload), 4);
    Rounding.RoundError(Disposable(payload), 2);
  }

  /** Every assessment asks for a human's sign-off, and the advice given is that of the risk level. */
  lemma AdviceMatchesRisk(payload: LoanInput)
    requires payload.Valid()
    ensures var r := Run(payload);
      && r.requiresHumanReview
      && r.recommendation ==
           match r.riskLevel
           case Low => "Within affordability policy: recommend approval subject to sign-off."
           case Medium => "Refer for manual underwriting: elevated DTI."
           case _ => "Decline or restructure: affordability thresholds exceeded."
  {
  }

  /**
   * Paying the reported, rounded instalment for the whole term ends at most half a
   * cent an instalment, with the interest on it, away from zero; and it ends in debt
   * exactly when the instalment was rounded down.
   */
  lemma ReportedPaymentNearlyCloses(payload: LoanInput)
    requires payload.Valid()
    ensures var owed := Balance(payload.loanAmount, payload.annualInterestRate, Run(payload).estimatedMonthlyPayment, payload.termMonths);
      var m := MonthlyPayment(payload.loanAmount, payload.annualInterestRate, payload.termMonths);
      var sum := GeometricSum(Growth(payload.annualInterestRate), payload.termMonths);
      && -0.005 * sum <= owed <= 0.005 * sum
      && (owed > 0.0 <==> Run(payload).estimatedMonthlyPayment < m)
      && (owed == 0.0 <==> Run(payload).estimatedMonthlyPayment == m)
  {
    hide MonthlyPayment, Run, Balance, Growth, GeometricSum;
    var rate, n := payload.annualInterestRate, payload.termMonths;
    var m, reported := MonthlyPayment(payload.loanAmount, rate, n), Run(payload).estimatedMonthlyPayment;
    ReportedFiguresAreClose(payload);
    BalanceAtTheEnd(payload.loanAmount, rate, n);
    BalanceDifference(payload.loanAmount, rate, reported, m, n);
    OnlyThisPaymentCloses(payload.loanAmount, rate, n, reported);
    PaymentIsGeometric(payload.loanAmount, rate, n);
    DriftWithin(Balance(payload.loanAmount, rate, reported, n), Balance(payload.loanAmount, rate, m, n), m, reported,
      GeometricSum(Growth(rate), n));
  }

  lemma DriftWithin(owed: real, closed: real, m: real, reported: real, s: real)
    requires closed == 0.0 && owed - closed == (m - reported) * s
    requires m - 0.005 <= reported <= m + 0.005 && s > 0.0
    ensures -0.005 * s <= owed <= 0.005 * s
  {
    var x := m - reported;
    assert (0.005 - x) * s >= 0.0;
    assert (x + 0.005) * s >= 0.0;
  }

  /** A loan refused for its debt ratio always shows a reported ratio at or above the limit. */
  lemma ReportedRatioShowsRefusal(payload: LoanInput)
    requires payload.Valid()
    requires payload.monthlyDebt + MonthlyPayment(payload.loanAmount, payload.annualInterestRate, payload.termMonths) >= 0.43 * payload.monthlyIncome
    ensures Run(payload).dtiRatio >= 0.43 && Run(payload).riskLevel == High
  {
    hide MonthlyPayment;
    RatioBelow(TotalDebt(payload), payload.monthlyIncome, DTI_MAX);
    Rounding.RoundMonotone(DTI_MAX, DtiRatio(payload), 4);
    Rounding.DecimalScales();
  }
}
