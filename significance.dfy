/** Critical values, the Bonferroni adjustment of the p-value and of alpha,
    and the accept/reject decision of the chi-square goodness-of-fit test. */
module Significance {
  import opened RealArith

  /** A value, or the ZeroDivisionError Python raises for alpha / 0. */
  datatype Outcome<T> = Ok(value: T) | ZeroDivisionError

  /** The standard normal quantile function (norm.ppf) is strictly increasing
      on the open unit interval. */
  ghost predicate StrictlyIncreasing(ppf: real -> real) {
    forall x, y :: 0.0 < x < y < 1.0 ==> ppf(x) < ppf(y)
  }

  /** ...and symmetric about one half. */
  ghost predicate Symmetric(ppf: real -> real) {
    forall q :: 0.0 < q < 1.0 ==> ppf(1.0 - q) == -ppf(q)
  }

  /** The two-sided limits of a standardized residual at significance alpha. */
  datatype Limits = Limits(upper: real, lower: real)

  /** critical_values: the normal quantiles at 1 - alpha / 2 and alpha / 2. */
  function CriticalValues(alpha: real, ppf: real -> real): Limits {
    Limits(ppf(1.0 - alpha / 2.0), ppf(alpha / 2.0))
  }

  /** For a significance level strictly between 0 and 1 the lower limit lies
      strictly below the upper one. */
  lemma CriticalValuesOrdered(alpha: real, ppf: real -> real)
    requires StrictlyIncreasing(ppf) && 0.0 < alpha < 1.0
    ensures CriticalValues(alpha, ppf).lower < CriticalValues(alpha, ppf).upper
  {
    assert 0.0 < alpha / 2.0 < 1.0 - alpha / 2.0 < 1.0;
  }

  /** With a symmetric quantile function the limits are opposite numbers. */
  lemma CriticalValuesSymmetric(alpha: real, ppf: real -> real)
    requires Symmetric(ppf) && 0.0 < alpha < 2.0
    ensures CriticalValues(alpha, ppf).upper == -CriticalValues(alpha, ppf).lower
  {
    assert 0.0 < alpha / 2.0 < 1.0;
  }

  /** The corrected p-value and significance level of n simultaneous tests. */
  datatype Correction = Correction(pValue: real, alpha: real)

  /** Lines 58-60: p is multiplied by n, alpha is divided by n; with n = 0 the
      division raises. */
  function Bonferroni(p: real, alpha: real, n: nat): (r: Outcome<Correction>)
    ensures r.Ok? <==> n > 0
    ensures r.Ok? ==> r.value.pValue == p * n as real && r.value.alpha * n as real == alpha
  {
    if n == 0 then ZeroDivisionError
    else Ok(Correction(p * n as real, alpha / n as real))
  }

  /** Dividing alpha by the number of tests widens the limits: the corrected
      interval contains the uncorrected one. */
  lemma BonferroniWidensLimits(alpha: real, n: nat, ppf: real -> real)
    requires StrictlyIncreasing(ppf) && 0.0 < alpha < 1.0 && n >= 1
    ensures var plain, corrected := CriticalValues(alpha, ppf), CriticalValues(alpha / n as real, ppf);
      corrected.lower <= plain.lower && plain.upper <= corrected.upper
  {
    var q := alpha / n as real;
    ScaleDown(alpha, n as real, q);
    QuotientFacts(alpha, n as real, q);
    assert 0.0 < q / 2.0 <= alpha / 2.0 < 1.0;
    assert 0.0 < 1.0 - alpha / 2.0 <= 1.0 - q / 2.0 < 1.0;
  }

  datatype Decision = Reject | FailToReject

  /** Lines 85-88 and 115-118: reject the null hypothesis when the p-value is
      strictly below the significance level. */
  function Decide(p: real, alpha: real): (r: Decision)
    ensures r == Reject <==> p < alpha
  {
    if p < alpha then Reject else FailToReject
  }

  /** The corrected test rejects exactly when p * n * n < alpha. */
  lemma CorrectedRejectIff(p: real, alpha: real, n: nat)
    requires n >= 1
    ensures Decide(p * n as real, alpha / n as real) == Reject <==> p * n as real * n as real < alpha
  {
    var m := n as real;
    var q := alpha / m;
    assert q * m == alpha;
    var pm := p * m;
    if pm < q {
      assert pm * m < q * m;
    } else {
      assert pm * m >= q * m;
    }
  }

  /** A decision d taken on the corrected values of n tests: the corrected
      p-value is p * n, the corrected alpha is alpha / n, and d rejects
      exactly when p * n < alpha / n, that is when p * n * n < alpha. */
  lemma CorrectedDecisionFacts(p: real, alpha: real, n: nat, c: Correction, d: Decision)
    requires Bonferroni(p, alpha, n) == Ok(c)
    requires d == Reject <==> c.pValue < c.alpha
    ensures c.pValue == p * n as real && c.alpha * n as real == alpha
    ensures d == Reject <==> p * n as real < alpha / n as real
    ensures d == Reject <==> p * n as real * n as real < alpha
  {
    CorrectedRejectIff(p, alpha, n);
  }

  /** As written, the correction is applied twice: with p = 0.015 from n = 2
      tests at alpha = 0.05, p lies below alpha / n, yet comparing p * n with
      alpha / n does not reject. */
  lemma DoubleCorrectionMissesRejection()
    ensures var c := Bonferroni(0.015, 0.05, 2);
      c.Ok? && 0.015 < 0.05 / 2.0 && Decide(c.value.pValue, c.value.alpha) == FailToReject
  {
  }

  /** The Bonferroni decision as the correction intends it: either the corrected
      p-value is compared with alpha, or the p-value with the corrected alpha.
      Both comparisons give the same answer. */
  function BonferroniDecision(p: real, alpha: real, n: nat): (r: Decision)
    requires n >= 1
    ensures r == Reject <==> p * n as real < alpha
    ensures r == Reject <==> p < alpha / n as real
  {
    DivideComparison(p, alpha, n as real);
    Decide(p * n as real, alpha)
  }

  /** For m >= 1, p * m < alpha exactly when p < alpha / m. */
  lemma DivideComparison(p: real, alpha: real, m: real)
    requires m >= 1.0
    ensures p * m < alpha <==> p < alpha / m
  {
    var q := alpha / m;
    assert q * m == alpha;
    if p < q {
      assert p * m < q * m;
    } else {
      assert p * m >= q * m;
    }
  }

  /** The intended Bonferroni test is conservative as well. */
  lemma BonferroniDecisionConservative(p: real, alpha: real, n: nat)
    requires p >= 0.0 && n >= 1
    ensures BonferroniDecision(p, alpha, n) == Reject ==> Decide(p, alpha) == Reject
  {
    ScaleUp(p, n as real, p * n as real);
  }

  /** Bonferroni's test is conservative: whatever it rejects on the corrected
      values, the uncorrected test rejects too. */
  lemma BonferroniConservative(p: real, alpha: real, n: nat, c: Correction)
    requires p >= 0.0 && Bonferroni(p, alpha, n) == Ok(c)
    ensures Decide(c.pValue, c.alpha) == Reject ==> Decide(p, alpha) == Reject
  {
    ScaleUp(p, n as real, c.pValue);
    if alpha >= 0.0 {
      ScaleDown(alpha, n as real, c.alpha);
    } else {
      // a negative alpha stays negative after the division, below p * n >= 0
      QuotientFacts(-alpha, n as real, -c.alpha);
    }
  }
}
