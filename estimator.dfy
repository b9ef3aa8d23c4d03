/**
 * The variance-component estimator and the limits of agreement: the
 * unbalanced one-way random-effects divisor, the between-subject component
 * (not clamped at zero), the total variance, the mean bias and the limits
 * mean bias ± 1.96 standard deviations.
 */
module Estimator {
  import opened Wrappers
  import opened Decomposition

  /** The two-sided 95% normal quantile the limits use. */
  const Z95: real := 1.96

  /**
   * The divisor (m² − Σnᵢ²) / ((n − 1)·m) for `k` = n subjects, `m` observations
   * and `sigmaM2` = Σnᵢ².
   */
  function Divisor(k: nat, m: nat, sigmaM2: nat): (d: real)
    requires k >= 2 && m > 0
    ensures d > 0.0 <==> sigmaM2 < m * m
    ensures d == 0.0 <==> sigmaM2 == m * m
  {
    var den := ((k - 1) * m) as real;
    assert den > 0.0 by { assert (k - 1) * m > 0; }
    ((m * m - sigmaM2) as real) / den
  }

  /** The squares of the counts never add up to more than the square of their total. */
  lemma {:induction false} SquareOfSumBound(table: seq<Summary>)
    requires WellFormed(table)
    ensures CountSqrTotal(table) <= CountTotal(table) * CountTotal(table)
    ensures |table| >= 1 ==> CountTotal(table) >= 1
    ensures |table| >= 2 ==> CountSqrTotal(table) < CountTotal(table) * CountTotal(table)
  {
    if table != [] {
      var init := table[..|table| - 1];
      var c := table[|table| - 1].count;
      SquareOfSumBound(init);
      SquareStep(CountTotal(init), CountSqrTotal(init), c, table[|table| - 1].countSqr);
    }
  }

  /** Proof step of SquareOfSumBound: adding one count keeps the bound. */
  lemma SquareStep(t: nat, q: nat, c: nat, cc: nat)
    requires q <= t * t && c >= 1 && cc == c * c
    ensures q + cc <= (t + c) * (t + c)
    ensures t >= 1 ==> q + cc < (t + c) * (t + c)
  {
    assert (t + c) * (t + c) == t * t + 2 * t * c + c * c;
    if t >= 1 {
      assert t * c >= 1;
    }
  }

  /** With two or more subjects the divisor is positive. */
  lemma DivisorPositive(table: seq<Summary>)
    requires WellFormed(table) && |table| >= 2
    ensures CountTotal(table) > 0
    ensures CountSqrTotal(table) < CountTotal(table) * CountTotal(table)
    ensures Divisor(|table|, CountTotal(table), CountSqrTotal(table)) > 0.0
  {
    SquareOfSumBound(table);
  }

  /** When every subject has `c` observations the totals are k·c and k·c². */
  lemma {:induction false} BalancedTotals(table: seq<Summary>, c: nat)
    requires WellFormed(table)
    requires forall i :: 0 <= i < |table| ==> table[i].count == c
    ensures CountTotal(table) == |table| * c
    ensures CountSqrTotal(table) == |table| * (c * c)
  {
    if table != [] {
      BalancedTotals(table[..|table| - 1], c);
    }
  }

  /** In a balanced design with `c` observations per subject the divisor is `c`. */
  lemma DivisorBalanced(table: seq<Summary>, c: nat)
    requires WellFormed(table) && |table| >= 2
    requires forall i :: 0 <= i < |table| ==> table[i].count == c
    ensures Divisor(|table|, CountTotal(table), CountSqrTotal(table)) == c as real
  {
    BalancedTotals(table, c);
    BalancedDivisor(|table|, c);
  }

  /** Proof step of DivisorBalanced, on the totals k·c and k·c². */
  lemma BalancedDivisor(k: nat, c: nat)
    requires k >= 2 && c >= 1
    ensures Divisor(k, k * c, k * (c * c)) == c as real
  {
    var m := k * c;
    var num, den := m * m - k * (c * c), (k - 1) * m;
    assert num == c * den;
    assert den > 0;
    ExactQuotient(num as real, den as real, c as real);
  }

  /** Proof step: a quotient known as an exact multiple. */
  lemma ExactQuotient(x: real, y: real, q: real)
    requires y != 0.0 && x == q * y
    ensures x / y == q
  {
  }

  /** `sqrt` returns the non-negative square root of every non-negative real. */
  ghost predicate IsSquareRoot(sqrt: real -> real)
  {
    forall v: real :: v >= 0.0 ==> sqrt(v) >= 0.0 && sqrt(v) * sqrt(v) == v
  }

  /** The standard deviation and the upper and lower limits of agreement. */
  datatype Limits = Limits(sd: real, upper: real, lower: real)

  /** The limits lie 1.96 standard deviations either side of the mean bias. */
  function LimitsOfAgreement(meanBias: real, sd: real): (l: Limits)
    ensures l.sd == sd
    ensures l.upper - meanBias == Z95 * sd && meanBias - l.lower == Z95 * sd
    ensures sd >= 0.0 ==> l.lower <= meanBias <= l.upper
  {
    Limits(sd, meanBias + Z95 * sd, meanBias - Z95 * sd)
  }

  /**
   * The estimator's output. `limits` is None when the total variance is
   * negative: its square root, and so both limits, are not finite.
   */
  datatype Estimate = Estimate(withinVariance: real, divisor: real, betweenVariance: real,
                               totalVariance: real, meanBias: real, limits: Option<Limits>)

  /**
   * From the two mean squares, the design (`k` subjects, `m` observations,
   * `sigmaM2` = Σnᵢ²) and the total of the differences, the variance
   * components, the mean bias and the limits of agreement.
   */
  function EstimateAgreement(msBetween: real, msWithin: real, k: nat, m: nat, sigmaM2: nat,
                             sumTotal: real, sqrt: real -> real): (e: Estimate)
    requires k >= 2 && m > 0 && sigmaM2 < m * m
    requires IsSquareRoot(sqrt)
    ensures e.withinVariance == msWithin
    ensures e.divisor == Divisor(k, m, sigmaM2) && e.divisor > 0.0
    ensures e.betweenVariance < 0.0 <==> msBetween < msWithin
    ensures e.betweenVariance == 0.0 <==> msBetween == msWithin
    ensures e.totalVariance == e.betweenVariance + msWithin
    ensures e.meanBias == sumTotal / (m as real)
    ensures e.limits.Some? <==> e.totalVariance >= 0.0
    ensures e.limits.Some? ==> e.limits.value.sd >= 0.0 && e.limits.value.sd * e.limits.value.sd == e.totalVariance
    ensures e.limits.Some? ==>
              e.limits.value.upper - e.meanBias == Z95 * e.limits.value.sd &&
              e.meanBias - e.limits.value.lower == Z95 * e.limits.value.sd
    ensures e.limits.Some? ==> e.limits.value.lower <= e.meanBias <= e.limits.value.upper
  {
    var divisor := Divisor(k, m, sigmaM2);
    var variance := (msBetween - msWithin) / divisor;
    QuotientSign(msBetween - msWithin, divisor);
    var totalVariance := variance + msWithin;
    var meanBias := sumTotal / (m as real);
    Estimate(msWithin, divisor, variance, totalVariance, meanBias,
             if totalVariance >= 0.0 then Some(LimitsOfAgreement(meanBias, sqrt(totalVariance))) else None)
  }

  /** Proof step: dividing by a positive divisor keeps the sign. */
  lemma QuotientSign(x: real, d: real)
    requires d > 0.0
    ensures x / d < 0.0 <==> x < 0.0
    ensures x / d == 0.0 <==> x == 0.0
  {
    assert x == (x / d) * d;
  }
}
