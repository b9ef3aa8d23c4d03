/**
 * The repeated-measures Bland–Altman analysis (Bland and Altman, 2007,
 * "Agreement between methods of measurement with multiple observations per
 * individual"): prepare the differences, aggregate them by subject, decompose
 * their variation into between- and within-subject sums of squares, and turn
 * the mean squares into variance components and limits of agreement.
 */
module BlandAltman {
  import opened Wrappers
  import opened RealSums
  import opened Observations
  import opened Grouping
  import opened Regularisation
  import opened Preparation
  import opened Decomposition
  import opened Estimator

  /** Everything one analysis computes, from the prepared table to the estimate. */
  datatype Analysis = Analysis(
    table: Table,
    k: nat,                   // number of distinct subjects
    n: nat,                   // number of observations
    dfBetween: int, dfWithin: int, dfTotal: int,
    summaries: seq<Summary>,  // the per-subject aggregate table
    grandMean: real,
    ssWithin: real, ssBetween: real, ssTotal: real,
    msBetween: real, msWithin: real,
    estimate: Estimate)

  /** A subject's group of differences has as many values as the subject has rows. */
  lemma {:induction false} GroupSizeIsRowCount(rows: seq<Row>, diff: seq<real>, s: int)
    requires |diff| == |rows|
    ensures |Select(Keys(rows), diff, s)| == |RowsOf(rows, s)|
  {
    if rows != [] {
      var init := rows[..|rows| - 1];
      assert Keys(rows)[..|rows| - 1] == Keys(init);
      GroupSizeIsRowCount(init, diff[..|diff| - 1], s);
    }
  }

  /** In a table where every subject has `c` rows, every aggregate row counts `c`. */
  lemma BalancedSummaries(rows: seq<Row>, diff: seq<real>, c: nat)
    requires |diff| == |rows| && Balanced(rows, c)
    ensures var ss := Distinct(Keys(rows));
      forall i :: 0 <= i < |ss| ==> Aggregate(ss, GroupBy(Keys(rows), diff))[i].count == c
  {
    var ss := Distinct(Keys(rows));
    forall i | 0 <= i < |ss| ensures Aggregate(ss, GroupBy(Keys(rows), diff))[i].count == c {
      GroupSizeIsRowCount(rows, diff, ss[i]);
    }
  }

  /** When the prepared table was regularised, the divisor is the common count per subject. */
  lemma RegularisedDivisor(rows: seq<Row>, logTransformed: bool, log10: real -> real, summaries: seq<Summary>)
    requires Prepare(rows, logTransformed, true, log10).Success?
    requires var t := Prepare(rows, logTransformed, true, log10).value;
      summaries == Aggregate(Distinct(Keys(t.rows)), GroupBy(Keys(t.rows), t.diff))
    requires |summaries| >= 2
    ensures rows != []
    ensures Divisor(|summaries|, CountTotal(summaries), CountSqrTotal(summaries)) == MinCount(rows) as real
  {
    var t := Prepare(rows, logTransformed, true, log10).value;
    var c := MinCount(rows);
    BalancedSummaries(t.rows, t.diff, c);
    AggregateWellFormed(Distinct(Keys(t.rows)), GroupBy(Keys(t.rows), t.diff));
    DivisorBalanced(summaries, c);
  }

  /**
   * Aggregation by subject and the three sums of squares about the grand mean
   * of a non-empty column of differences.
   */
  method SumsOfSquares(keys: seq<int>, diff: seq<real>)
    returns (summaries: seq<Summary>, grandMean: real, ssWithin: real, ssBetween: real, ssTotal: real)
    requires |keys| == |diff| > 0
    ensures summaries == Aggregate(Distinct(keys), GroupBy(keys, diff))
    ensures WellFormed(summaries) && |summaries| == |Distinct(keys)|
    ensures CountTotal(summaries) == |keys| && SumTotal(summaries) == Sum(diff)
    ensures grandMean == Sum(diff) / (|keys| as real)
    ensures ssWithin == Within(GroupBy(keys, diff))
    ensures ssBetween == Between(summaries, grandMean)
    ensures ssTotal == SumSq(diff, grandMean)
    ensures ssWithin >= 0.0 && ssBetween >= 0.0
    ensures ssTotal == ssBetween + ssWithin
  {
    var subjects := Distinct(keys);
    var groups := GroupBy(keys, diff);
    summaries := Aggregate(subjects, groups);
    AggregateWellFormed(subjects, groups);
    AggregateTotals(subjects, groups);
    GroupByPartition(keys, diff, 0.0);
    grandMean := SumTotal(summaries) / (CountTotal(summaries) as real);

    ssWithin := SquaredWithin(groups);
    ssBetween := SquaredBetween(summaries, grandMean);
    ssTotal := SquaredTotal(diff, grandMean);
    WithinNonNegative(groups);
    BetweenNonNegative(summaries, grandMean);
    GroupByPartition(keys, diff, grandMean);
    SumOfSquaresIdentity(subjects, groups, grandMean);
  }

  /**
   * The shape of an analysis of its table: the subject and observation
   * counts, the degrees of freedom and the aggregate table, one row per
   * subject with counts adding up to N.
   */
  ghost predicate Shaped(a: Analysis)
  {
    |a.table.diff| == |a.table.rows| &&
    a.k == |Distinct(Keys(a.table.rows))| >= 2 &&
    a.n == |a.table.rows| > a.k &&
    a.dfBetween == a.k - 1 && a.dfWithin == a.n - a.k && a.dfTotal == a.n - 1 &&
    a.dfBetween + a.dfWithin == a.dfTotal &&
    a.summaries == Aggregate(Distinct(Keys(a.table.rows)), GroupBy(Keys(a.table.rows), a.table.diff)) &&
    |a.summaries| == a.k &&
    CountTotal(a.summaries) == a.n &&
    CountSqrTotal(a.summaries) < a.n * a.n
  }

  /**
   * The decomposition of an analysis: the grand mean of the differences, the
   * three sums of squares about it (within adding to between to give the
   * total) and the two mean squares.
   */
  ghost predicate Decomposed(a: Analysis)
    requires Shaped(a)
  {
    a.grandMean == Sum(a.table.diff) / (a.n as real) &&
    a.ssWithin == Within(GroupBy(Keys(a.table.rows), a.table.diff)) &&
    a.ssBetween == Between(a.summaries, a.grandMean) &&
    a.ssTotal == SumSq(a.table.diff, a.grandMean) &&
    a.ssWithin >= 0.0 && a.ssBetween >= 0.0 &&
    a.ssTotal == a.ssBetween + a.ssWithin &&
    a.msBetween == a.ssBetween / (a.dfBetween as real) &&
    a.msWithin == a.ssWithin / (a.dfWithin as real)
  }

  /**
   * The estimate of an analysis: the variance components and limits of
   * agreement from its mean squares, with the mean bias equal to the grand mean.
   */
  ghost predicate Estimated(a: Analysis, sqrt: real -> real)
    requires Shaped(a) && IsSquareRoot(sqrt)
  {
    a.estimate == EstimateAgreement(a.msBetween, a.msWithin, a.k, a.n,
                                    CountSqrTotal(a.summaries), SumTotal(a.summaries), sqrt) &&
    a.estimate.meanBias == a.grandMean
  }

  /** The statistics of a prepared table with at least two subjects and some replication. */
  method Statistics(t: Table, sqrt: real -> real) returns (a: Analysis)
    requires |t.diff| == |t.rows|
    requires 2 <= |Distinct(Keys(t.rows))| < |t.rows|
    requires IsSquareRoot(sqrt)
    ensures a.table == t
    ensures Shaped(a) && Decomposed(a) && Estimated(a, sqrt)
  {
    var keys := Keys(t.rows);
    var k := |Distinct(keys)|;
    var n := |t.rows|;
    var dfBetween, dfWithin, dfTotal := k - 1, n - k, n - 1;

    var summaries, grandMean, ssWithin, ssBetween, ssTotal := SumsOfSquares(keys, t.diff);

    var msBetween := ssBetween / (dfBetween as real);
    var msWithin := ssWithin / (dfWithin as real);
    DivisorPositive(summaries);
    var estimate := EstimateAgreement(msBetween, msWithin, k, n, CountSqrTotal(summaries), SumTotal(summaries), sqrt);
    a := Analysis(t, k, n, dfBetween, dfWithin, dfTotal, summaries, grandMean,
                  ssWithin, ssBetween, ssTotal, msBetween, msWithin, estimate);
  }

  /**
   * The analysis. `log10` and `sqrt` stand for the numeric library's base-10
   * logarithm and square root; only the square root's defining property is
   * assumed. The result fails with a labelled cause wherever the computation
   * has no finite value.
   */
  method Analyse(rows: seq<Row>, logTransformed: bool, regularise: bool,
                 log10: real -> real, sqrt: real -> real) returns (r: Result<Analysis, Failure>)
    requires IsSquareRoot(sqrt)
    // preparation failures are passed on unchanged
    ensures Prepare(rows, logTransformed, regularise, log10).Failure? ==>
              r == Failure(Prepare(rows, logTransformed, regularise, log10).error)
    // otherwise the analysis fails exactly when a degree of freedom is zero
    ensures Prepare(rows, logTransformed, regularise, log10).Success? ==>
              var t := Prepare(rows, logTransformed, regularise, log10).value;
              (r.Failure? <==> |Distinct(Keys(t.rows))| < 2 || |t.rows| == |Distinct(Keys(t.rows))|) &&
              (r.Failure? && |Distinct(Keys(t.rows))| < 2 ==> r.error == TooFewSubjects) &&
              (r.Failure? && |Distinct(Keys(t.rows))| >= 2 ==> r.error == NoReplicates) &&
              (r.Success? ==> r.value.table == t)
    ensures r.Success? ==> Shaped(r.value) && Decomposed(r.value) && Estimated(r.value, sqrt)
    // a regularised design is balanced, so the divisor is the common count
    ensures r.Success? && regularise ==> r.value.estimate.divisor == MinCount(rows) as real
  {
    var prepared := Prepare(rows, logTransformed, regularise, log10);
    if prepared.Failure? {
      return Failure(prepared.error);
    }
    var t := prepared.value;
    var k := |Distinct(Keys(t.rows))|;
    if k < 2 {
      return Failure(TooFewSubjects);
    }
    if |t.rows| == k {
      return Failure(NoReplicates);
    }
    var a := Statistics(t, sqrt);
    if regularise {
      RegularisedDivisor(rows, logTransformed, log10, a.summaries);
    }
    r := Success(a);
  }
}
