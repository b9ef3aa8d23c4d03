/**
 * Data preparation: optional regularisation, then the per-row difference
 * between the two methods (of their base-10 logarithms when the analysis is
 * log-transformed) and the per-row average of the raw measurements.
 */
module Preparation {
  import opened Wrappers
  import opened Observations
  import Regularisation

  /** The input rows with the two derived columns added. */
  datatype Table = Table(rows: seq<Row>, diff: seq<real>, mean: seq<real>)

  /** Both measurements of a row are positive, so both have a logarithm. */
  predicate Positive(r: Row)
  {
    r.a > 0.0 && r.b > 0.0
  }

  /** The difference of one row: A − B, or log10(A) − log10(B). */
  function Diff(r: Row, logTransformed: bool, log10: real -> real): real
  {
    if logTransformed then log10(r.a) - log10(r.b) else r.a - r.b
  }

  /**
   * Adds the `diff` and `mean` columns. A log transform of a measurement that
   * is not positive has no finite value and fails the whole table.
   */
  function Differences(rows: seq<Row>, logTransformed: bool, log10: real -> real): (r: Result<Table, Failure>)
    ensures r.Failure? <==> logTransformed && exists i :: 0 <= i < |rows| && !Positive(rows[i])
    ensures r.Failure? ==> r.error == NonPositiveValue
    ensures r.Success? ==> r.value.rows == rows && |r.value.diff| == |rows| && |r.value.mean| == |rows|
    ensures r.Success? && !logTransformed ==>
              forall i :: 0 <= i < |rows| ==> r.value.diff[i] == rows[i].a - rows[i].b
    ensures r.Success? && logTransformed ==>
              forall i :: 0 <= i < |rows| ==>
                rows[i].a > 0.0 && rows[i].b > 0.0 && r.value.diff[i] == log10(rows[i].a) - log10(rows[i].b)
    ensures r.Success? ==> forall i :: 0 <= i < |rows| ==> r.value.mean[i] == (rows[i].a + rows[i].b) / 2.0
  {
    if logTransformed && exists i :: 0 <= i < |rows| && !Positive(rows[i]) then Failure(NonPositiveValue)
    else
      Success(Table(rows,
                    seq(|rows|, i requires 0 <= i < |rows| => Diff(rows[i], logTransformed, log10)),
                    seq(|rows|, i requires 0 <= i < |rows| => (rows[i].a + rows[i].b) / 2.0)))
  }

  /** Row `r` with the two methods' measurements exchanged. */
  function Swap(r: Row): Row
  {
    Row(r.subject, r.b, r.a)
  }

  /** Exchanging the two methods negates every difference and keeps every average. */
  lemma DifferencesAntisymmetric(rows: seq<Row>, logTransformed: bool, log10: real -> real)
    ensures var swapped := seq(|rows|, i requires 0 <= i < |rows| => Swap(rows[i]));
      Differences(swapped, logTransformed, log10).Success? == Differences(rows, logTransformed, log10).Success? &&
      (Differences(rows, logTransformed, log10).Success? ==>
        forall i :: 0 <= i < |rows| ==>
          Differences(swapped, logTransformed, log10).value.diff[i] == -Differences(rows, logTransformed, log10).value.diff[i] &&
          Differences(swapped, logTransformed, log10).value.mean[i] == Differences(rows, logTransformed, log10).value.mean[i])
  {
    var swapped := seq(|rows|, i requires 0 <= i < |rows| => Swap(rows[i]));
    assert forall i :: 0 <= i < |rows| ==> (Positive(swapped[i]) <==> Positive(rows[i]));
  }

  /** The table the estimator works on: regularised if asked, then differenced. */
  function Prepare(rows: seq<Row>, logTransformed: bool, regularise: bool, log10: real -> real): (r: Result<Table, Failure>)
    ensures !regularise ==> r == Differences(rows, logTransformed, log10)
    ensures regularise && rows == [] ==> r == Failure(EmptyTable)
    ensures regularise && rows != [] ==>
              r == Differences(Regularisation.Regularise(rows).value, logTransformed, log10)
    ensures r.Success? ==> |r.value.diff| == |r.value.rows| && |r.value.mean| == |r.value.rows|
    // a regularised table has the same number of rows for every subject
    ensures r.Success? && regularise ==>
              rows != [] && Regularisation.Balanced(r.value.rows, Regularisation.MinCount(rows))
  {
    if !regularise then Differences(rows, logTransformed, log10)
    else match Regularisation.Regularise(rows)
      case Failure(e) => Failure(e)
      case Success(kept) => Differences(kept, logTransformed, log10)
  }
}
