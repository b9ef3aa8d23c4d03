/**
 * The input table of the agreement analysis: one row per paired observation,
 * with the subject it belongs to and the two methods' measurements, and the
 * labelled causes for which the analysis produces no finite result.
 */
module Observations {

  /** One paired observation: `a` is method A's measurement, `b` method B's. */
  datatype Row = Row(subject: int, a: real, b: real)

  /** Why an analysis yields no finite result. */
  datatype Failure =
    | EmptyTable        // regularisation asked for the minimum count of no subjects
    | NonPositiveValue  // a log transform of a measurement that is not positive
    | TooFewSubjects    // fewer than two subjects: no between-subject degree of freedom
    | NoReplicates      // one observation per subject: no within-subject degree of freedom

  /** The subject column. */
  function Keys(rows: seq<Row>): (ks: seq<int>)
    ensures |ks| == |rows|
    ensures forall i :: 0 <= i < |rows| ==> ks[i] == rows[i].subject
  {
    if rows == [] then [] else Keys(rows[..|rows| - 1]) + [rows[|rows| - 1].subject]
  }

  /** The rows of subject `s`, in table order. */
  function RowsOf(rows: seq<Row>, s: int): (r: seq<Row>)
    ensures |r| <= |rows|
    ensures |r| > 0 <==> s in Keys(rows)
    ensures forall i :: 0 <= i < |r| ==> r[i].subject == s
  {
    if rows == [] then []
    else
      var init, last := rows[..|rows| - 1], rows[|rows| - 1];
      assert Keys(rows) == Keys(init) + [last.subject];
      RowsOf(init, s) + (if last.subject == s then [last] else [])
  }

  lemma {:induction false} RowsOfAppend(xs: seq<Row>, ys: seq<Row>, s: int)
    ensures RowsOf(xs + ys, s) == RowsOf(xs, s) + RowsOf(ys, s)
    decreases |ys|
  {
    if ys == [] {
      assert xs + ys == xs;
    } else {
      var zs, init, last := xs + ys, ys[..|ys| - 1], ys[|ys| - 1];
      var tail := if last.subject == s then [last] else [];
      assert zs[..|zs| - 1] == xs + init && zs[|zs| - 1] == last;
      calc {
        RowsOf(zs, s);
        RowsOf(xs + init, s) + tail;
        { RowsOfAppend(xs, init, s); }
        (RowsOf(xs, s) + RowsOf(init, s)) + tail;
        RowsOf(xs, s) + (RowsOf(init, s) + tail);
        RowsOf(xs, s) + RowsOf(ys, s);
      }
    }
  }
}
