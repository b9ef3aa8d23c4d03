/**
 * Classification statistics from a confusion matrix of counts: `m[r][c]`
 * counts the examples whose true class is `r` and whose predicted class is
 * `c`. The three classes A, B and C are indices 0, 1 and 2. A ratio whose
 * denominator is zero has no value (`None`).
 */
module EvaluationStatistics {
  import opened Wrappers

  /** Rows are true classes, columns predicted classes. */
  type Matrix = seq<seq<nat>>

  /** A rectangular matrix with at least the three classes on each axis. */
  predicate IsMatrix(m: Matrix)
  {
    |m| >= 3 && |m[0]| >= 3 && forall r :: 0 <= r < |m| ==> |m[r]| == |m[0]|
  }

  /** Every row has at least `n` columns. */
  predicate Wide(m: Matrix, n: nat)
  {
    forall r :: 0 <= r < |m| ==> n <= |m[r]|
  }

  /** A ratio of counts; it is undefined when the denominator is zero. */
  function Ratio(num: nat, den: nat): (q: Option<real>)
    ensures q.Some? <==> den > 0
  {
    if den == 0 then None else Some((num as real) / (den as real))
  }

  /** A ratio that lies in the unit interval whenever it has a value. */
  predicate InUnit(q: Option<real>)
  {
    q.Some? ==> 0.0 <= q.value <= 1.0
  }

  /** A part over its whole lies in the unit interval. */
  lemma RatioInUnit(num: nat, den: nat)
    requires num <= den
    ensures InUnit(Ratio(num, den))
  {
  }

  /** The cells of row `r` in the first `n` columns. */
  function RowSum(m: Matrix, r: nat, n: nat): nat
    requires r < |m| && n <= |m[r]|
  {
    if n == 0 then 0 else RowSum(m, r, n - 1) + m[r][n - 1]
  }

  /** The cells of row `r` in the first `n` columns, leaving out column `i`. */
  function RowSumExcept(m: Matrix, r: nat, i: nat, n: nat): nat
    requires r < |m| && n <= |m[r]|
  {
    if n == 0 then 0 else RowSumExcept(m, r, i, n - 1) + (if n - 1 == i then 0 else m[r][n - 1])
  }

  /** The cells of column `j` in the first `p` rows. */
  function ColumnSum(m: Matrix, j: nat, p: nat): nat
    requires p <= |m| && Wide(m, j + 1)
  {
    if p == 0 then 0 else ColumnSum(m, j, p - 1) + m[p - 1][j]
  }

  /** The cells of column `j` in the first `p` rows, leaving out row `j`: the false positives of class `j`. */
  function ColumnSumExcept(m: Matrix, j: nat, p: nat): nat
    requires p <= |m| && Wide(m, j + 1)
  {
    if p == 0 then 0 else ColumnSumExcept(m, j, p - 1) + (if p - 1 == j then 0 else m[p - 1][j])
  }

  /** All cells of the first `p` rows and `n` columns. */
  function Total(m: Matrix, p: nat, n: nat): nat
    requires p <= |m| && Wide(m, n)
  {
    if p == 0 then 0 else Total(m, p - 1, n) + RowSum(m, p - 1, n)
  }

  /** The cells of the first `p` rows and `n` columns outside row `i` and column `i`. */
  function TrueNegatives(m: Matrix, i: nat, p: nat, n: nat): nat
    requires p <= |m| && Wide(m, n)
  {
    if p == 0 then 0
    else TrueNegatives(m, i, p - 1, n) + (if p - 1 == i then 0 else RowSumExcept(m, p - 1, i, n))
  }

  /** The diagonal cells of the first `n` classes: the correct classifications. */
  function Trace(m: Matrix, n: nat): nat
    requires n <= |m| && Wide(m, n)
  {
    if n == 0 then 0 else Trace(m, n - 1) + m[n - 1][n - 1]
  }

  /** A row is its cell in column `i` plus the rest of it. */
  lemma {:induction false} RowSplit(m: Matrix, r: nat, i: nat, n: nat)
    requires r < |m| && n <= |m[r]|
    ensures RowSum(m, r, n) == RowSumExcept(m, r, i, n) + (if i < n then m[r][i] else 0)
  {
    if n > 0 {
      RowSplit(m, r, i, n - 1);
    }
  }

  /** A column is its diagonal cell plus its false positives. */
  lemma {:induction false} ColumnSplit(m: Matrix, j: nat, p: nat)
    requires p <= |m| && Wide(m, j + 1)
    ensures ColumnSum(m, j, p) == ColumnSumExcept(m, j, p) + (if j < p then m[j][j] else 0)
  {
    if p > 0 {
      ColumnSplit(m, j, p - 1);
    }
  }

  /**
   * Counting the first `p` rows: the cells outside row and column `i`, plus
   * column `i`, plus the rest of row `i` (when row `i` is among them) are
   * every cell once.
   */
  lemma {:induction false} PartitionRows(m: Matrix, i: nat, p: nat, n: nat)
    requires p <= |m| && Wide(m, n) && i < n
    ensures TrueNegatives(m, i, p, n) + ColumnSum(m, i, p) + (if i < p then RowSumExcept(m, i, i, n) else 0)
            == Total(m, p, n)
  {
    if p > 0 {
      PartitionRows(m, i, p - 1, n);
      RowSplit(m, p - 1, i, n);
    }
  }

  /**
   * In a square block of `n` classes, for each class `i` the true negatives,
   * the row of `i` and the column of `i` cover every cell, the diagonal cell twice.
   */
  lemma ConfusionIdentity(m: Matrix, i: nat, n: nat)
    requires n <= |m| && Wide(m, n) && i < n
    ensures TrueNegatives(m, i, n, n) + RowSum(m, i, n) + ColumnSum(m, i, n) == Total(m, n, n) + m[i][i]
  {
    PartitionRows(m, i, n, n);
    RowSplit(m, i, i, n);
  }

  /** One class against the rest: tp + fn + fp + tn is every classification. */
  lemma OneVsRest(m: Matrix, i: nat, n: nat)
    requires n <= |m| && Wide(m, n) && i < n
    ensures m[i][i] + RowSumExcept(m, i, i, n) + ColumnSumExcept(m, i, n) + TrueNegatives(m, i, n, n)
            == Total(m, n, n)
  {
    ConfusionIdentity(m, i, n);
    RowSplit(m, i, i, n);
    ColumnSplit(m, i, n);
  }

  /** A cell is at most its row's sum. */
  lemma {:induction false} CellWithinRow(m: Matrix, r: nat, c: nat, n: nat)
    requires r < |m| && n <= |m[r]| && c < n
    ensures m[r][c] <= RowSum(m, r, n)
  {
    RowSplit(m, r, c, n);
  }

  /** The diagonal of the first `n` classes is at most the cells of those rows. */
  lemma {:induction false} TraceWithinRows(m: Matrix, n: nat, w: nat)
    requires n <= |m| && n <= w && Wide(m, w)
    ensures Trace(m, n) <= Total(m, n, w)
  {
    if n > 0 {
      TraceWithinRows(m, n - 1, w);
      CellWithinRow(m, n - 1, n - 1, w);
    }
  }

  /** Adding rows never lowers the total. */
  lemma {:induction false} TotalMonotone(m: Matrix, p: nat, q: nat, n: nat)
    requires p <= q <= |m| && Wide(m, n)
    ensures Total(m, p, n) <= Total(m, q, n)
    decreases q - p
  {
    if p < q {
      TotalMonotone(m, p + 1, q, n);
    }
  }

  /** The generic sums of the 3×3 block written out cell by cell. */
  lemma ThreeClasses(m: Matrix)
    requires IsMatrix(m)
    ensures Trace(m, 3) == m[0][0] + m[1][1] + m[2][2]
    ensures ColumnSum(m, 0, 3) == m[0][0] + m[1][0] + m[2][0]
    ensures ColumnSum(m, 1, 3) == m[0][1] + m[1][1] + m[2][1]
    ensures ColumnSum(m, 2, 3) == m[0][2] + m[1][2] + m[2][2]
    ensures RowSum(m, 0, 3) == m[0][0] + m[0][1] + m[0][2]
    ensures RowSum(m, 1, 3) == m[1][0] + m[1][1] + m[1][2]
    ensures RowSum(m, 2, 3) == m[2][0] + m[2][1] + m[2][2]
    ensures ColumnSumExcept(m, 0, 3) == m[1][0] + m[2][0]
    ensures ColumnSumExcept(m, 1, 3) == m[0][1] + m[2][1]
    ensures ColumnSumExcept(m, 2, 3) == m[0][2] + m[1][2]
    ensures TrueNegatives(m, 0, 3, 3) == m[1][1] + m[1][2] + m[2][1] + m[2][2]
    ensures TrueNegatives(m, 1, 3, 3) == m[0][0] + m[0][2] + m[2][0] + m[2][2]
    ensures TrueNegatives(m, 2, 3, 3) == m[0][0] + m[0][1] + m[1][0] + m[1][1]
  {
    assert Wide(m, 3);
    assert Trace(m, 1) == m[0][0];
    assert forall j :: 0 <= j < 3 ==> ColumnSum(m, j, 1) == m[0][j];
    assert forall j :: 0 <= j < 3 ==> ColumnSumExcept(m, j, 1) == (if j == 0 then 0 else m[0][j]);
    assert forall r :: 0 <= r < 3 ==> RowSum(m, r, 1) == m[r][0];
    assert forall r, i :: 0 <= r < 3 && 0 <= i < 3 ==>
      RowSumExcept(m, r, i, 3) == RowSum(m, r, 3) - m[r][i] by {
      forall r, i | 0 <= r < 3 && 0 <= i < 3 ensures RowSumExcept(m, r, i, 3) == RowSum(m, r, 3) - m[r][i] {
        RowSplit(m, r, i, 3);
      }
    }
    assert forall i :: 0 <= i < 3 ==> TrueNegatives(m, i, 1, 3) == (if i == 0 then 0 else RowSumExcept(m, 0, i, 3));
  }

  /** Precision of class `i`: its correct predictions over all predictions of `i`. */
  function Precision(m: Matrix, i: nat): Option<real>
    requires IsMatrix(m) && i < 3
  {
    Ratio(m[i][i], ColumnSum(m, i, 3))
  }

  /** Sensitivity (recall) of class `i`: its correct predictions over all examples of `i`. */
  function Sensitivity(m: Matrix, i: nat): Option<real>
    requires IsMatrix(m) && i < 3
  {
    Ratio(m[i][i], RowSum(m, i, 3))
  }

  /** Specificity of class `i`: true negatives over true negatives plus false positives. */
  function Specificity(m: Matrix, i: nat): Option<real>
    requires IsMatrix(m) && i < 3
  {
    Ratio(TrueNegatives(m, i, 3, 3), TrueNegatives(m, i, 3, 3) + ColumnSumExcept(m, i, 3))
  }

  /** The generic per-class statistics, written with the cells in the order the named formulas add them. */
  lemma NamedCells(m: Matrix)
    requires IsMatrix(m)
    ensures Trace(m, 3) == m[0][0] + m[1][1] + m[2][2]
    ensures Precision(m, 0) == Ratio(m[0][0], m[0][0] + m[1][0] + m[2][0])
    ensures Precision(m, 1) == Ratio(m[1][1], m[1][1] + m[0][1] + m[2][1])
    ensures Precision(m, 2) == Ratio(m[2][2], m[2][2] + m[0][2] + m[1][2])
    ensures Sensitivity(m, 0) == Ratio(m[0][0], m[0][0] + m[0][1] + m[0][2])
    ensures Sensitivity(m, 1) == Ratio(m[1][1], m[1][1] + m[1][0] + m[1][2])
    ensures Sensitivity(m, 2) == Ratio(m[2][2], m[2][2] + m[2][0] + m[2][1])
    ensures Specificity(m, 0) == Ratio(m[1][1] + m[1][2] + m[2][1] + m[2][2],
                                       m[1][1] + m[1][2] + m[2][1] + m[2][2] + m[1][0] + m[2][0])
    ensures Specificity(m, 1) == Ratio(m[0][0] + m[0][2] + m[2][0] + m[2][2],
                                       m[0][0] + m[0][2] + m[2][0] + m[2][2] + m[0][1] + m[2][1])
    ensures Specificity(m, 2) == Ratio(m[0][0] + m[0][1] + m[1][0] + m[1][1],
                                       m[0][0] + m[0][1] + m[1][0] + m[1][1] + m[0][2] + m[1][2])
  {
    ThreeClasses(m);
  }

  /** The statistics returned for the three classes, each list in class order A, B, C. */
  datatype Stats = Stats(
    accuracy: Option<real>,
    precision: seq<Option<real>>,
    recall: seq<Option<real>>,
    sensitivity: seq<Option<real>>,
    specificity: seq<Option<real>>)

  /**
   * Accuracy, and per class precision, recall (= sensitivity) and
   * specificity, computed from the named cells of the 3×3 block; the
   * accuracy's denominator counts every cell of the matrix.
   */
  function Calculate(m: Matrix): (s: Stats)
    requires IsMatrix(m)
    ensures |s.precision| == |s.sensitivity| == |s.specificity| == 3
    ensures s.recall == s.sensitivity
    ensures s.accuracy == Ratio(Trace(m, 3), Total(m, |m|, |m[0]|))
    ensures s.precision == [Precision(m, 0), Precision(m, 1), Precision(m, 2)]
    ensures s.sensitivity == [Sensitivity(m, 0), Sensitivity(m, 1), Sensitivity(m, 2)]
    ensures s.specificity == [Specificity(m, 0), Specificity(m, 1), Specificity(m, 2)]
  {
    var tpa, tpb, tpc := m[0][0], m[1][1], m[2][2];
    var eab, eac := m[0][1], m[0][2];
    var eba, ebc := m[1][0], m[1][2];
    var eca, ecb := m[2][0], m[2][1];

    NamedCells(m);
    var total := Total(m, |m|, |m[0]|);
    var accuracy := Ratio(tpa + tpb + tpc, total);

    var precisionA := Ratio(tpa, tpa + eba + eca);
    var sensitivityA := Ratio(tpa, tpa + eab + eac);
    var tna := tpb + ebc + ecb + tpc;
    var specificityA := Ratio(tna, tna + eba + eca);

    var precisionB := Ratio(tpb, tpb + eab + ecb);
    var sensitivityB := Ratio(tpb, tpb + eba + ebc);
    var tnb := tpa + eac + eca + tpc;
    var specificityB := Ratio(tnb, tnb + eab + ecb);

    var precisionC := Ratio(tpc, tpc + eac + ebc);
    var sensitivityC := Ratio(tpc, tpc + eca + ecb);
    var tnc := tpa + eab + eba + tpb;
    var specificityC := Ratio(tnc, tnc + eac + ebc);

    Stats(accuracy,
          [precisionA, precisionB, precisionC],
          [sensitivityA, sensitivityB, sensitivityC],
          [sensitivityA, sensitivityB, sensitivityC],
          [specificityA, specificityB, specificityC])
  }

  /** Every statistic lies in the unit interval whenever its denominator is positive. */
  lemma StatsInUnit(m: Matrix)
    requires IsMatrix(m)
    ensures InUnit(Calculate(m).accuracy)
    ensures forall i :: 0 <= i < 3 ==>
              InUnit(Calculate(m).precision[i]) && InUnit(Calculate(m).sensitivity[i]) &&
              InUnit(Calculate(m).specificity[i])
  {
    assert Wide(m, |m[0]|);
    TraceWithinRows(m, 3, |m[0]|);
    TotalMonotone(m, 3, |m|, |m[0]|);
    RatioInUnit(Trace(m, 3), Total(m, |m|, |m[0]|));
    forall i | 0 <= i < 3
      ensures InUnit(Precision(m, i)) && InUnit(Sensitivity(m, i)) && InUnit(Specificity(m, i))
    {
      ColumnSplit(m, i, 3);
      CellWithinRow(m, i, i, 3);
      RatioInUnit(m[i][i], ColumnSum(m, i, 3));
      RatioInUnit(m[i][i], RowSum(m, i, 3));
      RatioInUnit(TrueNegatives(m, i, 3, 3), TrueNegatives(m, i, 3, 3) + ColumnSumExcept(m, i, 3));
    }
  }
}
