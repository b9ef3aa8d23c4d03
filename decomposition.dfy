/**
 * Subject aggregation and the one-way analysis-of-variance decomposition of
 * the differences: per-subject count, sum, mean and squared count; the
 * within-subject, between-subject and total sums of squares, each computed by
 * an accumulator loop; and the identity that ties the three together.
 */
module Decomposition {
  import opened RealSums
  import opened Grouping

  /** One row of the per-subject aggregate table. */
  datatype Summary = Summary(subject: int, count: nat, sum: real, mean: real, countSqr: nat)

  /** The aggregate row of subject `s`, whose differences are `g`. */
  function Summarise(s: int, g: seq<real>): Summary
    requires |g| > 0
  {
    Summary(s, |g|, Sum(g), Mean(g), |g| * |g|)
  }

  /** The aggregate table: one row per group, subject `ss[i]` owning group `gs[i]`. */
  function Aggregate(ss: seq<int>, gs: seq<seq<real>>): (table: seq<Summary>)
    requires |ss| == |gs| && AllNonEmpty(gs)
    ensures |table| == |gs|
    ensures forall i :: 0 <= i < |gs| ==> table[i] == Summarise(ss[i], gs[i])
  {
    if gs == [] then []
    else Aggregate(ss[..|ss| - 1], gs[..|gs| - 1]) + [Summarise(ss[|ss| - 1], gs[|gs| - 1])]
  }

  /** Every aggregate row has a positive count and holds its square. */
  predicate WellFormed(table: seq<Summary>)
  {
    forall i :: 0 <= i < |table| ==> table[i].count >= 1 && table[i].countSqr == table[i].count * table[i].count
  }

  /** The total of the count column. */
  function CountTotal(table: seq<Summary>): nat
  {
    if table == [] then 0 else CountTotal(table[..|table| - 1]) + table[|table| - 1].count
  }

  /** The total of the sum column. */
  function SumTotal(table: seq<Summary>): real
  {
    if table == [] then 0.0 else SumTotal(table[..|table| - 1]) + table[|table| - 1].sum
  }

  /** The total of the squared-count column. */
  function CountSqrTotal(table: seq<Summary>): nat
  {
    if table == [] then 0 else CountSqrTotal(table[..|table| - 1]) + table[|table| - 1].countSqr
  }

  /** Within-subject sum of squares: deviations of each value from its own group's mean. */
  function Within(gs: seq<seq<real>>): real
    requires AllNonEmpty(gs)
  {
    if gs == [] then 0.0 else Within(gs[..|gs| - 1]) + SumSq(gs[|gs| - 1], Mean(gs[|gs| - 1]))
  }

  /** Between-subject sum of squares: count-weighted squared deviations of the group means from `c`. */
  function Between(table: seq<Summary>, c: real): real
  {
    if table == [] then 0.0
    else
      var a := table[|table| - 1];
      Between(table[..|table| - 1], c) + WeightedSq(a.count, a.mean, c)
  }

  /** Every aggregate row is consistent. */
  lemma AggregateWellFormed(ss: seq<int>, gs: seq<seq<real>>)
    requires |ss| == |gs| && AllNonEmpty(gs)
    ensures WellFormed(Aggregate(ss, gs))
  {
  }

  /** The count and sum columns of the aggregate table total the groups' sizes and sums. */
  lemma {:induction false} AggregateTotals(ss: seq<int>, gs: seq<seq<real>>)
    requires |ss| == |gs| && AllNonEmpty(gs)
    ensures CountTotal(Aggregate(ss, gs)) == Sizes(gs)
    ensures SumTotal(Aggregate(ss, gs)) == Sums(gs)
  {
    var table := Aggregate(ss, gs);
    if gs != [] {
      AggregateTotals(ss[..|ss| - 1], gs[..|gs| - 1]);
      assert table[..|table| - 1] == Aggregate(ss[..|ss| - 1], gs[..|gs| - 1]);
    }
  }

  lemma {:induction false} WithinNonNegative(gs: seq<seq<real>>)
    requires AllNonEmpty(gs)
    ensures Within(gs) >= 0.0
  {
    if gs != [] {
      WithinNonNegative(gs[..|gs| - 1]);
      SumSqNonNegative(gs[|gs| - 1], Mean(gs[|gs| - 1]));
    }
  }

  lemma {:induction false} BetweenNonNegative(table: seq<Summary>, c: real)
    ensures Between(table, c) >= 0.0
  {
    if table != [] {
      var a := table[|table| - 1];
      BetweenNonNegative(table[..|table| - 1], c);
      WeightedSqNonNegative(a.count, a.mean, c);
    }
  }

  /**
   * The one-way analysis-of-variance identity: about any centre `c`, the squared
   * deviations of all values split into the between-subject part and the
   * within-subject part.
   */
  lemma {:induction false} SumOfSquaresIdentity(ss: seq<int>, gs: seq<seq<real>>, c: real)
    requires |ss| == |gs| && AllNonEmpty(gs)
    ensures SqDevs(gs, c) == Between(Aggregate(ss, gs), c) + Within(gs)
  {
    if gs != [] {
      var ss', gs' := ss[..|ss| - 1], gs[..|gs| - 1];
      var g := gs[|gs| - 1];
      SumOfSquaresIdentity(ss', gs', c);
      var table := Aggregate(ss, gs);
      assert table[..|table| - 1] == Aggregate(ss', gs');
      SumSqAboutMean(g, c);
    }
  }

  /** The within-subject loop: for each group, the squared deviations from the group's mean. */
  method SquaredWithin(gs: seq<seq<real>>) returns (squaredWithin: real)
    requires AllNonEmpty(gs)
    ensures squaredWithin == Within(gs)
  {
    squaredWithin := 0.0;
    var i := 0;
    while i < |gs|
      invariant 0 <= i <= |gs|
      invariant squaredWithin == Within(gs[..i])
    {
      var group := gs[i];
      var groupMean := Sum(group) / (|group| as real);
      var squared := 0.0;
      var j := 0;
      while j < |group|
        invariant 0 <= j <= |group|
        invariant squared == SumSq(group[..j], groupMean)
      {
        squared := squared + (group[j] - groupMean) * (group[j] - groupMean);
        j := j + 1;
        assert group[..j][..j - 1] == group[..j - 1];
      }
      assert group[..|group|] == group;
      squaredWithin := squaredWithin + squared;
      i := i + 1;
      assert gs[..i][..i - 1] == gs[..i - 1];
    }
    assert gs[..|gs|] == gs;
  }

  /** The between-subject loop over the aggregate rows. */
  method SquaredBetween(table: seq<Summary>, grandMean: real) returns (ssBetween: real)
    ensures ssBetween == Between(table, grandMean)
  {
    ssBetween := 0.0;
    var i := 0;
    while i < |table|
      invariant 0 <= i <= |table|
      invariant ssBetween == Between(table[..i], grandMean)
    {
      var row := table[i];
      ssBetween := ssBetween + (row.count as real) * ((row.mean - grandMean) * (row.mean - grandMean));
      i := i + 1;
      assert table[..i][..i - 1] == table[..i - 1];
    }
    assert table[..|table|] == table;
  }

  /** The total loop over every difference in the table. */
  method SquaredTotal(diffs: seq<real>, grandMean: real) returns (squaredTotal: real)
    ensures squaredTotal == SumSq(diffs, grandMean)
  {
    squaredTotal := 0.0;
    var i := 0;
    while i < |diffs|
      invariant 0 <= i <= |diffs|
      invariant squaredTotal == SumSq(diffs[..i], grandMean)
    {
      squaredTotal := squaredTotal + (diffs[i] - grandMean) * (diffs[i] - grandMean);
      i := i + 1;
      assert diffs[..i][..i - 1] == diffs[..i - 1];
    }
    assert diffs[..|diffs|] == diffs;
  }
}
