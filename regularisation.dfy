/**
 * Regularisation of the input table: every subject is cut down to the
 * smallest number of observations any subject has, keeping each subject's
 * first rows in table order, so that the design becomes balanced.
 */
module Regularisation {
  import opened Wrappers
  import opened Observations
  import Grouping

  /** The first `n` elements of `xs`, or all of them when there are fewer. */
  function Prefix(xs: seq<Row>, n: nat): seq<Row>
  {
    if |xs| <= n then xs else xs[..n]
  }

  /** The smallest row count among the subjects `ss`, all of which occur in `rows`. */
  function MinOver(rows: seq<Row>, ss: seq<int>): (n: nat)
    requires ss != []
    requires forall s :: s in ss ==> s in Keys(rows)
    ensures n >= 1
    ensures forall s :: s in ss ==> n <= |RowsOf(rows, s)|
    ensures exists s :: s in ss && n == |RowsOf(rows, s)|
  {
    var last := ss[|ss| - 1];
    assert last in ss;
    if |ss| == 1 then |RowsOf(rows, last)|
    else
      var init := ss[..|ss| - 1];
      assert ss == init + [last];
      var m := MinOver(rows, init);
      if |RowsOf(rows, last)| < m then |RowsOf(rows, last)| else m
  }

  /** The minimum number of observations per subject over a non-empty table. */
  function MinCount(rows: seq<Row>): (n: nat)
    requires rows != []
    ensures n >= 1
    ensures forall s :: s in Keys(rows) ==> n <= |RowsOf(rows, s)|
    ensures exists s :: s in Keys(rows) && n == |RowsOf(rows, s)|
  {
    var ss := Grouping.Distinct(Keys(rows));
    assert rows[0].subject in Keys(rows);
    MinOver(rows, ss)
  }

  /**
   * The rows that a per-subject head of size `n` keeps: a row stays when fewer
   * than `n` earlier rows belong to its subject. Kept rows keep their order.
   */
  function Head(rows: seq<Row>, n: nat): (r: seq<Row>)
    ensures |r| <= |rows|
  {
    if rows == [] then []
    else
      var init, last := rows[..|rows| - 1], rows[|rows| - 1];
      Head(init, n) + (if |RowsOf(init, last.subject)| < n then [last] else [])
  }

  /** Every subject occurs exactly `c` times. */
  predicate Balanced(rows: seq<Row>, c: nat)
  {
    forall s :: s in Keys(rows) ==> |RowsOf(rows, s)| == c
  }

  /** The head keeps, of each subject, exactly its first `n` rows in table order. */
  lemma {:induction false} HeadPerSubject(rows: seq<Row>, n: nat, s: int)
    ensures RowsOf(Head(rows, n), s) == Prefix(RowsOf(rows, s), n)
  {
    if rows != [] {
      var init, last := rows[..|rows| - 1], rows[|rows| - 1];
      HeadPerSubject(init, n, s);
      var kept := if |RowsOf(init, last.subject)| < n then [last] else [];
      RowsOfAppend(Head(init, n), kept, s);
      assert kept != [] ==> RowsOf(kept, s) == RowsOf([], s) + (if last.subject == s then [last] else []);
      if last.subject == s && kept != [] {
        assert RowsOf(kept, s) == [last];
      }
    }
  }

  /** A head at least as large as every subject's row count keeps the whole table. */
  lemma {:induction false} HeadKeepsAll(rows: seq<Row>, n: nat)
    requires forall s :: |RowsOf(rows, s)| <= n
    ensures Head(rows, n) == rows
  {
    if rows != [] {
      var init, last := rows[..|rows| - 1], rows[|rows| - 1];
      assert rows == init + [last];
      forall s ensures |RowsOf(init, s)| <= n {
        RowsOfAppend(init, [last], s);
      }
      HeadKeepsAll(init, n);
      RowsOfAppend(init, [last], last.subject);
      assert RowsOf([last], last.subject) == [last];
    }
  }

  /** `xs` is `ys` with some elements left out, the rest in their order. */
  predicate Subsequence(xs: seq<Row>, ys: seq<Row>)
    decreases |ys|
  {
    if ys == [] then xs == []
    else
      Subsequence(xs, ys[..|ys| - 1]) ||
      (xs != [] && xs[|xs| - 1] == ys[|ys| - 1] && Subsequence(xs[..|xs| - 1], ys[..|ys| - 1]))
  }

  /** The head only leaves rows out: the kept rows stay in table order across subjects. */
  lemma {:induction false} HeadInTableOrder(rows: seq<Row>, n: nat)
    ensures Subsequence(Head(rows, n), rows)
  {
    if rows != [] {
      var init, last := rows[..|rows| - 1], rows[|rows| - 1];
      HeadInTableOrder(init, n);
      var h := Head(rows, n);
      if |RowsOf(init, last.subject)| < n {
        assert h == Head(init, n) + [last];
        assert h[..|h| - 1] == Head(init, n) && h[|h| - 1] == last;
      } else {
        assert h == Head(init, n);
      }
    }
  }

  /**
   * Regularisation. The minimum of the per-subject counts of an empty table
   * does not exist, so an empty table fails.
   */
  function Regularise(rows: seq<Row>): (r: Result<seq<Row>, Failure>)
    ensures r.Failure? <==> rows == []
    ensures r.Failure? ==> r.error == EmptyTable
    ensures rows != [] ==> forall s :: RowsOf(r.value, s) == Prefix(RowsOf(rows, s), MinCount(rows))
    ensures rows != [] ==> forall s :: s in Keys(r.value) <==> s in Keys(rows)
    ensures rows != [] ==> Balanced(r.value, MinCount(rows))
    ensures rows != [] ==> Subsequence(r.value, rows)
  {
    if rows == [] then Failure(EmptyTable)
    else
      var n := MinCount(rows);
      HeadPreservesSubjects(rows, n);
      HeadInTableOrder(rows, n);
      Success(Head(rows, n))
  }

  lemma HeadPreservesSubjects(rows: seq<Row>, n: nat)
    requires rows != [] && n == MinCount(rows)
    ensures forall s :: RowsOf(Head(rows, n), s) == Prefix(RowsOf(rows, s), n)
    ensures forall s :: s in Keys(Head(rows, n)) <==> s in Keys(rows)
    ensures Balanced(Head(rows, n), n)
  {
    forall s
      ensures RowsOf(Head(rows, n), s) == Prefix(RowsOf(rows, s), n)
      ensures s in Keys(Head(rows, n)) <==> s in Keys(rows)
      ensures s in Keys(Head(rows, n)) ==> |RowsOf(Head(rows, n), s)| == n
    {
      HeadOfSubject(rows, n, s);
    }
  }

  /** What the head with the minimum count keeps of one subject. */
  lemma HeadOfSubject(rows: seq<Row>, n: nat, s: int)
    requires rows != [] && n == MinCount(rows)
    ensures RowsOf(Head(rows, n), s) == Prefix(RowsOf(rows, s), n)
    ensures s in Keys(Head(rows, n)) <==> s in Keys(rows)
    ensures s in Keys(Head(rows, n)) ==> |RowsOf(Head(rows, n), s)| == n
  {
    HeadPerSubject(rows, n, s);
    if s in Keys(rows) {
      assert |RowsOf(rows, s)| >= n;
    } else {
      assert RowsOf(rows, s) == [];
    }
  }

  /** A table that is already balanced is returned unchanged. */
  lemma RegulariseKeepsBalanced(rows: seq<Row>, c: nat)
    requires rows != [] && Balanced(rows, c)
    ensures Regularise(rows) == Success(rows)
  {
    var n := MinCount(rows);
    assert n == c;
    forall s ensures |RowsOf(rows, s)| <= n {
      if s !in Keys(rows) {
        assert |RowsOf(rows, s)| == 0;
      }
    }
    HeadKeepsAll(rows, n);
  }

  /** Regularising twice is the same as regularising once. */
  lemma RegulariseIdempotent(rows: seq<Row>)
    requires rows != []
    ensures Regularise(Regularise(rows).value) == Regularise(rows)
  {
    var r := Regularise(rows).value;
    assert rows[0].subject in Keys(r);
    RegulariseKeepsBalanced(r, MinCount(rows));
  }
}
