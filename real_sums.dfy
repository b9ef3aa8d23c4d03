/**
 * Finite sums over sequences of reals: the plain sum, the sum of squares and
 * the sum of squared deviations from a centre, with the algebra the analysis
 * of variance rests on. All sums run from the front to the back, so the last
 * element is peeled off, as an accumulator loop that walks left to right does.
 */
module RealSums {

  /** The sum of the elements of `xs`. */
  function Sum(xs: seq<real>): real
  {
    if xs == [] then 0.0 else Sum(xs[..|xs| - 1]) + xs[|xs| - 1]
  }

  /**
   * The number of elements of `xs`, as a real, counted by recursion like the
   * sums; CountIsLength shows it is the length. The algebra below is stated
   * with it to keep integer-to-real conversions out of the products.
   */
  function Count(xs: seq<real>): real
  {
    if xs == [] then 0.0 else Count(xs[..|xs| - 1]) + 1.0
  }

  /** The sum of squared deviations of the elements of `xs` from the centre `c`. */
  function SumSq(xs: seq<real>, c: real): real
  {
    if xs == [] then 0.0
    else SumSq(xs[..|xs| - 1], c) + (xs[|xs| - 1] - c) * (xs[|xs| - 1] - c)
  }

  /** A sum of squared deviations is never negative. */
  lemma {:induction false} SumSqNonNegative(xs: seq<real>, c: real)
    ensures SumSq(xs, c) >= 0.0
  {
    if xs != [] {
      SumSqNonNegative(xs[..|xs| - 1], c);
      SquareNonNegative(xs[|xs| - 1] - c);
    }
  }

  /** A weighted square is never negative. */
  lemma WeightedSqNonNegative(n: nat, m: real, c: real)
    ensures WeightedSq(n, m, c) >= 0.0
  {
    SquareNonNegative(m - c);
    assert WeightedSq(n, m, c) == (n as real) * ((m - c) * (m - c));
  }

  /** Proof step: a square is never negative. */
  lemma SquareNonNegative(d: real)
    ensures d * d >= 0.0
  {
    if d < 0.0 {
      assert d * d == (-d) * (-d);
    }
  }

  /** `n` times the squared distance between `m` and the centre `c`. */
  function WeightedSq(n: nat, m: real, c: real): real
  {
    (n as real) * (m - c) * (m - c)
  }

  /** The arithmetic mean of a non-empty sequence. */
  function Mean(xs: seq<real>): real
    requires |xs| > 0
  {
    Sum(xs) / (|xs| as real)
  }

  /**
   * The deviations from any centre `c` split into the deviations from the
   * mean plus n times the squared distance between the mean and `c`.
   */
  lemma {:induction false} SumSqAboutMean(xs: seq<real>, c: real)
    requires |xs| > 0
    ensures SumSq(xs, c) == SumSq(xs, Mean(xs)) + WeightedSq(|xs|, Mean(xs), c)
  {
    var mu := Mean(xs);
    MeanTimesCount(xs);
    ShiftCentre(xs, c, mu);
    CountIsLength(xs);
    DropBalanced(SumSq(xs, c), SumSq(xs, mu), Sum(xs), Count(xs), |xs|, mu, c);
  }

  /** Moving the centre from `c` to `mu` changes the deviations by (mu − c)(2Σx − n(mu + c)). */
  lemma {:induction false} ShiftCentre(xs: seq<real>, c: real, mu: real)
    ensures SumSq(xs, c) == SumSq(xs, mu) + (mu - c) * (2.0 * Sum(xs) - Count(xs) * (mu + c))
  {
    if xs == [] {
      ShiftNone(SumSq(xs, c), SumSq(xs, mu), Sum(xs), Count(xs), c, mu);
    } else {
      var init, x := xs[..|xs| - 1], xs[|xs| - 1];
      ShiftCentre(init, c, mu);
      ShiftOne(SumSq(init, c), SumSq(init, mu), Sum(init), Count(init), x, c, mu,
               SumSq(xs, c), SumSq(xs, mu), Sum(xs), Count(xs));
    }
  }

  /** The real count is the length. */
  lemma {:induction false} CountIsLength(xs: seq<real>)
    ensures Count(xs) == |xs| as real
  {
    if xs != [] {
      CountIsLength(xs[..|xs| - 1]);
    }
  }

  /** The mean times the count gives back the sum. */
  lemma MeanTimesCount(xs: seq<real>)
    requires |xs| > 0
    ensures Sum(xs) == Count(xs) * Mean(xs)
  {
    CountIsLength(xs);
    DivisionInverse(Sum(xs), Count(xs));
  }

  /** Proof step of MeanTimesCount: multiplying back undoes a division. */
  lemma DivisionInverse(s: real, n: real)
    requires n > 0.0
    ensures s == n * (s / n)
  {
  }

  /** Proof step of ShiftCentre: the identity for no elements, on plain reals. */
  lemma ShiftNone(a: real, b: real, s: real, n: real, c: real, mu: real)
    requires a == 0.0 && b == 0.0 && s == 0.0 && n == 0.0
    ensures a == b + (mu - c) * (2.0 * s - n * (mu + c))
  {
  }

  /** Proof step of ShiftCentre: one more element, on plain reals. */
  lemma ShiftOne(a': real, b': real, s': real, n': real, x: real, c: real, mu: real,
                 a: real, b: real, s: real, n: real)
    requires a' == b' + (mu - c) * (2.0 * s' - n' * (mu + c))
    requires a == a' + (x - c) * (x - c) && b == b' + (x - mu) * (x - mu)
    requires s == s' + x && n == n' + 1.0
    ensures a == b + (mu - c) * (2.0 * s - n * (mu + c))
  {
  }

  /**
   * Proof step of SumSqAboutMean: when the sum is n times the centre `mu`,
   * the shift term is n(mu − c)², here with the real count `n` equal to the natural count `k`.
   */
  lemma DropBalanced(a: real, b: real, s: real, n: real, k: nat, mu: real, c: real)
    requires n == k as real
    requires s == n * mu
    requires a == b + (mu - c) * (2.0 * s - n * (mu + c))
    ensures a == b + WeightedSq(k, mu, c)
  {
    assert a == b + n * (mu - c) * (mu - c);
  }
}
