/**
 * Grouping a column of values by a parallel column of subject keys, as a
 * group-by on the subject column does: the distinct subjects, the values of
 * one subject in row order, and the facts that the groups partition the column.
 */
module Grouping {
  import opened RealSums

  /** No subject occurs twice. */
  predicate NoDuplicates(ss: seq<int>)
  {
    forall i, j :: 0 <= i < j < |ss| ==> ss[i] != ss[j]
  }

  /** The distinct keys, in order of first appearance. */
  function Distinct(keys: seq<int>): (ss: seq<int>)
    ensures NoDuplicates(ss)
    ensures forall s :: s in ss <==> s in keys
    ensures |ss| <= |keys|
  {
    if keys == [] then []
    else
      var init, k := keys[..|keys| - 1], keys[|keys| - 1];
      assert keys == init + [k];
      var p := Distinct(init);
      if k in p then p else p + [k]
  }

  /** The values of the rows whose key is `s`, in row order. */
  function Select(keys: seq<int>, xs: seq<real>, s: int): (g: seq<real>)
    requires |keys| == |xs|
    ensures |g| <= |keys|
    ensures |g| > 0 <==> s in keys
  {
    if keys == [] then []
    else
      var init := keys[..|keys| - 1];
      assert keys == init + [keys[|keys| - 1]];
      Select(init, xs[..|xs| - 1], s) + (if keys[|keys| - 1] == s then [xs[|xs| - 1]] else [])
  }

  /** The groups of the subjects `ss`, one per subject, in the order of `ss`. */
  function Groups(keys: seq<int>, xs: seq<real>, ss: seq<int>): (gs: seq<seq<real>>)
    requires |keys| == |xs|
    ensures |gs| == |ss|
    ensures forall i :: 0 <= i < |ss| ==> gs[i] == Select(keys, xs, ss[i])
  {
    if ss == [] then []
    else Groups(keys, xs, ss[..|ss| - 1]) + [Select(keys, xs, ss[|ss| - 1])]
  }

  /** One group per distinct subject, as the group-by produces them; none is empty. */
  function GroupBy(keys: seq<int>, xs: seq<real>): (gs: seq<seq<real>>)
    requires |keys| == |xs|
    ensures |gs| == |Distinct(keys)|
    ensures AllNonEmpty(gs)
  {
    var ss := Distinct(keys);
    assert forall i :: 0 <= i < |ss| ==> ss[i] in keys;
    Groups(keys, xs, ss)
  }

  /** Every group holds at least one value. */
  predicate AllNonEmpty(gs: seq<seq<real>>)
  {
    forall i :: 0 <= i < |gs| ==> |gs[i]| > 0
  }

  /** The number of values over all groups. */
  function Sizes(gs: seq<seq<real>>): nat
  {
    if gs == [] then 0 else Sizes(gs[..|gs| - 1]) + |gs[|gs| - 1]|
  }

  /** The sum of the values over all groups. */
  function Sums(gs: seq<seq<real>>): real
  {
    if gs == [] then 0.0 else Sums(gs[..|gs| - 1]) + Sum(gs[|gs| - 1])
  }

  /** The squared deviations from one common centre `c`, over all groups. */
  function SqDevs(gs: seq<seq<real>>, c: real): real
  {
    if gs == [] then 0.0 else SqDevs(gs[..|gs| - 1], c) + SumSq(gs[|gs| - 1], c)
  }

  /** Appending one row to the table appends its value to its subject's group. */
  lemma SelectSnoc(keys: seq<int>, xs: seq<real>, k: int, x: real, s: int)
    requires |keys| == |xs|
    ensures Select(keys + [k], xs + [x], s) == Select(keys, xs, s) + (if k == s then [x] else [])
  {
    assert (keys + [k])[..|keys|] == keys;
    assert (xs + [x])[..|xs|] == xs;
  }

  lemma SumSnoc(g: seq<real>, x: real, c: real)
    ensures Sum(g + [x]) == Sum(g) + x
    ensures SumSq(g + [x], c) == SumSq(g, c) + SumSq([x], c)
  {
    assert (g + [x])[..|g|] == g;
    assert [x][..0] == [];
  }

  lemma GroupsSnoc(keys: seq<int>, xs: seq<real>, ss: seq<int>, k: int, x: real, c: real)
    requires |keys| == |xs| && NoDuplicates(ss)
    ensures Sizes(Groups(keys + [k], xs + [x], ss)) == Sizes(Groups(keys, xs, ss)) + (if k in ss then 1 else 0)
    ensures Sums(Groups(keys + [k], xs + [x], ss)) == Sums(Groups(keys, xs, ss)) + (if k in ss then x else 0.0)
    ensures SqDevs(Groups(keys + [k], xs + [x], ss), c)
         == SqDevs(Groups(keys, xs, ss), c) + (if k in ss then SumSq([x], c) else 0.0)
    decreases |ss|
  {
    if ss != [] {
      var p, s := ss[..|ss| - 1], ss[|ss| - 1];
      assert ss == p + [s];
      assert k in ss <==> k in p || k == s;
      assert k == s ==> k !in p;
      GroupsSnoc(keys, xs, p, k, x, c);
      var g, g' := Select(keys, xs, s), Select(keys + [k], xs + [x], s);
      SelectSnoc(keys, xs, k, x, s);
      SumSnoc(g, x, c);
      var before, after := Groups(keys, xs, ss), Groups(keys + [k], xs + [x], ss);
      assert before == Groups(keys, xs, p) + [g];
      assert after == Groups(keys + [k], xs + [x], p) + [g'];
      LastGroup(Groups(keys, xs, p), g, c);
      LastGroup(Groups(keys + [k], xs + [x], p), g', c);
      if k == s {
        assert g' == g + [x];
      } else {
        assert g' == g;
      }
    }
  }

  lemma LastGroup(gs: seq<seq<real>>, g: seq<real>, c: real)
    ensures Sizes(gs + [g]) == Sizes(gs) + |g|
    ensures Sums(gs + [g]) == Sums(gs) + Sum(g)
    ensures SqDevs(gs + [g], c) == SqDevs(gs, c) + SumSq(g, c)
  {
    assert (gs + [g])[..|gs|] == gs;
  }

  /** Appending one row adds its value to exactly one group of the group-by. */
  lemma GroupByStep(keys: seq<int>, xs: seq<real>, k: int, x: real, c: real)
    requires |keys| == |xs|
    ensures Sizes(GroupBy(keys + [k], xs + [x])) == Sizes(GroupBy(keys, xs)) + 1
    ensures Sums(GroupBy(keys + [k], xs + [x])) == Sums(GroupBy(keys, xs)) + x
    ensures SqDevs(GroupBy(keys + [k], xs + [x]), c) == SqDevs(GroupBy(keys, xs), c) + SumSq([x], c)
  {
    var keys', xs' := keys + [k], xs + [x];
    var p := Distinct(keys);
    assert keys'[..|keys|] == keys;
    GroupsSnoc(keys, xs, p, k, x, c);
    if k in p {
      assert Distinct(keys') == p;
    } else {
      assert Distinct(keys') == p + [k];
      assert Groups(keys', xs', p + [k]) == Groups(keys', xs', p) + [Select(keys', xs', k)];
      SelectSnoc(keys, xs, k, x, k);
      assert Select(keys, xs, k) == [];
      LastGroup(Groups(keys', xs', p), [x], c);
      SumSnoc([], x, c);
    }
  }

  /**
   * The groups partition the column: over all groups, the counts, the sums and
   * the squared deviations from any centre add up to those of the whole column.
   */
  lemma {:induction false} GroupByPartition(keys: seq<int>, xs: seq<real>, c: real)
    requires |keys| == |xs|
    ensures Sizes(GroupBy(keys, xs)) == |xs|
    ensures Sums(GroupBy(keys, xs)) == Sum(xs)
    ensures SqDevs(GroupBy(keys, xs), c) == SumSq(xs, c)
  {
    if keys != [] {
      var ks, k := keys[..|keys| - 1], keys[|keys| - 1];
      var vs, x := xs[..|xs| - 1], xs[|xs| - 1];
      assert keys == ks + [k] && xs == vs + [x];
      GroupByPartition(ks, vs, c);
      GroupByStep(ks, vs, k, x, c);
      SumSnoc(vs, x, c);
    }
  }
}
