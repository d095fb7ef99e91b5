/**
 * Grouping consecutive elements by a key, as `itertools.groupby` does and as the
 * depth-file chunker does by hand: a run partition of the input.
 */
module Grouping {

  function Last<T>(s: seq<T>): T
    requires s != []
  {
    s[|s| - 1]
  }

  /** The concatenation of the groups, in order. */
  function Flatten<T>(groups: seq<seq<T>>): seq<T>
  {
    if groups == [] then [] else Flatten(groups[..|groups| - 1]) + Last(groups)
  }

  /** Every element of `g` has the key of its first element. */
  ghost predicate SameKey<T, K>(g: seq<T>, key: T -> K)
    requires g != []
  {
    forall i :: 0 <= i < |g| ==> key(g[i]) == key(g[0])
  }

  /**
   * `groups` cuts `xs` into maximal runs of equal key: read in order they give back
   * `xs`, none is empty, each has one key, and neighbouring runs have different keys.
   */
  ghost predicate IsRunPartition<T, K>(xs: seq<T>, groups: seq<seq<T>>, key: T -> K)
  {
    && Flatten(groups) == xs
    && (forall i :: 0 <= i < |groups| ==> groups[i] != [] && SameKey(groups[i], key))
    && (forall i :: 0 <= i < |groups| - 1 ==> key(groups[i][0]) != key(groups[i + 1][0]))
  }

  /** `[list(g) for _, g in groupby(xs, key)]`. */
  function GroupBy<T, K(==)>(xs: seq<T>, key: T -> K): (groups: seq<seq<T>>)
    ensures |groups| <= |xs|
    ensures xs != [] ==> groups != []
    ensures forall i :: 0 <= i < |groups| ==> groups[i] != []
  {
    if xs == [] then []
    else
      var groups := GroupBy(xs[..|xs| - 1], key);
      var x := Last(xs);
      if groups != [] && key(Last(groups)[0]) == key(x) then
        groups[..|groups| - 1] + [Last(groups) + [x]]
      else
        groups + [[x]]
  }

  /**
   * Appending one element either extends the last run or opens a new run
   * headed by it; the earlier runs keep their heads.
   */
  lemma GroupBySnoc<T, K>(xs: seq<T>, key: T -> K)
    requires xs != []
    ensures var g := GroupBy(xs[..|xs| - 1], key);
      var r := GroupBy(xs, key);
      && |g| <= |r|
      && (forall a :: 0 <= a < |g| ==> r[a][0] == g[a][0])
      && if g != [] && key(Last(g)[0]) == key(Last(xs)) then |r| == |g| else |r| == |g| + 1 && Last(r)[0] == Last(xs)
  {
    var g := GroupBy(xs[..|xs| - 1], key);
    var x := Last(xs);
    if g != [] && key(Last(g)[0]) == key(x) {
      var r := g[..|g| - 1] + [Last(g) + [x]];
      assert GroupBy(xs, key) == r;
      forall a | 0 <= a < |g|
        ensures r[a][0] == g[a][0]
      {
        if a < |g| - 1 {
          assert r[a] == g[a];
        } else {
          assert r[a] == g[a] + [x];
        }
      }
    } else {
      var r := g + [[x]];
      assert GroupBy(xs, key) == r;
      forall a | 0 <= a < |g|
        ensures r[a][0] == g[a][0]
      {
        assert r[a] == g[a];
      }
    }
  }

  lemma FlattenSnoc<T>(groups: seq<seq<T>>, g: seq<T>)
    ensures Flatten(groups + [g]) == Flatten(groups) + g
  {
    assert (groups + [g])[..|groups|] == groups;
  }

  /** An element with the key of the last run joins that run. */
  lemma ExtendLastRun<T, K>(xs: seq<T>, groups: seq<seq<T>>, key: T -> K, x: T)
    requires IsRunPartition(xs, groups, key)
    requires groups != [] && key(Last(groups)[0]) == key(x)
    ensures IsRunPartition(xs + [x], groups[..|groups| - 1] + [Last(groups) + [x]], key)
  {
    var n := |groups|;
    var front := groups[..n - 1];
    var r := front + [Last(groups) + [x]];
    assert groups == front + [Last(groups)];
    FlattenSnoc(front, Last(groups));
    FlattenSnoc(front, Last(groups) + [x]);
    assert SameKey(groups[n - 1], key);
    assert SameKey(r[n - 1], key);
    forall i | 0 <= i < n - 1
      ensures r[i] == groups[i]
    {
    }
    assert r[n - 1][0] == groups[n - 1][0];
  }

  /** An element with another key than the last run starts a new run. */
  lemma StartNewRun<T, K>(xs: seq<T>, groups: seq<seq<T>>, key: T -> K, x: T)
    requires IsRunPartition(xs, groups, key)
    requires groups == [] || key(Last(groups)[0]) != key(x)
    ensures IsRunPartition(xs + [x], groups + [[x]], key)
  {
    FlattenSnoc(groups, [x]);
    var r := groups + [[x]];
    forall i | 0 <= i < |groups|
      ensures r[i] == groups[i]
    {
    }
  }

  /** What `groupby` yields is a run partition of its input. */
  lemma {:induction false} GroupByIsRunPartition<T, K>(xs: seq<T>, key: T -> K)
    ensures IsRunPartition(xs, GroupBy(xs, key), key)
  {
    if xs != [] {
      var prefix := xs[..|xs| - 1];
      var x := Last(xs);
      var groups := GroupBy(prefix, key);
      GroupByIsRunPartition(prefix, key);
      assert prefix + [x] == xs;
      if groups != [] && key(Last(groups)[0]) == key(x) {
        ExtendLastRun(prefix, groups, key, x);
      } else {
        StartNewRun(prefix, groups, key, x);
      }
    }
  }

  /** Removing a last run of one element leaves a run partition of the rest. */
  lemma DropLastRun<T, K>(xs: seq<T>, groups: seq<seq<T>>, key: T -> K)
    requires IsRunPartition(xs, groups, key)
    requires groups != [] && |Last(groups)| == 1
    ensures xs != [] && IsRunPartition(xs[..|xs| - 1], groups[..|groups| - 1], key)
    ensures groups == groups[..|groups| - 1] + [[Last(xs)]]
  {
    var n := |groups|;
    var front := groups[..n - 1];
    assert groups == front + [Last(groups)];
    assert groups[n - 1] != [];
    assert xs == Flatten(front) + Last(groups);
    assert Last(groups) == [Last(xs)];
    assert Flatten(front) == xs[..|xs| - 1];
    forall i | 0 <= i < |front|
      ensures front[i] == groups[i]
    {
    }
  }

  /** Removing the last element of a longer last run leaves a run partition of the rest. */
  lemma ShrinkLastRun<T, K>(xs: seq<T>, groups: seq<seq<T>>, key: T -> K)
    requires IsRunPartition(xs, groups, key)
    requires groups != [] && |Last(groups)| > 1
    ensures xs != []
    ensures var g := Last(groups);
      && IsRunPartition(xs[..|xs| - 1], groups[..|groups| - 1] + [g[..|g| - 1]], key)
      && key(g[0]) == key(Last(xs))
      && groups == groups[..|groups| - 1] + [g[..|g| - 1] + [Last(xs)]]
  {
    var n := |groups|;
    var g := Last(groups);
    var front := groups[..n - 1];
    var g' := g[..|g| - 1];
    var groups' := front + [g'];
    assert groups == front + [g];
    assert xs == Flatten(front) + g;
    assert g == g' + [Last(xs)];
    FlattenSnoc(front, g');
    assert Flatten(groups') == xs[..|xs| - 1];
    assert SameKey(groups[n - 1], key);
    assert key(g[|g| - 1]) == key(g[0]);
    forall i | 0 <= i < n
      ensures groups'[i] != [] && SameKey(groups'[i], key)
    {
      if i == n - 1 {
        assert forall j :: 0 <= j < |g'| ==> g'[j] == g[j];
      } else {
        assert groups'[i] == groups[i];
      }
    }
    forall i | 0 <= i < n - 1
      ensures key(groups'[i][0]) != key(groups'[i + 1][0])
    {
      assert groups'[i] == groups[i];
      assert groups'[i + 1][0] == groups[i + 1][0];
    }
  }

  /** The run partition of a sequence is unique: any run partition is the one `groupby` yields. */
  lemma {:induction false} RunPartitionUnique<T, K>(xs: seq<T>, groups: seq<seq<T>>, key: T -> K)
    requires IsRunPartition(xs, groups, key)
    ensures groups == GroupBy(xs, key)
  {
    if groups == [] {
      assert xs == [];
    } else {
      var n := |groups|;
      assert groups[n - 1] != [];
      var prefix := xs[..|xs| - 1];
      if |Last(groups)| == 1 {
        DropLastRun(xs, groups, key);
        RunPartitionUnique(prefix, groups[..n - 1], key);
        if n > 1 {
          assert Last(groups[..n - 1]) == groups[n - 2];
          assert key(groups[n - 2][0]) != key(groups[n - 1][0]);
          assert groups[n - 1][0] == Last(xs);
        }
        assert GroupBy(xs, key) == GroupBy(prefix, key) + [[Last(xs)]];
      } else {
        ShrinkLastRun(xs, groups, key);
        var g := Last(groups);
        var groups' := groups[..n - 1] + [g[..|g| - 1]];
        RunPartitionUnique(prefix, groups', key);
        assert groups'[..n - 1] == groups[..n - 1];
        assert Last(groups') == g[..|g| - 1];
        assert Last(groups')[0] == g[0];
        assert GroupBy(xs, key) == groups'[..n - 1] + [Last(groups') + [Last(xs)]];
      }
    }
  }
}
