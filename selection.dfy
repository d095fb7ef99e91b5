/**
 * Selecting elements by a boolean mask, as `xs[mask]`, a list comprehension
 * with an `if` and `filter` do: the kept elements are the ones at the set
 * positions of the mask, in their original order.
 */
module Selection {

  /** The positions where `mask` is set, in increasing order. */
  function TruePositions(mask: seq<bool>): (ps: seq<nat>)
    ensures forall t :: 0 <= t < |ps| ==> ps[t] < |mask| && mask[ps[t]]
    ensures forall t, u :: 0 <= t < u < |ps| ==> ps[t] < ps[u]
    ensures forall i :: 0 <= i < |mask| && mask[i] ==> i in ps
  {
    if mask == [] then []
    else
      var n := |mask| - 1;
      TruePositions(mask[..n]) + if mask[n] then [n] else []
  }

  /** `xs[mask]`: the elements whose mask entry is set, in order. */
  function Select<T>(xs: seq<T>, mask: seq<bool>): seq<T>
    requires |mask| == |xs|
  {
    if xs == [] then []
    else
      var n := |xs| - 1;
      Select(xs[..n], mask[..n]) + if mask[n] then [xs[n]] else []
  }

  /** The selection reads `xs` at the set positions of the mask, one element per position, in increasing order. */
  lemma {:induction false} SelectAt<T>(xs: seq<T>, mask: seq<bool>)
    requires |mask| == |xs|
    ensures var ps := TruePositions(mask);
      && |Select(xs, mask)| == |ps|
      && forall t :: 0 <= t < |ps| ==> Select(xs, mask)[t] == xs[ps[t]]
  {
    if xs != [] {
      var n := |xs| - 1;
      SelectAt(xs[..n], mask[..n]);
      var front := TruePositions(mask[..n]);
      forall t | 0 <= t < |front|
        ensures Select(xs[..n], mask[..n])[t] == xs[front[t]]
      {
        assert xs[..n][front[t]] == xs[front[t]];
      }
    }
  }

  /** An element is selected exactly when it stands at a set position. */
  lemma SelectMembers<T>(xs: seq<T>, mask: seq<bool>)
    requires |mask| == |xs|
    ensures |Select(xs, mask)| <= |xs|
    ensures forall x <- Select(xs, mask) :: exists i :: 0 <= i < |xs| && mask[i] && xs[i] == x
    ensures forall i :: 0 <= i < |xs| && mask[i] ==> xs[i] in Select(xs, mask)
  {
    SelectAt(xs, mask);
    var kept := Select(xs, mask);
    var ps := TruePositions(mask);
    PositionsBound(mask);
    forall x | x in kept
      ensures exists i :: 0 <= i < |xs| && mask[i] && xs[i] == x
    {
      var t :| 0 <= t < |kept| && kept[t] == x;
      assert mask[ps[t]] && xs[ps[t]] == x;
    }
    forall i | 0 <= i < |xs| && mask[i]
      ensures xs[i] in kept
    {
      var t :| 0 <= t < |ps| && ps[t] == i;
      assert kept[t] == xs[i];
    }
  }

  /** No more positions are set than the mask has entries. */
  lemma {:induction false} PositionsBound(mask: seq<bool>)
    ensures |TruePositions(mask)| <= |mask|
  {
    if mask != [] {
      PositionsBound(mask[..|mask| - 1]);
    }
  }

  /** A mask that is set everywhere selects every element, in order. */
  lemma {:induction false} SelectAll<T>(xs: seq<T>, mask: seq<bool>)
    requires |mask| == |xs|
    requires forall i :: 0 <= i < |mask| ==> mask[i]
    ensures Select(xs, mask) == xs
  {
    if xs != [] {
      var n := |xs| - 1;
      SelectAll(xs[..n], mask[..n]);
      assert xs == xs[..n] + [xs[n]];
    }
  }

  /**
   * Everything before the first selected position, and everything between two
   * neighbouring selected positions, is unset in the mask.
   */
  lemma PositionsGaps(mask: seq<bool>)
    ensures var ps := TruePositions(mask);
      && (forall i :: 0 <= i < |mask| && (|ps| == 0 || i < ps[0]) ==> !mask[i])
      && (forall t, i :: 0 <= t < |ps| - 1 && ps[t] < i < ps[t + 1] ==> !mask[i])
  {
    var ps := TruePositions(mask);
    forall i | 0 <= i < |mask| && mask[i]
      ensures |ps| > 0 && ps[0] <= i
      ensures forall t :: 0 <= t < |ps| - 1 && ps[t] < i ==> ps[t + 1] <= i
    {
      var u :| 0 <= u < |ps| && ps[u] == i;
      assert ps[0] <= ps[u];
      forall t | 0 <= t < |ps| - 1 && ps[t] < i
        ensures ps[t + 1] <= i
      {
        assert t < u;
      }
    }
  }

  /** The mask is unset before its first set position and between its first two. */
  lemma GapsUnset(mask: seq<bool>)
    ensures var ps := TruePositions(mask);
      && (forall i :: 0 <= i < |mask| && (|ps| == 0 || i < ps[0]) ==> !mask[i])
      && (|ps| >= 2 ==> forall i :: ps[0] < i < ps[1] ==> !mask[i])
  {
    PositionsGaps(mask);
    var ps := TruePositions(mask);
    if |ps| >= 2 {
      assert 0 < |ps| - 1;
    }
  }
}
