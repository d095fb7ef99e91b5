/**
 * The integer and threshold logic of scripts/cluster_contigs.py around the
 * mixture model: the `frac` check of `cluster_gmm`, the labelling of contigs
 * from the model's predictions or posterior probabilities in `_label_gmm`,
 * `filt_by_total_size` and `summarize_clusters`. The model itself is not part
 * of this: its predictions and probabilities are inputs.
 */
module Bins {
  import opened Wrappers
  import opened Grouping
  import opened Selection

  /** A contig and the bin it is assigned to: one entry of the `cluster` series. */
  datatype Assignment = Assignment(contig: string, cluster: int)

  /** Why no labels were produced. */
  datatype BinError =
    | FracOutOfRange   // `frac` outside (0, 1] (ValueError)
    | NoLabels         // a negative `pthresh` leaves `best_guess` unbound (UnboundLocalError)

  // ---------------------------------------------------------------------------
  // cluster_gmm: the data the model is fitted on

  /** A weighted random subsample of the contigs, or a copy of all of them. */
  datatype FitData = Subsample(frac: real) | AllContigs

  function FitDataOf(frac: real): (r: Result<FitData, BinError>)
    ensures r.Ok? <==> 0.0 < frac <= 1.0
    ensures r == Ok(AllContigs) <==> frac == 1.0
    ensures r.Ok? && r.value.Subsample? ==> r.value.frac == frac < 1.0
  {
    if 0.0 < frac < 1.0 then Ok(Subsample(frac))
    else if frac == 1.0 then Ok(AllContigs)
    else Err(FracOutOfRange)
  }

  // ---------------------------------------------------------------------------
  // _label_gmm

  /** `np.argmax(row)`: the first position of the largest value. */
  function FirstArgmax(row: seq<real>): (i: nat)
    requires row != []
    ensures i < |row|
    ensures forall j :: 0 <= j < |row| ==> row[j] <= row[i]
    ensures forall j :: 0 <= j < i ==> row[j] < row[i]
  {
    if |row| == 1 then 0
    else
      var front := row[..|row| - 1];
      var i := FirstArgmax(front);
      assert forall j :: 0 <= j < |row| - 1 ==> row[j] == front[j];
      if row[|row| - 1] > row[i] then |row| - 1 else i
  }

  /** `(row > pthresh).sum().astype(bool)`: some probability exceeds the threshold. */
  predicate AnyAbove(row: seq<real>, pthresh: real)
  {
    row != [] && (row[0] > pthresh || AnyAbove(row[1..], pthresh))
  }

  /** Some value is above the threshold exactly when the first largest one is. */
  lemma {:induction false} AnyAboveMax(row: seq<real>, pthresh: real)
    requires row != []
    ensures AnyAbove(row, pthresh) <==> exists j :: 0 <= j < |row| && row[j] > pthresh
    ensures AnyAbove(row, pthresh) <==> row[FirstArgmax(row)] > pthresh
  {
    if |row| > 1 {
      AnyAboveMax(row[1..], pthresh);
      assert forall j :: 1 <= j < |row| ==> row[j] == row[1..][j - 1];
      if row[FirstArgmax(row)] > pthresh {
        assert exists j :: 0 <= j < |row| && row[j] > pthresh;
      }
    }
  }

  /** The `cluster` series before masking: each contig with its label. */
  function Labelled(contigs: seq<string>, labels: seq<int>): seq<Assignment>
    requires |labels| == |contigs|
  {
    seq(|contigs|, i requires 0 <= i < |contigs| => Assignment(contigs[i], labels[i]))
  }

  /** `cluster[mask]`: the assignments whose mask entry is set, in contig order. */
  function Masked(contigs: seq<string>, labels: seq<int>, mask: seq<bool>): seq<Assignment>
    requires |labels| == |contigs| && |mask| == |contigs|
  {
    Select(Labelled(contigs, labels), mask)
  }

  /**
   * Exactly the masked contigs are kept, each once with its own label and in
   * contig order: entry t is the contig at the t-th set position of the mask.
   * With the whole mask set, everything is kept.
   */
  lemma MaskedSpec(contigs: seq<string>, labels: seq<int>, mask: seq<bool>)
    requires |labels| == |contigs| && |mask| == |contigs|
    ensures var kept := Masked(contigs, labels, mask);
      var ps := TruePositions(mask);
      && |kept| == |ps|
      && forall t :: 0 <= t < |ps| ==> kept[t] == Assignment(contigs[ps[t]], labels[ps[t]])
    ensures |Masked(contigs, labels, mask)| <= |contigs|
    ensures forall a <- Masked(contigs, labels, mask) ::
      exists i :: 0 <= i < |contigs| && mask[i] && a == Assignment(contigs[i], labels[i])
    ensures forall i :: 0 <= i < |contigs| && mask[i] ==> Assignment(contigs[i], labels[i]) in Masked(contigs, labels, mask)
    ensures (forall i :: 0 <= i < |contigs| ==> mask[i]) ==>
      Masked(contigs, labels, mask) == seq(|contigs|, i requires 0 <= i < |contigs| => Assignment(contigs[i], labels[i]))
  {
    MaskedOrder(contigs, labels, mask);
    MaskedMembers(contigs, labels, mask);
    if forall i :: 0 <= i < |contigs| ==> mask[i] {
      SelectAll(Labelled(contigs, labels), mask);
    }
  }

  lemma MaskedOrder(contigs: seq<string>, labels: seq<int>, mask: seq<bool>)
    requires |labels| == |contigs| && |mask| == |contigs|
    ensures var kept := Masked(contigs, labels, mask);
      var ps := TruePositions(mask);
      && |kept| == |ps|
      && forall t :: 0 <= t < |ps| ==> kept[t] == Assignment(contigs[ps[t]], labels[ps[t]])
  {
    SelectAt(Labelled(contigs, labels), mask);
  }

  lemma MaskedMembers(contigs: seq<string>, labels: seq<int>, mask: seq<bool>)
    requires |labels| == |contigs| && |mask| == |contigs|
    ensures |Masked(contigs, labels, mask)| <= |contigs|
    ensures forall a <- Masked(contigs, labels, mask) ::
      exists i :: 0 <= i < |contigs| && mask[i] && a == Assignment(contigs[i], labels[i])
    ensures forall i :: 0 <= i < |contigs| && mask[i] ==> Assignment(contigs[i], labels[i]) in Masked(contigs, labels, mask)
  {
    var xs := Labelled(contigs, labels);
    SelectMembers(xs, mask);
    forall a | a in Select(xs, mask)
      ensures exists i :: 0 <= i < |contigs| && mask[i] && a == Assignment(contigs[i], labels[i])
    {
      var i :| 0 <= i < |xs| && mask[i] && xs[i] == a;
    }
  }

  /**
   * `_label_gmm` over the model's predicted labels and its posterior
   * probabilities, one row per contig: a threshold of 0 keeps every contig with
   * its predicted label; a positive threshold keeps the contigs with some
   * probability above it, labelled by the first most probable bin.
   */
  function LabelGmm(contigs: seq<string>, predicted: seq<int>, probs: seq<seq<real>>, pthresh: real): Result<seq<Assignment>, BinError>
    requires |predicted| == |contigs| && |probs| == |contigs|
    requires forall i :: 0 <= i < |probs| ==> probs[i] != []
  {
    if pthresh == 0.0 then
      Ok(Masked(contigs, predicted, seq(|contigs|, _ => true)))
    else if pthresh > 0.0 then
      var best := seq(|probs|, i requires 0 <= i < |probs| => FirstArgmax(probs[i]) as int);
      Ok(Masked(contigs, best, AboveMask(probs, pthresh)))
    else
      Err(NoLabels)
  }

  /** With a threshold of 0 every contig is kept, in order, with its predicted label. */
  lemma LabelGmmAll(contigs: seq<string>, predicted: seq<int>, probs: seq<seq<real>>)
    requires |predicted| == |contigs| && |probs| == |contigs|
    requires forall i :: 0 <= i < |probs| ==> probs[i] != []
    ensures LabelGmm(contigs, predicted, probs, 0.0)
      == Ok(seq(|contigs|, i requires 0 <= i < |contigs| => Assignment(contigs[i], predicted[i])))
  {
    MaskedSpec(contigs, predicted, seq(|contigs|, _ => true));
  }

  /** Which contigs have some probability above the threshold: `(probs > pthresh).sum(axis=1).astype(bool)`. */
  function AboveMask(probs: seq<seq<real>>, pthresh: real): seq<bool>
  {
    seq(|probs|, i requires 0 <= i < |probs| => AnyAbove(probs[i], pthresh))
  }

  /**
   * With a positive threshold, a contig is kept exactly when one of its
   * probabilities is above the threshold, and then with the first most probable
   * bin as its label.
   */
  lemma LabelGmmAbove(contigs: seq<string>, predicted: seq<int>, probs: seq<seq<real>>, pthresh: real)
    requires |predicted| == |contigs| && |probs| == |contigs|
    requires forall i :: 0 <= i < |probs| ==> probs[i] != []
    requires pthresh > 0.0
    ensures LabelGmm(contigs, predicted, probs, pthresh).Ok?
    ensures var kept := LabelGmm(contigs, predicted, probs, pthresh).value;
      && (forall a <- kept :: exists i :: (0 <= i < |contigs| && a.contig == contigs[i]
            && (exists j :: 0 <= j < |probs[i]| && probs[i][j] > pthresh)
            && a.cluster == FirstArgmax(probs[i])))
      && (forall i, j :: 0 <= i < |contigs| && 0 <= j < |probs[i]| && probs[i][j] > pthresh ==>
            Assignment(contigs[i], FirstArgmax(probs[i])) in kept)
  {
    var best := seq(|probs|, i requires 0 <= i < |probs| => FirstArgmax(probs[i]) as int);
    var mask := AboveMask(probs, pthresh);
    MaskedSpec(contigs, best, mask);
    AboveMaskSpec(probs, pthresh);
  }

  /** The mask is set for a contig exactly when one of its probabilities is above the threshold. */
  lemma AboveMaskSpec(probs: seq<seq<real>>, pthresh: real)
    requires forall i :: 0 <= i < |probs| ==> probs[i] != []
    ensures |AboveMask(probs, pthresh)| == |probs|
    ensures forall i :: 0 <= i < |probs| ==>
      (AboveMask(probs, pthresh)[i] <==> exists j :: 0 <= j < |probs[i]| && probs[i][j] > pthresh)
  {
    forall i | 0 <= i < |probs|
      ensures AboveMask(probs, pthresh)[i] <==> exists j :: 0 <= j < |probs[i]| && probs[i][j] > pthresh
    {
      AnyAboveMax(probs[i], pthresh);
    }
  }

  /**
   * With a positive threshold the kept contigs stay in contig order, each once:
   * entry t is the contig at the t-th position whose mask is set, labelled with
   * its first most probable bin.
   */
  lemma LabelGmmOrder(contigs: seq<string>, predicted: seq<int>, probs: seq<seq<real>>, pthresh: real)
    requires |predicted| == |contigs| && |probs| == |contigs|
    requires forall i :: 0 <= i < |probs| ==> probs[i] != []
    requires pthresh > 0.0
    ensures var kept := LabelGmm(contigs, predicted, probs, pthresh).value;
      var ps := TruePositions(AboveMask(probs, pthresh));
      && |kept| == |ps|
      && forall t :: 0 <= t < |ps| ==> kept[t] == Assignment(contigs[ps[t]], FirstArgmax(probs[ps[t]]))
  {
    var best := seq(|probs|, i requires 0 <= i < |probs| => FirstArgmax(probs[i]) as int);
    var mask := AboveMask(probs, pthresh);
    MaskedSpec(contigs, best, mask);
  }

  /** A negative threshold is an error. */
  lemma LabelGmmNegative(contigs: seq<string>, predicted: seq<int>, probs: seq<seq<real>>, pthresh: real)
    requires |predicted| == |contigs| && |probs| == |contigs|
    requires forall i :: 0 <= i < |probs| ==> probs[i] != []
    requires pthresh < 0.0
    ensures LabelGmm(contigs, predicted, probs, pthresh) == Err(NoLabels)
  {
  }

  /** `cluster_gmm` given the fitted model's outputs: the `frac` check first, then the labelling. */
  function ClusterGmm(frac: real, contigs: seq<string>, predicted: seq<int>, probs: seq<seq<real>>, pthresh: real): (r: Result<seq<Assignment>, BinError>)
    requires |predicted| == |contigs| && |probs| == |contigs|
    requires forall i :: 0 <= i < |probs| ==> probs[i] != []
    ensures !(0.0 < frac <= 1.0) ==> r == Err(FracOutOfRange)
    ensures 0.0 < frac <= 1.0 ==> r == LabelGmm(contigs, predicted, probs, pthresh)
  {
    match FitDataOf(frac)
    case Err(e) => Err(e)
    case Ok(_) => LabelGmm(contigs, predicted, probs, pthresh)
  }

  // ---------------------------------------------------------------------------
  // Per-bin totals

  /**
   * `length.groupby(cluster)` sees the contigs of the series that have a
   * length; the others fall out of every group.
   */
  predicate HasLength(a: Assignment, length: map<string, int>) { a.contig in length }

  /** `length.groupby(cluster).sum()[c]`. */
  function BinLength(cluster: seq<Assignment>, length: map<string, int>, c: int): int
  {
    if cluster == [] then 0
    else
      var a := Last(cluster);
      BinLength(cluster[..|cluster| - 1], length, c)
        + if a.cluster == c && HasLength(a, length) then length[a.contig] else 0
  }

  /** `length.groupby(cluster).count()[c]`. */
  function BinCount(cluster: seq<Assignment>, length: map<string, int>, c: int): nat
  {
    if cluster == [] then 0
    else
      var a := Last(cluster);
      BinCount(cluster[..|cluster| - 1], length, c)
        + if a.cluster == c && HasLength(a, length) then 1 else 0
  }

  /** A bin with a contig that has a length counts at least one contig. */
  lemma {:induction false} BinCountPositive(cluster: seq<Assignment>, length: map<string, int>, k: nat)
    requires k < |cluster| && HasLength(cluster[k], length)
    ensures BinCount(cluster, length, cluster[k].cluster) >= 1
  {
    if k < |cluster| - 1 {
      BinCountPositive(cluster[..|cluster| - 1], length, k);
    }
  }

  // ---------------------------------------------------------------------------
  // filt_by_total_size

  /**
   * `cluster_length >= min_bin_size` over the bins `length.groupby(cluster)`
   * produces: a bin is valid when one of its contigs has a length and its summed
   * length reaches the minimum.
   */
  predicate ValidBin(cluster: seq<Assignment>, length: map<string, int>, minBinSize: int, c: int)
  {
    BinCount(cluster, length, c) >= 1 && BinLength(cluster, length, c) >= minBinSize
  }

  /** `cluster.isin(valid_clusters)`. */
  function ValidMask(cluster: seq<Assignment>, length: map<string, int>, minBinSize: int): seq<bool>
  {
    seq(|cluster|, i requires 0 <= i < |cluster| => ValidBin(cluster, length, minBinSize, cluster[i].cluster))
  }

  /** `cluster[cluster.isin(valid_clusters)]`. */
  function FiltByTotalSize(cluster: seq<Assignment>, length: map<string, int>, minBinSize: int): seq<Assignment>
  {
    Select(cluster, ValidMask(cluster, length, minBinSize))
  }

  /**
   * A contig is kept with its label exactly when its bin has a contig with a
   * length and the bin's summed length reaches `min_bin_size`, so a bin is kept
   * or dropped whole; the kept entries stay in order, each once: entry t is the
   * entry at the t-th valid position.
   */
  lemma FiltByTotalSizeSpec(cluster: seq<Assignment>, length: map<string, int>, minBinSize: int)
    ensures var kept := FiltByTotalSize(cluster, length, minBinSize);
      var ps := TruePositions(ValidMask(cluster, length, minBinSize));
      && |kept| == |ps|
      && (forall t :: 0 <= t < |ps| ==>
            kept[t] == cluster[ps[t]] && ValidBin(cluster, length, minBinSize, cluster[ps[t]].cluster))
      && (forall i :: 0 <= i < |cluster| && ValidBin(cluster, length, minBinSize, cluster[i].cluster) ==> i in ps)
    ensures var kept := FiltByTotalSize(cluster, length, minBinSize);
      && |kept| <= |cluster|
      && (forall a <- kept :: a in cluster && ValidBin(cluster, length, minBinSize, a.cluster))
      && (forall a <- cluster :: a in kept <==> ValidBin(cluster, length, minBinSize, a.cluster))
  {
    var mask := ValidMask(cluster, length, minBinSize);
    SelectAt(cluster, mask);
    SelectMembers(cluster, mask);
  }

  /** A bin none of whose contigs has a length is dropped, whatever the minimum. */
  lemma FiltDropsLengthless(cluster: seq<Assignment>, length: map<string, int>, minBinSize: int, c: int)
    requires forall a <- cluster :: a.cluster == c ==> !HasLength(a, length)
    ensures forall a <- FiltByTotalSize(cluster, length, minBinSize) :: a.cluster != c
  {
    FiltByTotalSizeSpec(cluster, length, minBinSize);
    BinCountZero(cluster, length, c);
  }

  lemma {:induction false} BinCountZero(cluster: seq<Assignment>, length: map<string, int>, c: int)
    requires forall a <- cluster :: a.cluster == c ==> !HasLength(a, length)
    ensures BinCount(cluster, length, c) == 0
  {
    if cluster != [] {
      BinCountZero(cluster[..|cluster| - 1], length, c);
    }
  }

  // ---------------------------------------------------------------------------
  // summarize_clusters

  /** One row of the summary: a bin, `n_contigs` and `total_length`. */
  datatype Summary = Summary(cluster: int, nContigs: nat, totalLength: int)

  predicate Increasing(xs: seq<int>)
  {
    forall i, j :: 0 <= i < j < |xs| ==> xs[i] < xs[j]
  }

  /** Insert into an increasing sequence, keeping it increasing and free of repeats. */
  function InsertLabel(xs: seq<int>, x: int): (r: seq<int>)
    requires Increasing(xs)
    ensures Increasing(r)
    ensures forall y :: y in r <==> y in xs || y == x
  {
    if xs == [] then [x]
    else if x < xs[0] then [x] + xs
    else if x == xs[0] then xs
    else
      IncreasingTail(xs);
      var rest := InsertLabel(xs[1..], x);
      assert forall y :: y in xs <==> y == xs[0] || y in xs[1..];
      IncreasingCons(xs[0], rest);
      [xs[0]] + rest
  }

  /** Past the first element, an increasing sequence stays increasing and above that element. */
  lemma IncreasingTail(xs: seq<int>)
    requires xs != [] && Increasing(xs)
    ensures Increasing(xs[1..])
    ensures forall y <- xs[1..] :: xs[0] < y
  {
    forall y | y in xs[1..]
      ensures xs[0] < y
    {
      var k :| 0 <= k < |xs[1..]| && xs[1..][k] == y;
      assert xs[k + 1] == y;
    }
  }

  lemma IncreasingCons(h: int, t: seq<int>)
    requires Increasing(t) && forall y <- t :: h < y
    ensures Increasing([h] + t)
  {
    var r := [h] + t;
    forall i, j | 0 <= i < j < |r|
      ensures r[i] < r[j]
    {
      assert r[j] == t[j - 1] && t[j - 1] in t;
      if i > 0 {
        assert r[i] == t[i - 1];
      }
    }
  }

  /** The bins of the contigs that have a length, increasing: the group order of `groupby`. */
  function BinLabels(cluster: seq<Assignment>, length: map<string, int>): (labels: seq<int>)
    ensures Increasing(labels)
    ensures forall c :: c in labels <==> exists a <- cluster :: HasLength(a, length) && a.cluster == c
  {
    if cluster == [] then []
    else
      var front := cluster[..|cluster| - 1];
      var a := Last(cluster);
      var labels := BinLabels(front, length);
      assert forall b <- cluster :: b in front || b == a;
      if HasLength(a, length) then InsertLabel(labels, a.cluster) else labels
  }

  /** `length.groupby(cluster).agg(['count', 'sum'])`, one row per bin in label order. */
  function Summaries(cluster: seq<Assignment>, length: map<string, int>): seq<Summary>
  {
    var labels := BinLabels(cluster, length);
    seq(|labels|, i requires 0 <= i < |labels| =>
      Summary(labels[i], BinCount(cluster, length, labels[i]), BinLength(cluster, length, labels[i])))
  }

  predicate ByTotalDesc(rows: seq<Summary>)
  {
    forall i, j :: 0 <= i < j < |rows| ==> rows[i].totalLength >= rows[j].totalLength
  }

  /** Place a row after every row with an equal or larger total. */
  function InsertByTotal(sorted: seq<Summary>, r: Summary): seq<Summary>
  {
    if sorted == [] then [r]
    else if sorted[0].totalLength >= r.totalLength then [sorted[0]] + InsertByTotal(sorted[1..], r)
    else [r] + sorted
  }

  /** A row at least as large as every row of a sorted tail can head it. */
  lemma ConsByTotal(h: Summary, tail: seq<Summary>)
    requires ByTotalDesc(tail)
    requires forall x <- tail :: x.totalLength <= h.totalLength
    ensures ByTotalDesc([h] + tail)
  {
    var res := [h] + tail;
    forall i, j | 0 <= i < j < |res|
      ensures res[i].totalLength >= res[j].totalLength
    {
      assert res[j] == tail[j - 1];
      if i > 0 {
        assert res[i] == tail[i - 1];
      }
    }
  }

  lemma {:induction false} InsertByTotalPerm(sorted: seq<Summary>, r: Summary)
    ensures multiset(InsertByTotal(sorted, r)) == multiset(sorted) + multiset{r}
  {
    if sorted != [] && sorted[0].totalLength >= r.totalLength {
      InsertByTotalPerm(sorted[1..], r);
      assert sorted == [sorted[0]] + sorted[1..];
    }
  }

  lemma {:induction false} InsertByTotalSorted(sorted: seq<Summary>, r: Summary)
    requires ByTotalDesc(sorted)
    ensures ByTotalDesc(InsertByTotal(sorted, r))
  {
    if sorted != [] && sorted[0].totalLength >= r.totalLength {
      var tail := sorted[1..];
      assert ByTotalDesc(tail) by {
        forall i, j | 0 <= i < j < |tail|
          ensures tail[i].totalLength >= tail[j].totalLength
        {
          assert tail[i] == sorted[i + 1] && tail[j] == sorted[j + 1];
        }
      }
      InsertByTotalSorted(tail, r);
      InsertByTotalPerm(tail, r);
      var ins := InsertByTotal(tail, r);
      forall x | x in ins
        ensures x.totalLength <= sorted[0].totalLength
      {
        assert x in multiset(ins);
        if x != r {
          assert x in multiset(tail);
          var k :| 0 <= k < |tail| && tail[k] == x;
          assert sorted[k + 1] == x;
        }
      }
      ConsByTotal(sorted[0], ins);
    } else if sorted != [] {
      ConsByTotal(r, sorted);
    }
  }

  /** `sort_values('sum', ascending=False)`, as an insertion sort that keeps ties in their first order. */
  function SortByTotal(rows: seq<Summary>): seq<Summary>
  {
    if rows == [] then [] else InsertByTotal(SortByTotal(rows[..|rows| - 1]), Last(rows))
  }

  /** Sorting orders the rows by non-increasing total and keeps every row exactly once. */
  lemma {:induction false} SortByTotalSpec(rows: seq<Summary>)
    ensures ByTotalDesc(SortByTotal(rows))
    ensures multiset(SortByTotal(rows)) == multiset(rows)
  {
    if rows != [] {
      var front := rows[..|rows| - 1];
      SortByTotalSpec(front);
      InsertByTotalSorted(SortByTotal(front), Last(rows));
      InsertByTotalPerm(SortByTotal(front), Last(rows));
      assert rows == front + [Last(rows)];
    }
  }

  /** `summarize_clusters`: the per-bin rows, largest total length first. */
  function SummarizeClusters(cluster: seq<Assignment>, length: map<string, int>): seq<Summary>
  {
    SortByTotal(Summaries(cluster, length))
  }

  /**
   * The summary has one row per bin of the contigs that have a length, with
   * `n_contigs` the bin's contig count (at least one) and `total_length` its
   * summed length, ordered by non-increasing total length.
   */
  lemma SummarizeClustersSpec(cluster: seq<Assignment>, length: map<string, int>)
    ensures var summary := SummarizeClusters(cluster, length);
      && ByTotalDesc(summary)
      && (forall s <- summary ::
            && s.nContigs == BinCount(cluster, length, s.cluster) >= 1
            && s.totalLength == BinLength(cluster, length, s.cluster))
      && (forall i, j :: 0 <= i < j < |summary| ==> summary[i].cluster != summary[j].cluster)
      && (forall a <- cluster :: HasLength(a, length) ==> exists s <- summary :: s.cluster == a.cluster)
  {
    var rows := Summaries(cluster, length);
    var labels := BinLabels(cluster, length);
    var summary := SummarizeClusters(cluster, length);
    SortByTotalSpec(rows);
    forall s | s in summary
      ensures s in rows
    {
      assert s in multiset(summary);
    }
    forall s | s in rows
      ensures s.nContigs == BinCount(cluster, length, s.cluster) >= 1
      ensures s.totalLength == BinLength(cluster, length, s.cluster)
    {
      var i :| 0 <= i < |rows| && rows[i] == s;
      assert labels[i] in labels;
      var a :| a in cluster && HasLength(a, length) && a.cluster == labels[i];
      var k :| 0 <= k < |cluster| && cluster[k] == a;
      BinCountPositive(cluster, length, k);
    }
    assert multiset(rows) == multiset(summary);
    DistinctClusters(rows, labels);
    MultisetDistinct(rows, summary);
    forall a | a in cluster && HasLength(a, length)
      ensures exists s <- summary :: s.cluster == a.cluster
    {
      assert a.cluster in labels;
      var i :| 0 <= i < |labels| && labels[i] == a.cluster;
      assert rows[i] in multiset(summary);
    }
  }

  lemma DistinctClusters(rows: seq<Summary>, labels: seq<int>)
    requires |rows| == |labels| && Increasing(labels)
    requires forall i :: 0 <= i < |rows| ==> rows[i].cluster == labels[i]
    ensures forall i, j :: 0 <= i < j < |rows| ==> rows[i].cluster != rows[j].cluster
  {
  }

  /** Two equal entries at different positions count twice. */
  lemma TwiceCounted(xs: seq<Summary>, i: nat, j: nat)
    requires i < j < |xs| && xs[i] == xs[j]
    ensures multiset(xs)[xs[i]] >= 2
  {
    assert xs == xs[..i] + [xs[i]] + xs[i + 1..j] + [xs[j]] + xs[j + 1..];
  }

  /** With distinct bins, each row occurs once. */
  lemma {:induction false} RowsOnce(rows: seq<Summary>, x: Summary)
    requires forall i, j :: 0 <= i < j < |rows| ==> rows[i].cluster != rows[j].cluster
    ensures multiset(rows)[x] <= 1
  {
    if rows != [] {
      var tail := rows[1..];
      RowsOnce(tail, x);
      assert rows == [rows[0]] + tail;
      if x == rows[0] {
        assert x !in tail;
      }
    }
  }

  /** A rearrangement of rows with distinct bins still has distinct bins. */
  lemma MultisetDistinct(rows: seq<Summary>, other: seq<Summary>)
    requires multiset(rows) == multiset(other)
    requires forall i, j :: 0 <= i < j < |rows| ==> rows[i].cluster != rows[j].cluster
    ensures forall i, j :: 0 <= i < j < |other| ==> other[i].cluster != other[j].cluster
  {
    forall i, j | 0 <= i < j < |other|
      ensures other[i].cluster != other[j].cluster
    {
      var x, y := other[i], other[j];
      if x != y {
        assert x in multiset(rows) && y in multiset(rows);
        var p :| 0 <= p < |rows| && rows[p] == x;
        var q :| 0 <= q < |rows| && rows[q] == y;
        assert p != q;
      } else {
        TwiceCounted(other, i, j);
        RowsOnce(rows, x);
        assert false;
      }
    }
  }
}
