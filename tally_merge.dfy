/**
 * The k-mer tally streams shared by scripts/merge_kmer_counts.py and
 * scripts/test_sparse_svd.py: `parse_tallies` over one library's lines, the
 * `heapq.merge` of the libraries' streams, and `rows`, which folds each run of
 * one k-mer into a map from library to tally.
 */
module TallyMerge {
  import opened Wrappers
  import opened Text
  import opened Grouping

  /** One `(kmer, lib, tally)` tuple. */
  datatype Tally = Tally(kmer: string, lib: string, count: int)

  /** Why a tally line was refused: `line.split()` did not give two fields, or `int()` failed. */
  datatype LineError = FieldCount | NotAnInt

  function KmerOf(t: Tally): string { t.kmer }

  // ---------------------------------------------------------------------------
  // parse_tallies

  /** `kmer, tally = line.split()`, then `(kmer, lib, int(tally))`. */
  function ParseTallyLine(line: string, lib: string): Result<Tally, LineError>
  {
    var fields := SplitWs(line);
    if |fields| != 2 then Err(FieldCount)
    else match ParseInt(fields[1])
      case None => Err(NotAnInt)
      case Some(n) => Ok(Tally(fields[0], lib, n))
  }

  /** A line written as the k-mer, a tab, `str(n)` and a newline parses back to that tally. */
  lemma ParseTallyLineWritten(kmer: string, lib: string, n: int)
    requires kmer != [] && NoSpace(kmer)
    ensures ParseTallyLine(kmer + "\t" + DecimalString(n) + "\n", lib) == Ok(Tally(kmer, lib, n))
  {
    var d := DecimalString(n);
    assert kmer + "\t" + d + "\n" == kmer + ['\t'] + (d + "\n");
    assert d + "\n" == d + ['\n'] + [];
    SplitWsAround(kmer, '\t', d + "\n");
    SplitWsAround(d, '\n', []);
    SplitWsWord(kmer);
    SplitWsWord(d);
    ParseIntDecimal(n);
  }

  /**
   * The tallies of one library's lines, in file order; the generator stops with
   * an error at the first line that does not parse, which is numbered here.
   */
  function ParseTallies(lines: seq<string>, lib: string): Result<seq<Tally>, (nat, LineError)>
  {
    if lines == [] then Ok([])
    else match ParseTallies(lines[..|lines| - 1], lib)
      case Err(e) => Err(e)
      case Ok(ts) =>
        match ParseTallyLine(Last(lines), lib)
        case Ok(t) => Ok(ts + [t])
        case Err(why) => Err((|lines| - 1, why))
  }

  /** When every line parses, tally k is the parse of line k, and it carries the library. */
  lemma {:induction false} ParseTalliesOk(lines: seq<string>, lib: string)
    requires ParseTallies(lines, lib).Ok?
    ensures |ParseTallies(lines, lib).value| == |lines|
    ensures forall k :: 0 <= k < |lines| ==>
      ParseTallyLine(lines[k], lib) == Ok(ParseTallies(lines, lib).value[k])
    ensures forall t <- ParseTallies(lines, lib).value :: t.lib == lib
  {
    if lines != [] {
      var prefix := lines[..|lines| - 1];
      ParseTalliesOk(prefix, lib);
      var ts := ParseTallies(lines, lib).value;
      assert ts == ParseTallies(prefix, lib).value + [ParseTallyLine(Last(lines), lib).value];
      forall k | 0 <= k < |lines|
        ensures ParseTallyLine(lines[k], lib) == Ok(ts[k])
      {
        if k < |lines| - 1 {
          assert lines[k] == prefix[k];
        }
      }
    }
  }

  /** The line a failure names is the first line that does not parse. */
  lemma {:induction false} ParseTalliesErr(lines: seq<string>, lib: string)
    requires ParseTallies(lines, lib).Err?
    ensures
      var (j, why) := ParseTallies(lines, lib).error;
      && j < |lines| && ParseTallyLine(lines[j], lib) == Err(why)
      && (forall k :: 0 <= k < j ==> ParseTallyLine(lines[k], lib).Ok?)
  {
    var prefix := lines[..|lines| - 1];
    if ParseTallies(prefix, lib).Err? {
      ParseTalliesErr(prefix, lib);
      var j := ParseTallies(prefix, lib).error.0;
      forall k | 0 <= k <= j
        ensures lines[k] == prefix[k]
      {
      }
    } else {
      ParseTalliesOk(prefix, lib);
      forall k | 0 <= k < |prefix|
        ensures lines[k] == prefix[k]
      {
      }
    }
  }

  // ---------------------------------------------------------------------------
  // Tuple order

  /** Python's `<=` on `(kmer, lib, tally)` tuples: by k-mer, then library, then tally. */
  predicate TallyLe(a: Tally, b: Tally)
  {
    if a.kmer != b.kmer then LexLe(a.kmer, b.kmer)
    else if a.lib != b.lib then LexLe(a.lib, b.lib)
    else a.count <= b.count
  }

  lemma TallyLeTotal(a: Tally, b: Tally)
    ensures TallyLe(a, b) || TallyLe(b, a)
  {
    LexLeTotal(a.kmer, b.kmer);
    LexLeTotal(a.lib, b.lib);
  }

  /** Tuple order implies the order of the k-mers. */
  lemma TallyLeKmer(a: Tally, b: Tally)
    requires TallyLe(a, b)
    ensures LexLe(a.kmer, b.kmer)
  {
    LexLeRefl(a.kmer);
  }

  /** Two strings ordered both ways round through a third are all equal. */
  lemma LexLeSqueeze(a: string, b: string, c: string)
    requires LexLe(a, b) && LexLe(b, c) && LexLe(c, a)
    ensures a == b == c
  {
    LexLeTrans(b, c, a);
    LexLeAntisym(a, b);
    LexLeAntisym(b, c);
  }

  lemma TallyLeTrans(a: Tally, b: Tally, c: Tally)
    requires TallyLe(a, b) && TallyLe(b, c)
    ensures TallyLe(a, c)
  {
    TallyLeKmer(a, b);
    TallyLeKmer(b, c);
    LexLeTrans(a.kmer, b.kmer, c.kmer);
    if a.kmer == c.kmer {
      LexLeSqueeze(a.kmer, b.kmer, c.kmer);
      LexLeRefl(a.lib);
      LexLeRefl(b.lib);
      LexLeRefl(c.lib);
      LexLeTrans(a.lib, b.lib, c.lib);
      if a.lib == c.lib {
        LexLeSqueeze(a.lib, b.lib, c.lib);
      }
    }
  }

  // ---------------------------------------------------------------------------
  // heapq.merge

  /** The tallies still to come from the streams. */
  function Remaining(streams: seq<seq<Tally>>): nat
  {
    if streams == [] then 0 else Remaining(streams[..|streams| - 1]) + |Last(streams)|
  }

  /** The tallies still to come from the streams, as a multiset. */
  function Union(streams: seq<seq<Tally>>): multiset<Tally>
  {
    if streams == [] then multiset{} else Union(streams[..|streams| - 1]) + multiset(Last(streams))
  }

  /** Drawing the head of one stream removes exactly that tally from what remains. */
  lemma Advance(streams: seq<seq<Tally>>, i: nat)
    requires i < |streams| && streams[i] != []
    ensures Remaining(streams[i := streams[i][1..]]) == Remaining(streams) - 1
    ensures Union(streams[i := streams[i][1..]]) + multiset{streams[i][0]} == Union(streams)
  {
    AdvanceRemaining(streams, i);
    AdvanceUnion(streams, i);
  }

  lemma {:induction false} AdvanceRemaining(streams: seq<seq<Tally>>, i: nat)
    requires i < |streams| && streams[i] != []
    ensures Remaining(streams[i := streams[i][1..]]) == Remaining(streams) - 1
  {
    var n := |streams|;
    var rest := streams[i := streams[i][1..]];
    var prefix := streams[..n - 1];
    if i == n - 1 {
      assert rest[..n - 1] == prefix;
    } else {
      AdvanceRemaining(prefix, i);
      assert rest[..n - 1] == prefix[i := prefix[i][1..]];
    }
  }

  lemma {:induction false} AdvanceUnion(streams: seq<seq<Tally>>, i: nat)
    requires i < |streams| && streams[i] != []
    ensures Union(streams[i := streams[i][1..]]) + multiset{streams[i][0]} == Union(streams)
  {
    var n := |streams|;
    var rest := streams[i := streams[i][1..]];
    var prefix := streams[..n - 1];
    var s := streams[i];
    var h := multiset{s[0]};
    if i == n - 1 {
      assert multiset(s) == h + multiset(s[1..]) by {
        assert s == [s[0]] + s[1..];
      }
      assert Union(rest) == Union(prefix) + multiset(s[1..]) by {
        assert rest[..n - 1] == prefix;
      }
    } else {
      var rest' := prefix[i := prefix[i][1..]];
      assert Union(rest') + h == Union(prefix) by {
        assert prefix[i] == s;
        AdvanceUnion(prefix, i);
      }
      assert Union(rest) == Union(rest') + multiset(Last(streams)) by {
        assert rest[..n - 1] == rest';
        assert Last(rest) == Last(streams);
      }
    }
  }

  /** A tally that remains sits at some position of some stream. */
  lemma {:induction false} UnionMember(streams: seq<seq<Tally>>, t: Tally)
    requires t in Union(streams)
    ensures exists j, k :: 0 <= j < |streams| && 0 <= k < |streams[j]| && streams[j][k] == t
  {
    var n := |streams|;
    var prefix := streams[..n - 1];
    if t in Union(prefix) {
      UnionMember(prefix, t);
      var j, k :| 0 <= j < |prefix| && 0 <= k < |prefix[j]| && prefix[j][k] == t;
      assert streams[j][k] == t;
    } else {
      assert t in Last(streams);
      var k :| 0 <= k < |Last(streams)| && Last(streams)[k] == t;
      assert streams[n - 1][k] == t;
    }
  }

  /**
   * The stream `heapq.merge` draws from next, among the first `n`: the one whose
   * head is least in tuple order, the lowest index among equal heads; None once
   * all are exhausted.
   */
  function Pick(streams: seq<seq<Tally>>, n: nat): (r: Option<nat>)
    requires n <= |streams|
    ensures r.Some? ==> r.value < n && streams[r.value] != []
    ensures r.None? <==> forall j :: 0 <= j < n ==> streams[j] == []
  {
    if n == 0 then None
    else
      var best := Pick(streams, n - 1);
      if streams[n - 1] == [] then best
      else if best.Some? && TallyLe(streams[best.value][0], streams[n - 1][0]) then best
      else Some(n - 1)
  }

  /**
   * The picked head is at most every other head, and strictly below the heads of
   * the streams before it.
   */
  lemma {:induction false} PickLeast(streams: seq<seq<Tally>>, n: nat)
    requires n <= |streams| && Pick(streams, n).Some?
    ensures var i := Pick(streams, n).value;
      forall j :: 0 <= j < n && streams[j] != [] ==>
        TallyLe(streams[i][0], streams[j][0]) && (j < i ==> !TallyLe(streams[j][0], streams[i][0]))
  {
    var best := Pick(streams, n - 1);
    var h := streams[n - 1];
    if best.Some? {
      PickLeast(streams, n - 1);
    }
    if h != [] {
      if best.Some? && TallyLe(streams[best.value][0], h[0]) {
      } else if best.Some? {
        var hb := streams[best.value][0];
        TallyLeTotal(hb, h[0]);
        forall j | 0 <= j < n - 1 && streams[j] != []
          ensures TallyLe(h[0], streams[j][0])
          ensures TallyLe(streams[j][0], h[0]) ==> TallyLe(hb, h[0])
        {
          TallyLeTrans(h[0], hb, streams[j][0]);
          if TallyLe(streams[j][0], h[0]) {
            TallyLeTrans(hb, streams[j][0], h[0]);
          }
        }
      }
    }
  }

  /**
   * `heapq.merge(*streams)`: repeatedly yield the least head, lowest stream first
   * among equal heads, and advance that stream.
   */
  function Merge(streams: seq<seq<Tally>>): seq<Tally>
    decreases Remaining(streams)
  {
    match Pick(streams, |streams|)
    case None => []
    case Some(i) =>
      Advance(streams, i);
      [streams[i][0]] + Merge(streams[i := streams[i][1..]])
  }

  /** The merged stream holds every tally of every stream, each as often, and nothing else. */
  lemma {:induction false} MergePermutation(streams: seq<seq<Tally>>)
    ensures multiset(Merge(streams)) == Union(streams)
    decreases Remaining(streams)
  {
    match Pick(streams, |streams|)
    case None =>
      EmptyUnion(streams);
    case Some(i) =>
      Advance(streams, i);
      MergePermutation(streams[i := streams[i][1..]]);
  }

  lemma {:induction false} EmptyUnion(streams: seq<seq<Tally>>)
    requires forall j :: 0 <= j < |streams| ==> streams[j] == []
    ensures Union(streams) == multiset{}
  {
    if streams != [] {
      EmptyUnion(streams[..|streams| - 1]);
    }
  }

  /** Tallies in non-decreasing k-mer order. */
  ghost predicate KmerSorted(s: seq<Tally>)
  {
    forall i, j :: 0 <= i < j < |s| ==> LexLe(s[i].kmer, s[j].kmer)
  }

  lemma KmerSortedTail(s: seq<Tally>)
    requires s != [] && KmerSorted(s)
    ensures KmerSorted(s[1..])
  {
    forall a, b | 0 <= a < b < |s| - 1
      ensures LexLe(s[1..][a].kmer, s[1..][b].kmer)
    {
      assert s[1..][a] == s[a + 1] && s[1..][b] == s[b + 1];
    }
  }

  /** The least head is at most, in k-mer order, every tally that remains after it is drawn. */
  lemma HeadBelowRest(streams: seq<seq<Tally>>, i: nat, j: nat, k: nat)
    requires forall s <- streams :: KmerSorted(s)
    requires Pick(streams, |streams|) == Some(i)
    requires j < |streams| && (if j == i then k + 1 < |streams[i]| else k < |streams[j]|)
    ensures LexLe(streams[i][0].kmer, streams[j][if j == i then k + 1 else k].kmer)
  {
    var h := streams[i][0];
    assert KmerSorted(streams[j]) by { assert streams[j] in streams; }
    if j != i {
      PickLeast(streams, |streams|);
      TallyLeKmer(h, streams[j][0]);
      if k > 0 {
        LexLeTrans(h.kmer, streams[j][0].kmer, streams[j][k].kmer);
      }
    }
  }

  /** Drawing from sorted streams leaves sorted streams. */
  lemma AdvanceSorted(streams: seq<seq<Tally>>, i: nat)
    requires forall s <- streams :: KmerSorted(s)
    requires i < |streams| && streams[i] != []
    ensures forall s <- streams[i := streams[i][1..]] :: KmerSorted(s)
  {
    var rest := streams[i := streams[i][1..]];
    forall j | 0 <= j < |rest|
      ensures KmerSorted(rest[j])
    {
      assert streams[j] in streams;
      if j == i {
        KmerSortedTail(streams[i]);
      }
    }
  }

  /** The least head is at most, in k-mer order, everything merged after it. */
  lemma HeadBelowMerge(streams: seq<seq<Tally>>, i: nat)
    requires forall s <- streams :: KmerSorted(s)
    requires Pick(streams, |streams|) == Some(i)
    ensures forall t <- Merge(streams[i := streams[i][1..]]) :: LexLe(streams[i][0].kmer, t.kmer)
  {
    var rest := streams[i := streams[i][1..]];
    MergePermutation(rest);
    forall t | t in Merge(rest)
      ensures LexLe(streams[i][0].kmer, t.kmer)
    {
      assert t in multiset(Merge(rest));
      UnionMember(rest, t);
      var j, k :| 0 <= j < |rest| && 0 <= k < |rest[j]| && rest[j][k] == t;
      HeadBelowRest(streams, i, j, k);
    }
  }

  lemma ConsSorted(h: Tally, tail: seq<Tally>)
    requires KmerSorted(tail)
    requires forall t <- tail :: LexLe(h.kmer, t.kmer)
    ensures KmerSorted([h] + tail)
  {
    var m := [h] + tail;
    forall a, b | 0 <= a < b < |m|
      ensures LexLe(m[a].kmer, m[b].kmer)
    {
      assert m[b] == tail[b - 1];
      if a > 0 {
        assert m[a] == tail[a - 1];
      }
    }
  }

  /** Merging streams that are each sorted by k-mer gives a stream sorted by k-mer. */
  lemma {:induction false} MergeKmerSorted(streams: seq<seq<Tally>>)
    requires forall s <- streams :: KmerSorted(s)
    ensures KmerSorted(Merge(streams))
    decreases Remaining(streams)
  {
    match Pick(streams, |streams|)
    case None =>
    case Some(i) =>
      Advance(streams, i);
      var rest := streams[i := streams[i][1..]];
      AdvanceSorted(streams, i);
      MergeKmerSorted(rest);
      HeadBelowMerge(streams, i);
      ConsSorted(streams[i][0], Merge(rest));
  }

  // ---------------------------------------------------------------------------
  // rows

  /** One k-mer and the tally each library reports for it. */
  datatype Row = Row(kmer: string, byLib: map<string, int>)

  /** `{lib: tally for _, lib, tally in group}`: a later tally of a library overwrites an earlier one. */
  function ByLib(group: seq<Tally>): map<string, int>
  {
    if group == [] then map[] else ByLib(group[..|group| - 1])[Last(group).lib := Last(group).count]
  }

  /** The map's keys are the libraries of the group. */
  lemma {:induction false} ByLibKeys(group: seq<Tally>)
    ensures ByLib(group).Keys == set t <- group :: t.lib
  {
    if group != [] {
      var front := group[..|group| - 1];
      ByLibKeys(front);
      assert group == front + [Last(group)];
    }
  }

  /** A library's value is the tally of its last occurrence in the group. */
  lemma {:induction false} ByLibLast(group: seq<Tally>, k: nat)
    requires k < |group|
    requires forall j :: k < j < |group| ==> group[j].lib != group[k].lib
    ensures group[k].lib in ByLib(group) && ByLib(group)[group[k].lib] == group[k].count
  {
    if k < |group| - 1 {
      var front := group[..|group| - 1];
      ByLibLast(front, k);
    }
  }

  /** `rows(merged)`: one row per run of equal k-mer, keyed by the run's k-mer. */
  function Rows(merged: seq<Tally>): seq<Row>
  {
    var groups: seq<seq<Tally>> := GroupBy(merged, KmerOf);
    seq(|groups|, i requires 0 <= i < |groups| => Row(groups[i][0].kmer, ByLib(groups[i])))
  }

  /**
   * Row i belongs to the i-th maximal run of one k-mer: every tally of the run
   * has the row's k-mer, the map's keys are the run's libraries, the runs read
   * in order give back the merged stream, and neighbouring rows differ in k-mer.
   */
  lemma RowsFollowRuns(merged: seq<Tally>)
    ensures var groups := GroupBy(merged, KmerOf); var rows := Rows(merged);
      && |rows| == |groups|
      && Flatten(groups) == merged
      && (forall i :: 0 <= i < |rows| ==>
            && (forall t <- groups[i] :: t.kmer == rows[i].kmer)
            && rows[i].byLib.Keys == (set t <- groups[i] :: t.lib))
      && (forall i :: 0 <= i < |rows| - 1 ==> rows[i].kmer != rows[i + 1].kmer)
  {
    var groups: seq<seq<Tally>> := GroupBy(merged, KmerOf);
    GroupByIsRunPartition(merged, KmerOf);
    forall i | 0 <= i < |groups|
      ensures forall t <- groups[i] :: t.kmer == groups[i][0].kmer
      ensures ByLib(groups[i]).Keys == (set t <- groups[i] :: t.lib)
    {
      assert SameKey(groups[i], KmerOf);
      ByLibKeys(groups[i]);
    }
  }

  /**
   * Over a stream sorted by k-mer, the runs' k-mers are pairwise distinct, and
   * none is above the k-mer of the stream's last tally, which the last run has.
   */
  lemma {:induction false} SortedRunsDistinct(xs: seq<Tally>)
    requires KmerSorted(xs)
    ensures var g := GroupBy(xs, KmerOf);
      && (forall a, b :: 0 <= a < b < |g| ==> g[a][0].kmer != g[b][0].kmer)
      && (xs != [] ==>
            && Last(g)[0].kmer == Last(xs).kmer
            && forall a :: 0 <= a < |g| ==> LexLe(g[a][0].kmer, Last(xs).kmer))
  {
    if xs != [] {
      var prefix := xs[..|xs| - 1];
      assert KmerSorted(prefix) by {
        assert forall i :: 0 <= i < |prefix| ==> prefix[i] == xs[i];
      }
      SortedRunsDistinct(prefix);
      SortedRunsStep(xs);
    }
  }

  /** One step of `SortedRunsDistinct`: appending the stream's last tally to the runs of the rest. */
  lemma SortedRunsStep(xs: seq<Tally>)
    requires xs != [] && KmerSorted(xs)
    requires var g := GroupBy(xs[..|xs| - 1], KmerOf);
      && (forall a, b :: 0 <= a < b < |g| ==> g[a][0].kmer != g[b][0].kmer)
      && (|xs| > 1 ==>
            && Last(g)[0].kmer == xs[|xs| - 2].kmer
            && forall a :: 0 <= a < |g| ==> LexLe(g[a][0].kmer, xs[|xs| - 2].kmer))
    ensures var r := GroupBy(xs, KmerOf);
      && (forall a, b :: 0 <= a < b < |r| ==> r[a][0].kmer != r[b][0].kmer)
      && Last(r)[0].kmer == Last(xs).kmer
      && forall a :: 0 <= a < |r| ==> LexLe(r[a][0].kmer, Last(xs).kmer)
  {
    var g: seq<seq<Tally>> := GroupBy(xs[..|xs| - 1], KmerOf);
    var x := Last(xs);
    GroupBySnoc(xs, KmerOf);
    LexLeRefl(x.kmer);
    if g != [] {
      var l := xs[|xs| - 2];
      assert LexLe(l.kmer, x.kmer);
      forall a | 0 <= a < |g|
        ensures LexLe(g[a][0].kmer, x.kmer)
        ensures g[a][0].kmer == x.kmer ==> l.kmer == x.kmer
      {
        LexLeTrans(g[a][0].kmer, l.kmer, x.kmer);
        if g[a][0].kmer == x.kmer {
          LexLeAntisym(l.kmer, x.kmer);
        }
      }
      SortedRunsNewHead(xs);
    }
  }

  /**
   * The runs of the stream without its last tally have distinct k-mers, and only
   * the last of them can share the k-mer of that tally; then so do the runs of
   * the whole stream.
   */
  lemma SortedRunsNewHead(xs: seq<Tally>)
    requires xs != []
    requires var g := GroupBy(xs[..|xs| - 1], KmerOf);
      && g != []
      && (forall a, b :: 0 <= a < b < |g| ==> g[a][0].kmer != g[b][0].kmer)
      && (forall a :: 0 <= a < |g| && g[a][0].kmer == Last(xs).kmer ==> a == |g| - 1)
    ensures var r := GroupBy(xs, KmerOf);
      forall a, b :: 0 <= a < b < |r| ==> r[a][0].kmer != r[b][0].kmer
  {
    var g: seq<seq<Tally>> := GroupBy(xs[..|xs| - 1], KmerOf);
    var r: seq<seq<Tally>> := GroupBy(xs, KmerOf);
    var x := Last(xs);
    GroupBySnoc(xs, KmerOf);
    forall a, b | 0 <= a < b < |r|
      ensures r[a][0].kmer != r[b][0].kmer
    {
      if b == |g| {
        assert r[b][0] == x && r[a][0] == g[a][0];
      } else {
        assert r[a][0] == g[a][0] && r[b][0] == g[b][0];
      }
    }
  }

  /** If every library's stream is sorted by k-mer, no k-mer has two rows. */
  lemma SortedStreamsDistinctRows(streams: seq<seq<Tally>>)
    requires forall s <- streams :: KmerSorted(s)
    ensures var rows := Rows(Merge(streams));
      forall i, j :: 0 <= i < j < |rows| ==> rows[i].kmer != rows[j].kmer
  {
    MergeKmerSorted(streams);
    SortedRunsDistinct(Merge(streams));
  }
}
