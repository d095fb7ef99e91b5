/**
 * k-mer enumeration and canonicalisation (scripts/count_kmers.py): the sliding window
 * over a sequence, the DNA reverse complement, the choice of the lexicographically
 * smaller strand, and the per-record tally of canonical k-mers.
 */
module Kmers {
  import opened Wrappers
  import opened Text
  import opened Grouping

  /** A key of `COMPLEMENT`: any other character is Python's KeyError. */
  predicate IsBase(c: char) { c == 'A' || c == 'C' || c == 'G' || c == 'T' }

  /** `COMPLEMENT[c]`: the base pairing A-T, C-G. */
  function Complement(c: char): (r: char)
    requires IsBase(c)
    ensures IsBase(r) && r != c
  {
    match c
    case 'A' => 'T'
    case 'T' => 'A'
    case 'C' => 'G'
    case 'G' => 'C'
  }

  lemma ComplementTwice(c: char)
    requires IsBase(c)
    ensures Complement(Complement(c)) == c
  {
  }

  predicate IsDna(s: string) { forall c <- s :: IsBase(c) }

  /** `list(iter_kmers(s, k))`: the window `s[i:i+k]` for every `i` in `range(len(s) - k + 1)`. */
  function IterKmers(s: string, k: int): (kmers: seq<string>)
    ensures |kmers| == if |s| - k + 1 > 0 then |s| - k + 1 else 0
    ensures k > |s| ==> kmers == []
    ensures 0 <= k ==> forall i :: 0 <= i < |kmers| ==> |kmers[i]| == k && kmers[i] == s[i..i + k]
  {
    var n := if |s| - k + 1 > 0 then |s| - k + 1 else 0;
    var kmers := seq(n, i requires 0 <= i < n => PySlice(s, i, i + k));
    assert 0 <= k ==> forall i :: 0 <= i < n ==> 0 <= i <= i + k <= |s| && kmers[i] == PySlice(s, i, i + k);
    kmers
  }

  /** `reverse_complement(s)`: complements read from the last base back; `None` is the KeyError. */
  function ReverseComplement(s: string): (r: Option<string>)
    ensures r.Some? <==> IsDna(s)
    ensures r.Some? ==> |r.value| == |s|
    ensures r.Some? ==> forall i {:trigger r.value[i]} :: 0 <= i < |s| ==> IsBase(s[|s| - 1 - i]) && r.value[i] == Complement(s[|s| - 1 - i])
  {
    if s == [] then Some([])
    else if !IsBase(Last(s)) then None
    else
      var front := s[..|s| - 1];
      assert forall c <- s :: c == Last(s) || c in front;
      match ReverseComplement(front)
      case None => None
      case Some(t) => Some([Complement(Last(s))] + t)
  }

  /** The reverse complement of DNA is DNA. */
  lemma ReverseComplementDna(s: string)
    requires IsDna(s)
    ensures IsDna(ReverseComplement(s).value)
  {
    var t := ReverseComplement(s).value;
    forall c | c in t
      ensures IsBase(c)
    {
      var i :| 0 <= i < |t| && t[i] == c;
      assert t[i] == Complement(s[|s| - 1 - i]);
    }
  }

  lemma ReverseComplementTwiceAt(s: string, i: nat)
    requires IsDna(s) && i < |s|
    ensures IsDna(ReverseComplement(s).value)
    ensures |ReverseComplement(ReverseComplement(s).value).value| == |s|
    ensures ReverseComplement(ReverseComplement(s).value).value[i] == s[i]
  {
    ReverseComplementDna(s);
    var t := ReverseComplement(s).value;
    var u := ReverseComplement(t).value;
    var j := |s| - 1 - i;
    assert t[j] == Complement(s[i]);
    assert u[i] == Complement(t[j]);
    ComplementTwice(s[i]);
  }

  /** Complementing twice gives back the strand, and the complement is again DNA. */
  lemma ReverseComplementInvolution(s: string)
    requires IsDna(s)
    ensures IsDna(ReverseComplement(s).value)
    ensures ReverseComplement(ReverseComplement(s).value) == Some(s)
  {
    ReverseComplementDna(s);
    var u := ReverseComplement(ReverseComplement(s).value).value;
    forall i | 0 <= i < |s|
      ensures u[i] == s[i]
    {
      ReverseComplementTwiceAt(s, i);
    }
    assert |u| == |s| by {
      if s != [] {
        ReverseComplementTwiceAt(s, 0);
      }
    }
    assert u == s;
  }

  /** `regularize_kmer(kmer)`: the lexicographically smaller of the k-mer and its reverse complement, the k-mer on a tie. */
  function RegularizeKmer(kmer: string): (r: Option<string>)
    ensures r.Some? <==> IsDna(kmer)
    ensures r.Some? ==>
      var rc := ReverseComplement(kmer).value;
      && (r.value == kmer || r.value == rc)
      && LexLe(r.value, kmer) && LexLe(r.value, rc)
      && (LexLe(kmer, rc) ==> r.value == kmer)
  {
    match ReverseComplement(kmer)
    case None => None
    case Some(rc) =>
      LexLeRefl(kmer);
      LexLeRefl(rc);
      LexLeTotal(kmer, rc);
      if LexLe(kmer, rc) then Some(kmer) else Some(rc)
  }

  /** A k-mer and its reverse complement have the same canonical form. */
  lemma RegularizeBothStrands(kmer: string)
    requires IsDna(kmer)
    ensures RegularizeKmer(ReverseComplement(kmer).value) == RegularizeKmer(kmer)
  {
    var rc := ReverseComplement(kmer).value;
    ReverseComplementInvolution(kmer);
    if LexLe(kmer, rc) && LexLe(rc, kmer) {
      LexLeAntisym(kmer, rc);
    }
  }

  /** Canonicalising a canonical k-mer changes nothing. */
  lemma RegularizeIdempotent(kmer: string)
    requires IsDna(kmer)
    ensures RegularizeKmer(kmer).Some?
    ensures RegularizeKmer(RegularizeKmer(kmer).value) == RegularizeKmer(kmer)
  {
    if RegularizeKmer(kmer).value != kmer {
      RegularizeBothStrands(kmer);
    }
  }

  // ---------------------------------------------------------------------------
  // The per-record Counter

  /** A `Counter` as its items in insertion order. */
  type Tally = seq<(string, nat)>

  function TallyKeys(c: Tally): seq<string>
  {
    seq(|c|, i requires 0 <= i < |c| => c[i].0)
  }

  function TallySum(c: Tally): nat
  {
    if c == [] then 0 else c[0].1 + TallySum(c[1..])
  }

  predicate DistinctKeys(c: Tally) {
    forall i, j :: 0 <= i < j < |c| ==> c[i].0 != c[j].0
  }

  /** Where a present key sits in the counter. */
  function KeyIndex(c: Tally, x: string): (i: nat)
    requires x in TallyKeys(c)
    ensures i < |c| && c[i].0 == x
  {
    assert TallyKeys(c) == [c[0].0] + TallyKeys(c[1..]);
    if c[0].0 == x then 0 else 1 + KeyIndex(c[1..], x)
  }

  lemma {:induction false} TallySumUpdate(c: Tally, i: nat, p: (string, nat))
    requires i < |c|
    ensures TallySum(c[i := p]) + c[i].1 == TallySum(c) + p.1
  {
    if i > 0 {
      TallySumUpdate(c[1..], i - 1, p);
      assert c[i := p][1..] == c[1..][i - 1 := p];
    }
  }

  lemma {:induction false} TallySumSnoc(c: Tally, p: (string, nat))
    ensures TallySum(c + [p]) == TallySum(c) + p.1
  {
    if c != [] {
      TallySumSnoc(c[1..], p);
      assert (c + [p])[1..] == c[1..] + [p];
    }
  }

  /** `counter[x] += 1`: bumps the count of a present key in place, or appends `(x, 1)`. */
  function Bump(c: Tally, x: string): (r: Tally)
    requires DistinctKeys(c)
    ensures |r| == if x in TallyKeys(c) then |c| else |c| + 1
    ensures forall i :: 0 <= i < |c| ==> r[i].0 == c[i].0
    ensures forall i :: 0 <= i < |c| ==> r[i].1 == if c[i].0 == x then c[i].1 + 1 else c[i].1
    ensures x !in TallyKeys(c) ==> r[|c|] == (x, 1)
    ensures TallySum(r) == TallySum(c) + 1
  {
    if x in TallyKeys(c) then
      var i := KeyIndex(c, x);
      TallySumUpdate(c, i, (x, c[i].1 + 1));
      c[i := (x, c[i].1 + 1)]
    else
      assert forall i :: 0 <= i < |c| ==> c[i].0 == TallyKeys(c)[i];
      TallySumSnoc(c, (x, 1));
      c + [(x, 1)]
  }

  /** Bumping keeps the keys distinct. */
  lemma BumpDistinct(c: Tally, x: string)
    requires DistinctKeys(c)
    ensures DistinctKeys(Bump(c, x))
  {
    var r := Bump(c, x);
    forall i, j | 0 <= i < j < |r|
      ensures r[i].0 != r[j].0
    {
      if j < |c| {
        assert r[i].0 == c[i].0 && r[j].0 == c[j].0;
      } else {
        assert TallyKeys(c)[i] == c[i].0;
        assert r[i].0 == c[i].0 && r[j] == (x, 1);
      }
    }
  }

  /** `Counter(xs)`. */
  function Count(xs: seq<string>): (c: Tally)
    ensures DistinctKeys(c)
    ensures TallySum(c) == |xs|
  {
    if xs == [] then []
    else
      var c := Count(xs[..|xs| - 1]);
      BumpDistinct(c, Last(xs));
      Bump(c, Last(xs))
  }

  /** The counter's keys are exactly the items. */
  lemma {:induction false} CountKeys(xs: seq<string>)
    ensures forall x :: x in xs <==> x in TallyKeys(Count(xs))
  {
    if xs != [] {
      var front, x := xs[..|xs| - 1], Last(xs);
      CountKeys(front);
      assert xs == front + [x];
      var c0, c := Count(front), Count(xs);
      assert c == Bump(c0, x);
      assert forall i :: 0 <= i < |c0| ==> TallyKeys(c0)[i] == c0[i].0 == c[i].0 == TallyKeys(c)[i];
      if x in TallyKeys(c0) {
        assert |TallyKeys(c)| == |TallyKeys(c0)|;
        assert TallyKeys(c) == TallyKeys(c0);
      } else {
        assert TallyKeys(c) == TallyKeys(c0) + [x];
      }
    }
  }

  /** Each key of the counter holds how often its item occurs. */
  lemma {:induction false} CountMultiplicity(xs: seq<string>)
    ensures forall i :: 0 <= i < |Count(xs)| ==> Count(xs)[i].1 == multiset(xs)[Count(xs)[i].0]
  {
    if xs != [] {
      var front, x := xs[..|xs| - 1], Last(xs);
      CountMultiplicity(front);
      CountKeys(front);
      assert xs == front + [x];
      assert multiset(xs) == multiset(front) + multiset{x};
      var c0, c := Count(front), Count(xs);
      assert c == Bump(c0, x);
      forall i | 0 <= i < |c| ensures c[i].1 == multiset(xs)[c[i].0] {
        if i < |c0| {
          assert c[i].0 == c0[i].0;
          assert c0[i].1 == multiset(front)[c0[i].0];
        } else {
          assert x !in TallyKeys(c0);
          assert x !in front;
        }
      }
    }
  }

  /** The canonical k-mers of a sequence, or `None` once a window holds a base outside ACGT. */
  function CanonicalKmers(kmers: seq<string>): (r: Option<seq<string>>)
    ensures r.Some? <==> forall i :: 0 <= i < |kmers| ==> IsDna(kmers[i])
    ensures r.Some? ==> |r.value| == |kmers|
    ensures r.Some? ==> forall i :: 0 <= i < |kmers| ==> r.value[i] == RegularizeKmer(kmers[i]).value
  {
    if kmers == [] then Some([])
    else
      match RegularizeKmer(kmers[0])
      case None => None
      case Some(m) =>
        match CanonicalKmers(kmers[1..])
        case None => None
        case Some(rest) => Some([m] + rest)
  }

  /** `Counter(regularize_kmer(kmer) for kmer in iter_kmers(seq, k))` for one record. */
  function CountRecord(s: string, k: int): Option<Tally>
  {
    match CanonicalKmers(IterKmers(s, k))
    case None => None
    case Some(canon) => Some(Count(canon))
  }

  /**
   * A record's counter exists exactly when every window is DNA; its counts then add up
   * to the number of windows, and each entry counts the windows with that canonical form.
   */
  lemma RecordCounts(s: string, k: int)
    ensures CountRecord(s, k).Some? <==> forall i :: 0 <= i < |IterKmers(s, k)| ==> IsDna(IterKmers(s, k)[i])
    ensures CountRecord(s, k).Some? ==>
      var c := CountRecord(s, k).value;
      && TallySum(c) == |IterKmers(s, k)|
      && forall i :: 0 <= i < |c| ==>
           c[i].1 == |set j | 0 <= j < |IterKmers(s, k)| && RegularizeKmer(IterKmers(s, k)[j]) == Some(c[i].0)|
  {
    var kmers := IterKmers(s, k);
    var canon := CanonicalKmers(kmers);
    if canon.Some? {
      CountKeys(canon.value);
      CountMultiplicity(canon.value);
      assert |canon.value| == |kmers|;
      var c := Count(canon.value);
      forall i | 0 <= i < |c|
        ensures c[i].1 == |set j | 0 <= j < |kmers| && RegularizeKmer(kmers[j]) == Some(c[i].0)|
      {
        OccurrencesAsIndices(canon.value, c[i].0);
        assert (set j | 0 <= j < |kmers| && RegularizeKmer(kmers[j]) == Some(c[i].0))
            == (set j | 0 <= j < |canon.value| && canon.value[j] == c[i].0);
      }
    }
  }

  /** How often an item occurs is the number of positions holding it. */
  lemma {:induction false} OccurrencesAsIndices(xs: seq<string>, x: string)
    ensures multiset(xs)[x] == |set j | 0 <= j < |xs| && xs[j] == x|
  {
    if xs != [] {
      var front := xs[..|xs| - 1];
      OccurrencesAsIndices(front, x);
      assert xs == front + [Last(xs)];
      var before := set j | 0 <= j < |front| && front[j] == x;
      var after := set j | 0 <= j < |xs| && xs[j] == x;
      if Last(xs) == x {
        assert after == before + {|xs| - 1};
      } else {
        assert after == before;
      }
    }
  }
}
