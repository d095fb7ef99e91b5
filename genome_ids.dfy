/**
 * Genome and replicon identifiers: `taxon_name_to_id`, `parse_replicon` and
 * `flatten_replicons` of scripts/parse_ncbi_genome_tables.py, and
 * `construct_genome_id` of scripts/parse_genbank_genome_table.py. Both id
 * builders rewrite an organism name into letters, digits and underscores, and
 * refuse the result otherwise.
 */
module GenomeIds {
  import opened Wrappers
  import opened Text
  import opened Grouping
  import opened Selection

  /** Why no identifier was built. */
  datatype IdError =
    | NoGenusLetter          // the genus word has no letter to keep (IndexError)
    | TooFewWords            // fewer than two words remain for genus and species (ValueError)
    | NotAnId(out: string)   // the rewritten name holds another character (AssertionError)

  predicate IsIdChar(c: char) { IsAlnum(c) || c == '_' }

  predicate IsId(s: string) { forall c <- s :: IsIdChar(c) }

  /** The closing check: `assert char.isalnum() or char == '_'` for every character. */
  function CheckId(out: string): Result<string, IdError>
  {
    if IsId(out) then Ok(out) else Err(NotAnId(out))
  }

  /** The check loop over the characters of `out`. */
  method CheckChars(out: string) returns (r: Result<string, IdError>)
    ensures r == CheckId(out)
  {
    for i := 0 to |out|
      invariant forall j :: 0 <= j < i ==> IsIdChar(out[j])
    {
      if !IsIdChar(out[i]) {
        return Err(NotAnId(out));
      }
    }
    return Ok(out);
  }

  /** `for char in cs: out = out.replace(char, rep)`. */
  method ReplaceEach(s: string, cs: seq<char>, rep: string) returns (out: string)
    requires forall c <- cs :: c !in rep
    ensures out == Translate(s, cs, rep)
  {
    out := s;
    for i := 0 to |cs|
      invariant out == ReplacePasses(s, cs[..i], rep)
    {
      assert cs[..i + 1][..i] == cs[..i] && cs[..i + 1][i] == cs[i];
      out := ReplaceChar(out, cs[i], rep);
    }
    assert cs[..|cs|] == cs;
    ReplacePassesTranslate(s, cs, rep);
  }

  // ---------------------------------------------------------------------------
  // taxon_name_to_id

  /** `''.join(filter(str.isalpha, s))`. */
  function Letters(s: string): string
  {
    if s == [] then [] else (if IsAlpha(s[0]) then [s[0]] else []) + Letters(s[1..])
  }

  /** The letters are empty exactly when `s` has none; otherwise the first is the first letter of `s`. */
  lemma {:induction false} LettersFirst(s: string)
    ensures Letters(s) == [] <==> forall c <- s :: !IsAlpha(c)
    ensures Letters(s) != [] ==>
      exists k :: (0 <= k < |s| && s[k] == Letters(s)[0] && IsAlpha(s[k])
        && forall j :: 0 <= j < k ==> !IsAlpha(s[j]))
  {
    if s != [] {
      LettersFirst(s[1..]);
      assert forall c <- s :: c == s[0] || c in s[1..];
      if !IsAlpha(s[0]) && Letters(s) != [] {
        var k :| 0 <= k < |s[1..]| && s[1..][k] == Letters(s[1..])[0] && IsAlpha(s[1..][k])
          && forall j :: 0 <= j < k ==> !IsAlpha(s[1..][j]);
        assert s[k + 1] == Letters(s)[0];
        assert forall j :: 1 <= j < k + 1 ==> s[j] == s[1..][j - 1];
      }
    }
  }

  /** `words.index(w)`: the first position of `w`. */
  function IndexOf(words: seq<string>, w: string): (i: nat)
    requires w in words
    ensures i < |words| && words[i] == w && w !in words[..i]
  {
    if words[0] == w then 0
    else
      var i := IndexOf(words[1..], w);
      assert words[..i + 1] == [words[0]] + words[1..][..i];
      i + 1
  }

  const Modifiers: seq<string> := ["str.", "substr.", "subsp.", "bv.", "biovar"]

  /** Which words `filter(lambda s: s not in [...], words)` lets through. */
  function NonModifierMask(words: seq<string>): seq<bool>
  {
    seq(|words|, i requires 0 <= i < |words| => words[i] !in Modifiers)
  }

  /** `filter(lambda s: s not in [...], words)`. */
  function DropModifiers(words: seq<string>): seq<string>
  {
    Select(words, NonModifierMask(words))
  }

  /**
   * The kept words are the words that are not modifiers, each once and in their
   * original order: kept word t is the word at the t-th non-modifier position.
   */
  lemma DropModifiersSpec(words: seq<string>)
    ensures var kept := DropModifiers(words);
      var ps := TruePositions(NonModifierMask(words));
      && |kept| == |ps|
      && (forall t :: 0 <= t < |ps| ==> kept[t] == words[ps[t]] && words[ps[t]] !in Modifiers)
      && (forall i :: 0 <= i < |words| && words[i] !in Modifiers ==> i in ps)
    ensures forall w <- DropModifiers(words) :: w in words && w !in Modifiers
    ensures forall w <- words :: w !in Modifiers ==> w in DropModifiers(words)
  {
    var mask := NonModifierMask(words);
    SelectAt(words, mask);
    SelectMembers(words, mask);
  }

  /** The words of a taxon name that make up its id: genus letter first, nothing from a `=` word on, no modifiers. */
  function TaxonWords(name: string): Result<seq<string>, IdError>
  {
    var words := Split(name, ' ');
    var genus := Letters(words[0]);
    if genus == [] then Err(NoGenusLetter)
    else
      var named := words[0 := [genus[0]]];
      var kept := if "=" in named then named[..IndexOf(named, "=")] else named;
      Ok(DropModifiers(kept))
  }

  const NcbiUnderscored: seq<char> := [':', '-', '/', '=', '.']
  const NcbiDropped: seq<char> := ['(', ')', '\'']

  /** `taxon_name_to_id(name)`, with the replacement loops read as one translation each. */
  function TaxonId(name: string): Result<string, IdError>
  {
    match TaxonWords(name)
    case Err(e) => Err(e)
    case Ok(words) => CheckId(Translate(Translate(Join(words, "_"), NcbiUnderscored, "_"), NcbiDropped, ""))
  }

  /** The rewriting of `taxon_name_to_id`, step by step. */
  method TaxonNameToId(name: string) returns (r: Result<string, IdError>)
    ensures r == TaxonId(name)
  {
    var words := Split(name, ' ');
    var genus := Letters(words[0]);
    if genus == [] {
      return Err(NoGenusLetter);
    }
    words := words[0 := [genus[0]]];
    if "=" in words {
      words := words[..IndexOf(words, "=")];
    }
    words := DropModifiers(words);
    var out := Join(words, "_");
    out := ReplaceEach(out, NcbiUnderscored, "_");
    out := ReplaceEach(out, NcbiDropped, "");
    r := CheckChars(out);
  }

  /**
   * The genus word is kept as its first letter and leads the words; a genus word
   * with no letter is an error. No word from the first `=` word on, and no
   * modifier word, is kept; `TaxonWordsOrder` says which words are.
   */
  lemma TaxonWordsSpec(name: string)
    ensures var first := Split(name, ' ')[0];
      TaxonWords(name).Err? <==> forall c <- first :: !IsAlpha(c)
    ensures TaxonWords(name).Ok? ==>
      var kept := TaxonWords(name).value;
      && kept != [] && kept[0] == [Letters(Split(name, ' ')[0])[0]]
      && "=" !in kept
      && forall w <- kept :: w !in Modifiers
  {
    var words := Split(name, ' ');
    LettersFirst(words[0]);
    var genus := Letters(words[0]);
    if genus != [] {
      var named := words[0 := [genus[0]]];
      var kept := if "=" in named then named[..IndexOf(named, "=")] else named;
      assert named[0] == [genus[0]];
      assert [genus[0]] !in Modifiers && [genus[0]] != "=";
      assert kept[0] == named[0];
      DropModifiersSpec(kept);
      assert DropModifiers(kept)[0] == [genus[0]];
      assert "=" !in kept;
      assert forall w <- DropModifiers(kept) :: w in kept;
    }
  }

  /**
   * With the genus word replaced by its letter, the kept words are the words
   * before the first `=` word (all of them when there is none) that are not
   * modifiers, each once and in their original order; nothing from the `=` word
   * on is kept.
   */
  lemma TaxonWordsOrder(name: string)
    requires TaxonWords(name).Ok?
    ensures var words := Split(name, ' ');
      var named := words[0 := [Letters(words[0])[0]]];
      var e := if "=" in named then IndexOf(named, "=") else |named|;
      var ps := TruePositions(NonModifierMask(named[..e]));
      var kept := TaxonWords(name).value;
      && |kept| == |ps|
      && (forall t :: 0 <= t < |ps| ==> ps[t] < e && kept[t] == named[ps[t]])
      && (forall i :: 0 <= i < e && named[i] !in Modifiers ==> i in ps)
  {
    var words := Split(name, ' ');
    var named := words[0 := [Letters(words[0])[0]]];
    var e := if "=" in named then IndexOf(named, "=") else |named|;
    assert named[..|named|] == named;
    assert TaxonWords(name).value == DropModifiers(named[..e]);
    DropModifiersSpec(named[..e]);
    var ps := TruePositions(NonModifierMask(named[..e]));
    forall i | 0 <= i < e && named[i] !in Modifiers
      ensures i in ps
    {
      assert named[..e][i] == named[i];
    }
  }

  /**
   * The kept words give an id exactly when each of their characters is a letter,
   * a digit, `_`, or one of the characters turned into `_` or dropped.
   */
  lemma TaxonIdLegal(name: string)
    requires TaxonWords(name).Ok?
    ensures var joined := Join(TaxonWords(name).value, "_");
      TaxonId(name).Ok? <==> forall c <- joined :: IsIdChar(c) || c in NcbiUnderscored || c in NcbiDropped
  {
    var joined := Join(TaxonWords(name).value, "_");
    var t1 := Translate(joined, NcbiUnderscored, "_");
    var t2 := Translate(t1, NcbiDropped, "");
    TranslateChars(joined, NcbiUnderscored, "_");
    TranslateChars(t1, NcbiDropped, "");
    if IsId(t2) {
      forall c | c in joined && !(c in NcbiUnderscored || c in NcbiDropped)
        ensures IsIdChar(c)
      {
        assert c in t1;
        assert c in t2;
      }
    }
  }

  // ---------------------------------------------------------------------------
  // parse_replicon and flatten_replicons

  datatype RepliconType = Chromosome | Plasmid

  /** `(name, replicon_type, refseq_id, genbank_id)`. */
  datatype Replicon = Replicon(name: string, kind: RepliconType, refseqId: string, genbankId: string)

  /** Why a replicon descriptor was refused. */
  datatype RepliconError =
    | ColonCount    // not exactly one `:` (ValueError from unpacking)
    | SlashCount    // a `/` but not exactly one (ValueError from unpacking)
    | UnknownKind   // the name starts with neither `chromosome` nor `plasmid` (UnboundLocalError)

  predicate StartsWith(s: string, prefix: string)
  {
    |prefix| <= |s| && s[..|prefix|] == prefix
  }

  /** `parse_replicon(r)`: the stripped descriptor must hold exactly one `:`. */
  function ParseReplicon(r: string): Result<Replicon, RepliconError>
  {
    var parts := Split(Strip(r), ':');
    if |parts| != 2 then Err(ColonCount) else RepliconOf(parts[0], parts[1])
  }

  /**
   * The rest of `parse_replicon` once the descriptor is cut at its `:`; the
   * accessions are split before the unbound type is noticed at the return.
   */
  function RepliconOf(name: string, accessions: string): Result<Replicon, RepliconError>
  {
    var ids := Split(accessions, '/');
    if '/' in accessions && |ids| != 2 then Err(SlashCount)
    else
      var refseqId := if '/' in accessions then ids[0] else "";
      var genbankId := if '/' in accessions then ids[1] else accessions;
      if StartsWith(name, "chromosome") then Ok(Replicon(name, Chromosome, refseqId, genbankId))
      else if StartsWith(name, "plasmid") then Ok(Replicon(name, Plasmid, refseqId, genbankId))
      else Err(UnknownKind)
  }

  function KindOf(name: string): RepliconType
  {
    if StartsWith(name, "chromosome") then Chromosome else Plasmid
  }

  /**
   * An accepted descriptor is `name:accessions` with one colon; the kind follows
   * the name's prefix; accessions with a `/` are `refseq/genbank`, and otherwise
   * all of them are the GenBank id and the RefSeq id is empty.
   */
  lemma ParseRepliconOk(r: string)
    requires ParseReplicon(r).Ok?
    ensures var p := ParseReplicon(r).value;
      && ':' !in p.name
      && (p.kind == Chromosome <==> StartsWith(p.name, "chromosome"))
      && (p.kind == Plasmid ==> StartsWith(p.name, "plasmid"))
      && exists accessions ::
           && Strip(r) == p.name + ":" + accessions && ':' !in accessions
           && if '/' in accessions then
                '/' !in p.refseqId && '/' !in p.genbankId && accessions == p.refseqId + "/" + p.genbankId
              else p.refseqId == "" && p.genbankId == accessions
  {
    var parts := Split(Strip(r), ':');
    JoinSplit(Strip(r), ':');
    assert parts[1..] == [parts[1]];
    assert Strip(r) == parts[0] + ":" + parts[1];
    assert ParseReplicon(r) == RepliconOf(parts[0], parts[1]);
    RepliconOfOk(parts[0], parts[1]);
    assert ':' !in parts[1];
  }

  /** A stripped descriptor without exactly one `:` is refused for that reason. */
  lemma ParseRepliconColon(r: string)
    ensures multiset(Strip(r))[':'] != 1 <==> ParseReplicon(r) == Err(ColonCount)
  {
    SplitCount(Strip(r), ':');
  }

  lemma RepliconOfOk(name: string, accessions: string)
    requires RepliconOf(name, accessions).Ok?
    ensures var p := RepliconOf(name, accessions).value;
      && p.name == name
      && (p.kind == Chromosome <==> StartsWith(name, "chromosome"))
      && (p.kind == Plasmid ==> StartsWith(name, "plasmid"))
      && if '/' in accessions then
           '/' !in p.refseqId && '/' !in p.genbankId && accessions == p.refseqId + "/" + p.genbankId
         else p.refseqId == "" && p.genbankId == accessions
  {
    if '/' in accessions {
      var ids := Split(accessions, '/');
      JoinSplit(accessions, '/');
      assert ids[1..] == [ids[1]];
      assert accessions == ids[0] + "/" + ids[1];
    }
  }

  /** A descriptor `name:refseq/genbank`, written without spaces, reads back. */
  lemma ParseRepliconWritten(name: string, refseqId: string, genbankId: string)
    requires StartsWith(name, "chromosome") || StartsWith(name, "plasmid")
    requires ':' !in name && ':' !in refseqId && ':' !in genbankId
    requires '/' !in refseqId && '/' !in genbankId
    requires NoSpace(name) && NoSpace(refseqId) && NoSpace(genbankId)
    ensures ParseReplicon(name + ":" + refseqId + "/" + genbankId)
      == Ok(Replicon(name, KindOf(name), refseqId, genbankId))
  {
    var accessions := refseqId + "/" + genbankId;
    AccessionsWritten(refseqId, genbankId);
    var d := name + ":" + refseqId + "/" + genbankId;
    assert d == name + ":" + accessions;
    SplitDescriptor(name, accessions);
    assert ParseReplicon(d) == RepliconOf(name, accessions);
  }

  lemma AccessionsWritten(refseqId: string, genbankId: string)
    requires ':' !in refseqId && ':' !in genbankId
    requires '/' !in refseqId && '/' !in genbankId
    requires NoSpace(refseqId) && NoSpace(genbankId)
    ensures var accessions := refseqId + "/" + genbankId;
      && ':' !in accessions && NoSpace(accessions)
      && '/' in accessions && Split(accessions, '/') == [refseqId, genbankId]
  {
    var accessions := refseqId + "/" + genbankId;
    assert accessions == refseqId + ['/'] + genbankId;
    assert forall c <- accessions :: c in refseqId || c == '/' || c in genbankId;
    SplitAround(refseqId, genbankId, '/');
    SplitNoSep(genbankId, '/');
    assert accessions[|refseqId|] == '/';
  }

  /** A descriptor `name:genbank` without a RefSeq id, written without spaces, reads back. */
  lemma ParseRepliconWrittenGenbank(name: string, genbankId: string)
    requires StartsWith(name, "chromosome") || StartsWith(name, "plasmid")
    requires ':' !in name && ':' !in genbankId && '/' !in genbankId
    requires NoSpace(name) && NoSpace(genbankId)
    ensures ParseReplicon(name + ":" + genbankId) == Ok(Replicon(name, KindOf(name), "", genbankId))
  {
    SplitDescriptor(name, genbankId);
  }

  lemma SplitDescriptor(name: string, accessions: string)
    requires ':' !in name && ':' !in accessions && NoSpace(name) && NoSpace(accessions)
    ensures Split(Strip(name + ":" + accessions), ':') == [name, accessions]
  {
    var s := name + ":" + accessions;
    assert s == name + [':'] + accessions;
    assert NoSpace(s);
    StripSpec(s);
    SplitAround(name, accessions, ':');
    SplitNoSep(accessions, ':');
  }

  /** The replicons of the `;`-separated pieces, in order, or the first piece that is refused. */
  function ParseReplicons(pieces: seq<string>): Result<seq<Replicon>, (nat, RepliconError)>
  {
    if pieces == [] then Ok([])
    else match ParseReplicons(pieces[..|pieces| - 1])
      case Err(e) => Err(e)
      case Ok(reps) =>
        match ParseReplicon(Last(pieces))
        case Err(why) => Err((|pieces| - 1, why))
        case Ok(rep) => Ok(reps + [rep])
  }

  /**
   * `flatten_replicons`: the list comprehension parses every piece before
   * anything is yielded, then each replicon is prefixed by the genome id.
   */
  function FlattenReplicons(genomeId: string, replicons: string): Result<seq<(string, Replicon)>, (nat, RepliconError)>
  {
    match ParseReplicons(Split(replicons, ';'))
    case Err(e) => Err(e)
    case Ok(reps) => Ok(seq(|reps|, i requires 0 <= i < |reps| => (genomeId, reps[i])))
  }

  lemma {:induction false} ParseRepliconsOk(pieces: seq<string>)
    requires ParseReplicons(pieces).Ok?
    ensures |ParseReplicons(pieces).value| == |pieces|
    ensures forall k :: 0 <= k < |pieces| ==> ParseReplicon(pieces[k]) == Ok(ParseReplicons(pieces).value[k])
  {
    if pieces != [] {
      var prefix := pieces[..|pieces| - 1];
      ParseRepliconsOk(prefix);
      var reps := ParseReplicons(pieces).value;
      assert reps == ParseReplicons(prefix).value + [ParseReplicon(Last(pieces)).value];
      forall k | 0 <= k < |pieces|
        ensures ParseReplicon(pieces[k]) == Ok(reps[k])
      {
        if k < |pieces| - 1 {
          assert pieces[k] == prefix[k];
        }
      }
    }
  }

  lemma {:induction false} ParseRepliconsErr(pieces: seq<string>)
    requires ParseReplicons(pieces).Err?
    ensures var (j, why) := ParseReplicons(pieces).error;
      && j < |pieces| && ParseReplicon(pieces[j]) == Err(why)
      && forall k :: 0 <= k < j ==> ParseReplicon(pieces[k]).Ok?
  {
    var prefix := pieces[..|pieces| - 1];
    if ParseReplicons(prefix).Err? {
      ParseRepliconsErr(prefix);
      var j := ParseReplicons(prefix).error.0;
      forall k | 0 <= k <= j
        ensures pieces[k] == prefix[k]
      {
      }
    } else {
      ParseRepliconsOk(prefix);
      forall k | 0 <= k < |prefix|
        ensures pieces[k] == prefix[k]
      {
      }
    }
  }

  /**
   * One tuple per `;`-separated piece, in order, each the genome id and the
   * piece's replicon; otherwise the error of the first piece refused.
   */
  lemma FlattenRepliconsSpec(genomeId: string, replicons: string)
    ensures var pieces := Split(replicons, ';');
      match FlattenReplicons(genomeId, replicons)
      case Ok(rows) =>
        && |rows| == |pieces| == multiset(replicons)[';'] + 1
        && forall i :: 0 <= i < |rows| ==> rows[i].0 == genomeId && ParseReplicon(pieces[i]) == Ok(rows[i].1)
      case Err((j, why)) =>
        && j < |pieces| && ParseReplicon(pieces[j]) == Err(why)
        && forall k :: 0 <= k < j ==> ParseReplicon(pieces[k]).Ok?
  {
    var pieces := Split(replicons, ';');
    JoinSplit(replicons, ';');
    if ParseReplicons(pieces).Ok? {
      ParseRepliconsOk(pieces);
    } else {
      ParseRepliconsErr(pieces);
    }
  }

  // ---------------------------------------------------------------------------
  // construct_genome_id

  /** Which words `[w for w in words if w not in ['sp.']]` keeps. */
  function NonSpMask(words: seq<string>): seq<bool>
  {
    seq(|words|, i requires 0 <= i < |words| => words[i] != "sp.")
  }

  /** `[w for w in words if w not in ['sp.']]`. */
  function DropSp(words: seq<string>): seq<string>
  {
    Select(words, NonSpMask(words))
  }

  /** `infraspecific_name[len('strain='):]`. */
  function Strain(infraspecificName: string): string
  {
    PySlice(infraspecificName, 7, |infraspecificName|)
  }

  /** On the rows kept upstream, which start with `strain=`, the strain is the rest of the name. */
  lemma StrainAfterPrefix(rest: string)
    ensures Strain("strain=" + rest) == rest
  {
    assert ("strain=" + rest)[7..] == rest;
  }

  /** `f'{genus}_{species}_{strain}'`, from the first two words that are not `sp.`. */
  function RawGenomeId(organismName: string, infraspecificName: string): Result<string, IdError>
  {
    var words := DropSp(Split(organismName, ' '));
    if |words| < 2 then Err(TooFewWords)
    else Ok(words[0] + "_" + words[1] + "_" + Strain(infraspecificName))
  }

  /**
   * The `sp.` words are dropped and the rest kept once each, in order: kept word
   * t is the word at the t-th position that is not `sp.`. So the genus is the
   * first word that is not `sp.` and the species the next such word: only `sp.`
   * words come before the one and between the two.
   */
  lemma DropSpSpec(words: seq<string>)
    ensures var kept := DropSp(words);
      var ps := TruePositions(NonSpMask(words));
      && |kept| == |ps|
      && (forall t :: 0 <= t < |ps| ==> kept[t] == words[ps[t]] && words[ps[t]] != "sp.")
      && (forall i :: 0 <= i < |words| && words[i] != "sp." ==> i in ps)
    ensures var ps := TruePositions(NonSpMask(words));
      && (forall i :: 0 <= i < |words| && (|ps| == 0 || i < ps[0]) ==> words[i] == "sp.")
      && (|ps| >= 2 ==> forall i :: ps[0] < i < ps[1] ==> words[i] == "sp.")
    ensures forall w <- DropSp(words) :: w in words && w != "sp."
    ensures forall w <- words :: w != "sp." ==> w in DropSp(words)
  {
    var mask := NonSpMask(words);
    SelectAt(words, mask);
    SelectMembers(words, mask);
    DropSpGaps(words);
  }

  /** Only `sp.` words stand before the first kept word and between the first two. */
  lemma DropSpGaps(words: seq<string>)
    ensures var ps := TruePositions(NonSpMask(words));
      && (forall i :: 0 <= i < |words| && (|ps| == 0 || i < ps[0]) ==> words[i] == "sp.")
      && (|ps| >= 2 ==> forall i :: ps[0] < i < ps[1] ==> words[i] == "sp.")
  {
    var mask := NonSpMask(words);
    assert forall i :: 0 <= i < |words| && !mask[i] ==> words[i] == "sp.";
    GapsUnset(mask);
  }

  /** Whether `'__' in s`. */
  predicate HasDouble(s: string)
  {
    |s| >= 2 && ((s[0] == '_' && s[1] == '_') || HasDouble(s[1..]))
  }

  /** `s.replace('__', '_')`: non-overlapping pairs, left to right. */
  function ReplaceDouble(s: string): string
  {
    if |s| >= 2 && s[0] == '_' && s[1] == '_' then "_" + ReplaceDouble(s[2..])
    else if s == [] then []
    else [s[0]] + ReplaceDouble(s[1..])
  }

  /** Each run of underscores squeezed to one underscore. */
  function Squeeze(s: string): string
  {
    if s == [] then []
    else if |s| >= 2 && s[0] == '_' && s[1] == '_' then Squeeze(s[1..])
    else [s[0]] + Squeeze(s[1..])
  }

  lemma {:induction false} ReplaceDoubleShorter(s: string)
    ensures |ReplaceDouble(s)| <= |s|
    ensures HasDouble(s) ==> |ReplaceDouble(s)| < |s|
  {
    if |s| >= 2 && s[0] == '_' && s[1] == '_' {
      ReplaceDoubleShorter(s[2..]);
    } else if s != [] {
      ReplaceDoubleShorter(s[1..]);
    }
  }

  lemma {:induction false} SqueezeHead(s: string)
    requires s != []
    ensures Squeeze(s) != [] && Squeeze(s)[0] == s[0]
  {
    if |s| >= 2 && s[0] == '_' && s[1] == '_' {
      SqueezeHead(s[1..]);
    }
  }

  /** A squeezed string has no `__`. */
  lemma {:induction false} SqueezeNoDouble(s: string)
    ensures !HasDouble(Squeeze(s))
  {
    if s != [] {
      SqueezeNoDouble(s[1..]);
      if !(|s| >= 2 && s[0] == '_' && s[1] == '_') && |s| >= 2 {
        SqueezeHead(s[1..]);
        var q := Squeeze(s);
        assert q[1..] == Squeeze(s[1..]);
      }
    }
  }

  /** A string without `__` is already squeezed. */
  lemma {:induction false} SqueezeFixed(s: string)
    requires !HasDouble(s)
    ensures Squeeze(s) == s
  {
    if s != [] {
      SqueezeFixed(s[1..]);
      assert s == [s[0]] + s[1..];
    }
  }

  /** Squeezing twice squeezes once. */
  lemma SqueezeIdempotent(s: string)
    ensures Squeeze(Squeeze(s)) == Squeeze(s)
  {
    SqueezeNoDouble(s);
    SqueezeFixed(Squeeze(s));
  }

  lemma SqueezeCons(c: char, x: string)
    ensures Squeeze([c] + x) == Squeeze([c] + Squeeze(x))
  {
    var s := [c] + x;
    var t := [c] + Squeeze(x);
    assert s[1..] == x && t[1..] == Squeeze(x);
    SqueezeIdempotent(x);
    if x != [] {
      SqueezeHead(x);
    }
  }

  /** One `replace('__', '_')` pass leaves the squeezed form unchanged. */
  lemma {:induction false} SqueezeReplaceDouble(s: string)
    ensures Squeeze(ReplaceDouble(s)) == Squeeze(s)
  {
    if |s| >= 2 && s[0] == '_' && s[1] == '_' {
      var t := s[2..];
      SqueezeReplaceDouble(t);
      SqueezeCons('_', ReplaceDouble(t));
      SqueezeCons('_', t);
      assert s[1..] == "_" + t;
    } else if s != [] {
      var t := s[1..];
      SqueezeReplaceDouble(t);
      SqueezeCons(s[0], ReplaceDouble(t));
      SqueezeCons(s[0], t);
      assert s == [s[0]] + t;
    }
  }

  /** Squeezing removes only underscores. */
  lemma {:induction false} SqueezeChars(s: string)
    ensures forall x <- Squeeze(s) :: x in s
    ensures forall x <- s :: x != '_' ==> x in Squeeze(s)
  {
    if s != [] {
      SqueezeChars(s[1..]);
      assert forall x <- s :: x == s[0] || x in s[1..];
      assert forall x <- s[1..] :: x in s;
    }
  }

  /** `while '__' in out: out = out.replace('__', '_')`. */
  method CollapseUnderscores(s: string) returns (out: string)
    ensures out == Squeeze(s)
  {
    out := s;
    while HasDouble(out)
      invariant Squeeze(out) == Squeeze(s)
      decreases |out|
    {
      ReplaceDoubleShorter(out);
      SqueezeReplaceDouble(out);
      out := ReplaceDouble(out);
    }
    SqueezeFixed(out);
  }

  const GenbankUnderscored: seq<char> := [' ', '/', '-', '.', '=']
  const GenbankDropped: seq<char> := ['(', ')', '[', ']', '#', ':', '\'', ';', ',']

  /** The rewriting of a raw genome id, before the closing check. */
  function CleanGenomeId(raw: string): string
  {
    var spaced := Translate(raw, GenbankUnderscored, "_");
    var signs := Translate(Translate(spaced, ['+'], "pos"), ['*'], "star");
    Squeeze(Translate(signs, GenbankDropped, ""))
  }

  /** `construct_genome_id`, with the replacement loops read as translations and the collapse loop as a squeeze. */
  function GenbankGenomeId(organismName: string, infraspecificName: string): Result<string, IdError>
  {
    match RawGenomeId(organismName, infraspecificName)
    case Err(e) => Err(e)
    case Ok(raw) => CheckId(CleanGenomeId(raw))
  }

  /** The rewriting of `construct_genome_id`, step by step. */
  method ConstructGenomeId(organismName: string, infraspecificName: string) returns (r: Result<string, IdError>)
    ensures r == GenbankGenomeId(organismName, infraspecificName)
  {
    var words := DropSp(Split(organismName, ' '));
    if |words| < 2 {
      return Err(TooFewWords);
    }
    var strain := PySlice(infraspecificName, 7, |infraspecificName|);
    var out := words[0] + "_" + words[1] + "_" + strain;
    out := ReplaceEach(out, GenbankUnderscored, "_");
    ReplaceCharTranslate(out, '+', "pos");
    out := ReplaceChar(out, '+', "pos");
    ReplaceCharTranslate(out, '*', "star");
    out := ReplaceChar(out, '*', "star");
    out := ReplaceEach(out, GenbankDropped, "");
    out := CollapseUnderscores(out);
    r := CheckChars(out);
  }

  /** A Genbank genome id never holds `__`. */
  lemma GenbankGenomeIdNoDouble(organismName: string, infraspecificName: string)
    requires GenbankGenomeId(organismName, infraspecificName).Ok?
    ensures !HasDouble(GenbankGenomeId(organismName, infraspecificName).value)
  {
    var raw := RawGenomeId(organismName, infraspecificName).value;
    var spaced := Translate(raw, GenbankUnderscored, "_");
    var signs := Translate(Translate(spaced, ['+'], "pos"), ['*'], "star");
    SqueezeNoDouble(Translate(signs, GenbankDropped, ""));
  }

  /**
   * The raw id gives a genome id exactly when each of its characters is a letter,
   * a digit, `_`, or one of the characters the rewriting replaces or drops.
   */
  lemma GenbankGenomeIdLegal(raw: string)
    ensures IsId(CleanGenomeId(raw)) <==>
      forall c <- raw :: IsIdChar(c) || c in GenbankUnderscored || c == '+' || c == '*' || c in GenbankDropped
  {
    var clean := CleanGenomeId(raw);
    if IsId(clean) {
      forall c | c in raw && !(c in GenbankUnderscored || c == '+' || c == '*' || c in GenbankDropped)
        ensures IsIdChar(c)
      {
        if c != '_' {
          CleanKeeps(raw, c);
        }
      }
    } else {
      var c :| c in clean && !IsIdChar(c);
      CleanFrom(raw, c);
    }
  }

  /** A character the rewriting neither replaces nor drops, other than `_`, survives it. */
  lemma CleanKeeps(raw: string, c: char)
    requires c in raw && c != '_'
    requires !(c in GenbankUnderscored || c == '+' || c == '*' || c in GenbankDropped)
    ensures c in CleanGenomeId(raw)
  {
    var t1 := Translate(raw, GenbankUnderscored, "_");
    var t2 := Translate(t1, ['+'], "pos");
    var t3 := Translate(t2, ['*'], "star");
    var t4 := Translate(t3, GenbankDropped, "");
    TranslateChars(raw, GenbankUnderscored, "_");
    TranslateChars(t1, ['+'], "pos");
    TranslateChars(t2, ['*'], "star");
    TranslateChars(t3, GenbankDropped, "");
    SqueezeChars(t4);
    assert c in t1;
    assert c in t2;
    assert c in t3;
    assert c in t4;
  }

  /** Every character of the rewritten id is a kept character of the raw id or comes from a replacement. */
  lemma CleanFrom(raw: string, c: char)
    requires c in CleanGenomeId(raw)
    ensures (c in raw && !(c in GenbankUnderscored || c == '+' || c == '*' || c in GenbankDropped))
      || c in "_posstar"
  {
    var t1 := Translate(raw, GenbankUnderscored, "_");
    var t2 := Translate(t1, ['+'], "pos");
    var t3 := Translate(t2, ['*'], "star");
    var t4 := Translate(t3, GenbankDropped, "");
    TranslateChars(raw, GenbankUnderscored, "_");
    TranslateChars(t1, ['+'], "pos");
    TranslateChars(t2, ['*'], "star");
    TranslateChars(t3, GenbankDropped, "");
    SqueezeChars(t4);
    assert c in t4;
    assert c in t3 || c in "";
    assert c in t2 || c in "star";
    assert c in t1 || c in "pos" || c in "star";
  }
}
