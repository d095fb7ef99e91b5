/**
 * Per-contig mean coverage from a samtools-style depth file (scripts/estimate_contig_coverage.py):
 * the depth lines are cut into runs of one contig id, and each run is matched against
 * a contig-length file that is read forward only.
 */
module ContigCoverage {
  import opened Wrappers
  import opened Text
  import opened Grouping

  /** One parsed depth line: `(contig_id, int(position), int(depth))`. */
  datatype DepthRecord = DepthRecord(contig: string, position: int, depth: int)

  function ContigOf(r: DepthRecord): string { r.contig }

  /** Why a line of one of the two input files was refused. */
  datatype LineError = FieldCount | NotAnInt

  datatype CoverageError =
    | BadDepthLine(line: nat, why: LineError)     // ValueError while reading the depth file
    | EmptyDepthTable                             // IndexError: `depth_table[0][0]` on the empty chunk
    | LengthNotFound(contig: string)              // StopIteration: the length file ran out
    | BadLengthLine(line: nat, why: LineError)    // ValueError while reading the length file
    | ZeroLength(line: nat)                       // ZeroDivisionError

  /** One output row: the contig id, the sum of its depths and its length. */
  datatype CoverageRow = CoverageRow(contig: string, depthSum: int, length: int)
  {
    /** `sum(depths) / length`, the coverage `main` prints, as an exact ratio. */
    function Coverage(): real
      requires length != 0
    {
      depthSum as real / length as real
    }
  }

  // ---------------------------------------------------------------------------
  // chunk_depth

  /** `(contig_id, int(position), int(depth))` for the three fields of a depth line. */
  function ConvertDepthFields(fields: seq<string>): Result<DepthRecord, LineError>
    requires |fields| == 3
  {
    match (ParseInt(fields[1]), ParseInt(fields[2]))
    case (Some(p), Some(d)) => Ok(DepthRecord(fields[0], p, d))
    case _ => Err(NotAnInt)
  }

  /** `contig_id, position, depth = line.split()` followed by the conversion of the numbers. */
  function ParseDepthLine(line: string): Result<DepthRecord, LineError>
  {
    var fields := SplitWs(line);
    if |fields| != 3 then Err(FieldCount) else ConvertDepthFields(fields)
  }

  /** The records of all lines, or the index of the first line that does not parse and why. */
  function DepthRecords(lines: seq<string>): Result<seq<DepthRecord>, (nat, LineError)>
  {
    if lines == [] then Ok([])
    else match DepthRecords(lines[..|lines| - 1])
      case Err(e) => Err(e)
      case Ok(recs) =>
        match ParseDepthLine(Last(lines))
        case Ok(r) => Ok(recs + [r])
        case Err(why) => Err((|lines| - 1, why))
  }

  /** When every line parses, the records are the lines' records, in order. */
  lemma {:induction false} DepthRecordsOk(lines: seq<string>)
    requires DepthRecords(lines).Ok?
    ensures |DepthRecords(lines).value| == |lines|
    ensures forall k :: 0 <= k < |lines| ==> ParseDepthLine(lines[k]) == Ok(DepthRecords(lines).value[k])
  {
    if lines != [] {
      var prefix := lines[..|lines| - 1];
      DepthRecordsOk(prefix);
      var recs := DepthRecords(lines).value;
      assert recs == DepthRecords(prefix).value + [ParseDepthLine(Last(lines)).value];
      forall k | 0 <= k < |lines|
        ensures ParseDepthLine(lines[k]) == Ok(recs[k])
      {
        if k < |lines| - 1 {
          assert lines[k] == prefix[k];
        }
      }
    }
  }

  /** The line a failure names is the first line that does not parse. */
  lemma {:induction false} DepthRecordsErr(lines: seq<string>)
    requires DepthRecords(lines).Err?
    ensures
      var (j, why) := DepthRecords(lines).error;
      && j < |lines| && ParseDepthLine(lines[j]) == Err(why)
      && (forall k :: 0 <= k < j ==> ParseDepthLine(lines[k]).Ok?)
      && DepthRecords(lines[..j]).Ok?
  {
    var prefix := lines[..|lines| - 1];
    if DepthRecords(prefix).Err? {
      DepthRecordsErr(prefix);
      var j := DepthRecords(prefix).error.0;
      assert lines[..j] == prefix[..j];
      forall k | 0 <= k <= j
        ensures lines[k] == prefix[k]
      {
      }
    } else {
      DepthRecordsOk(prefix);
      forall k | 0 <= k < |prefix|
        ensures lines[k] == prefix[k]
      {
      }
    }
  }

  /** The chunks of a list of records: its runs of one contig, or a single empty chunk for no records. */
  function Chunks(recs: seq<DepthRecord>): (chunks: seq<seq<DepthRecord>>)
    ensures chunks != []
  {
    if recs == [] then [[]] else GroupBy(recs, ContigOf)
  }

  /** One more record either extends the last chunk or starts a new one. */
  lemma ChunksSnoc(recs: seq<DepthRecord>, r: DepthRecord)
    ensures recs == [] ==> Chunks(recs + [r]) == [[r]]
    ensures recs != [] && Last(Chunks(recs))[0].contig == r.contig ==>
      Chunks(recs + [r]) == Chunks(recs)[..|Chunks(recs)| - 1] + [Last(Chunks(recs)) + [r]]
    ensures recs != [] && Last(Chunks(recs))[0].contig != r.contig ==>
      Chunks(recs + [r]) == Chunks(recs) + [[r]]
  {
    assert (recs + [r])[..|recs|] == recs;
  }

  /** The state of the `chunk_depth` generator between lines: the chunks yielded so far and the current one. */
  datatype ChunkState = ChunkState(yielded: seq<seq<DepthRecord>>, chunk: seq<DepthRecord>)

  /**
   * One line through the generator: split it, yield the current chunk if the line starts
   * another contig, then convert its numbers. A failure reports what has been yielded by then.
   */
  function FeedLine(st: ChunkState, line: string): Result<ChunkState, (seq<seq<DepthRecord>>, LineError)>
  {
    var fields := SplitWs(line);
    if |fields| != 3 then Err((st.yielded, FieldCount))
    else
      var newContig := st.chunk != [] && fields[0] != st.chunk[0].contig;
      var yielded := if newContig then st.yielded + [st.chunk] else st.yielded;
      match ConvertDepthFields(fields)
      case Err(why) => Err((yielded, why))
      case Ok(r) => Ok(ChunkState(yielded, if newContig then [r] else st.chunk + [r]))
  }

  /** The generator run over `lines`: its state at the end, or where it failed and what it had yielded. */
  function FeedLines(lines: seq<string>): Result<ChunkState, (nat, seq<seq<DepthRecord>>, LineError)>
  {
    if lines == [] then Ok(ChunkState([], []))
    else match FeedLines(lines[..|lines| - 1])
      case Err(e) => Err(e)
      case Ok(st) =>
        match FeedLine(st, Last(lines))
        case Ok(st') => Ok(st')
        case Err((yielded, why)) => Err((|lines| - 1, yielded, why))
  }

  /** What `chunk_depth(lines)` yields, in order, and the ValueError it ends with, if any. */
  function DepthChunks(lines: seq<string>): (seq<seq<DepthRecord>>, Option<CoverageError>)
  {
    match FeedLines(lines)
    case Ok(st) => (st.yielded + [st.chunk], None)
    case Err((j, yielded, why)) => (yielded, Some(BadDepthLine(j, why)))
  }

  /** A line that parses feeds the generator its record. */
  lemma FeedLineParsed(st: ChunkState, line: string)
    requires st.chunk != [] ==> st.yielded + [st.chunk] != []
    ensures FeedLine(st, line).Ok? <==> ParseDepthLine(line).Ok?
    ensures ParseDepthLine(line).Ok? ==>
      var r := ParseDepthLine(line).value;
      var newContig := st.chunk != [] && r.contig != st.chunk[0].contig;
      FeedLine(st, line).value ==
        if newContig then ChunkState(st.yielded + [st.chunk], [r]) else ChunkState(st.yielded, st.chunk + [r])
    ensures ParseDepthLine(line).Err? ==> FeedLine(st, line).error.1 == ParseDepthLine(line).error
  {
  }

  /** On lines that all parse, the generator's state is the run partition of their records, the current run last. */
  lemma {:induction false} FeedLinesChunks(lines: seq<string>)
    ensures FeedLines(lines).Ok? <==> DepthRecords(lines).Ok?
    ensures FeedLines(lines).Ok? ==>
      var st := FeedLines(lines).value;
      && st.yielded + [st.chunk] == Chunks(DepthRecords(lines).value)
      && (st.chunk != [] <==> lines != [])
  {
    if lines != [] {
      var prefix := lines[..|lines| - 1];
      FeedLinesChunks(prefix);
      if FeedLines(prefix).Ok? {
        var st := FeedLines(prefix).value;
        var recs := DepthRecords(prefix).value;
        FeedLineParsed(st, Last(lines));
        if ParseDepthLine(Last(lines)).Ok? {
          var r := ParseDepthLine(Last(lines)).value;
          ChunksSnoc(recs, r);
          if prefix != [] {
            assert Last(Chunks(recs)) == st.chunk;
            GroupByIsRunPartition(recs, ContigOf);
            assert st.chunk != [];
          }
        }
      }
    }
  }

  /** The chunks `chunk_depth` yields on lines that all parse: one per run of a contig id, in order. */
  lemma DepthChunksRuns(lines: seq<string>)
    ensures DepthChunks(lines).1.None? <==> DepthRecords(lines).Ok?
    ensures lines == [] ==> DepthChunks(lines).0 == [[]]
    ensures lines != [] && DepthRecords(lines).Ok? ==>
      IsRunPartition(DepthRecords(lines).value, DepthChunks(lines).0, ContigOf)
  {
    FeedLinesChunks(lines);
    if lines != [] && DepthRecords(lines).Ok? {
      GroupByIsRunPartition(DepthRecords(lines).value, ContigOf);
    }
  }

  /**
   * When line `j` is the first that does not parse, `chunk_depth` has yielded every run of the
   * lines before it except the current one, and the current one too if line `j` has three
   * fields and another contig id.
   */
  lemma DepthChunksStop(lines: seq<string>)
    requires DepthRecords(lines).Err?
    ensures
      var (j, why) := DepthRecords(lines).error;
      && j < |lines| && DepthRecords(lines[..j]).Ok?
      && var runs := Chunks(DepthRecords(lines[..j]).value);
      var fields := SplitWs(lines[j]);
      var yieldsCurrent := j > 0 && |fields| == 3 && fields[0] != Last(runs)[0].contig;
      DepthChunks(lines) == (if yieldsCurrent then runs else runs[..|runs| - 1], Some(BadDepthLine(j, why)))
  {
    FeedLinesStop(lines);
    var (j, why) := DepthRecords(lines).error;
    FeedLinesChunks(lines[..j]);
    var st := FeedLines(lines[..j]).value;
    var runs := Chunks(DepthRecords(lines[..j]).value);
    assert runs == st.yielded + [st.chunk];
    assert Last(runs) == st.chunk && runs[..|runs| - 1] == st.yielded;
    assert st.chunk != [] <==> j > 0 by {
      assert lines[..j] != [] <==> j > 0;
    }
  }

  lemma {:induction false} FeedLinesStop(lines: seq<string>)
    requires DepthRecords(lines).Err?
    ensures
      var (j, why) := DepthRecords(lines).error;
      && j < |lines| && DepthRecords(lines[..j]).Ok?
      && FeedLines(lines[..j]).Ok?
      && FeedLines(lines).Err?
      && FeedLines(lines).error.0 == j && FeedLines(lines).error.2 == why
      && FeedLine(FeedLines(lines[..j]).value, lines[j]) == Err((FeedLines(lines).error.1, why))
  {
    var prefix := lines[..|lines| - 1];
    if DepthRecords(prefix).Err? {
      FeedLinesStop(prefix);
      var j := DepthRecords(prefix).error.0;
      assert lines[..j] == prefix[..j];
      assert lines[j] == prefix[j];
    } else {
      FeedLinesChunks(prefix);
      assert lines[..|lines| - 1] == prefix;
      FeedLineParsed(FeedLines(prefix).value, Last(lines));
    }
  }

  /** Once the generator has failed, later lines change nothing. */
  lemma {:induction false} FeedLinesFailed(lines: seq<string>, i: nat)
    requires i <= |lines| && FeedLines(lines[..i]).Err?
    ensures FeedLines(lines) == FeedLines(lines[..i])
    decreases |lines|
  {
    if i < |lines| {
      var prefix := lines[..|lines| - 1];
      assert prefix[..i] == lines[..i];
      FeedLinesFailed(prefix, i);
    } else {
      assert lines[..i] == lines;
    }
  }

  /** `chunk_depth(lines)`: the runs it yields, in order, and the ValueError it ends with, if any. */
  method ChunkDepth(lines: seq<string>) returns (chunks: seq<seq<DepthRecord>>, err: Option<CoverageError>)
    ensures (chunks, err) == DepthChunks(lines)
  {
    chunks := [];
    var chunk: seq<DepthRecord> := [];
    var chunkContigId: string := [];
    var i := 0;
    while i < |lines|
      invariant 0 <= i <= |lines|
      invariant FeedLines(lines[..i]) == Ok(ChunkState(chunks, chunk))
      invariant chunk != [] ==> chunkContigId == chunk[0].contig
    {
      assert lines[..i + 1][..i] == lines[..i] && Last(lines[..i + 1]) == lines[i];
      ghost var st := ChunkState(chunks, chunk);
      var fields := SplitWs(lines[i]);
      if |fields| != 3 {
        err := Some(BadDepthLine(i, FieldCount));
        assert FeedLines(lines[..i + 1]) == Err((i, chunks, FieldCount));
        FeedLinesFailed(lines, i + 1);
        return;
      }
      var contigId := fields[0];
      if chunk == [] {
        chunkContigId := contigId;
      }
      var yielded := contigId != chunkContigId;
      if yielded {
        chunks := chunks + [chunk];
      }
      var converted := ConvertDepthFields(fields);
      if converted.Err? {
        err := Some(BadDepthLine(i, converted.error));
        assert FeedLines(lines[..i + 1]) == Err((i, chunks, converted.error));
        FeedLinesFailed(lines, i + 1);
        return;
      }
      if yielded {
        chunk := [converted.value];
        chunkContigId := contigId;
      } else {
        chunk := chunk + [converted.value];
      }
      assert FeedLine(st, lines[i]) == Ok(ChunkState(chunks, chunk));
      i := i + 1;
    }
    assert lines[..i] == lines;
    chunks := chunks + [chunk];
    err := None;
  }

  // ---------------------------------------------------------------------------
  // main: the forward scan of the length file

  /** `contig_id_b, length = line.split()`. */
  function LengthFields(line: string): Option<(string, string)>
  {
    var fields := SplitWs(line);
    if |fields| == 2 then Some((fields[0], fields[1])) else None
  }

  /**
   * Where the scan for `contig` that starts at line `pos` of the length file stops:
   * the line holding `contig`, the first line without two fields, or the end of the file.
   */
  function FindLength(lines: seq<string>, pos: nat, contig: string): (r: Result<(nat, string), CoverageError>)
    requires pos <= |lines|
    ensures r.Ok? ==> pos <= r.value.0 < |lines|
    ensures r.Err? ==>
      || r.error == LengthNotFound(contig)
      || (r.error.BadLengthLine? && pos <= r.error.line < |lines| && r.error.why == FieldCount)
    decreases |lines| - pos
  {
    if pos == |lines| then Err(LengthNotFound(contig))
    else match LengthFields(lines[pos])
      case None => Err(BadLengthLine(pos, FieldCount))
      case Some((id, length)) => if id == contig then Ok((pos, length)) else FindLength(lines, pos + 1, contig)
  }

  /** The line the scan stops at, or the end of the file. */
  function ScanEnd(lines: seq<string>, pos: nat, contig: string): (stop: nat)
    requires pos <= |lines|
    ensures pos <= stop <= |lines|
  {
    match FindLength(lines, pos, contig)
    case Ok((q, _)) => q
    case Err(e) => if e.BadLengthLine? then e.line else |lines|
  }

  /**
   * Every line the scan passes over is a well-formed line of another contig; it stops on
   * the first line of `contig` or the first line without two fields, and runs out only
   * when neither follows.
   */
  lemma {:induction false} FindLengthScan(lines: seq<string>, pos: nat, contig: string)
    requires pos <= |lines|
    ensures var stop := ScanEnd(lines, pos, contig);
      forall k :: pos <= k < stop ==> LengthFields(lines[k]).Some? && LengthFields(lines[k]).value.0 != contig
    ensures var r := FindLength(lines, pos, contig);
      r.Ok? ==> LengthFields(lines[r.value.0]) == Some((contig, r.value.1))
    ensures var r := FindLength(lines, pos, contig);
      r.Err? && r.error.BadLengthLine? ==> LengthFields(lines[r.error.line]).None?
    decreases |lines| - pos
  {
    if pos < |lines| && LengthFields(lines[pos]).Some? && LengthFields(lines[pos]).value.0 != contig {
      FindLengthScan(lines, pos + 1, contig);
    }
  }

  function DepthSum(table: seq<DepthRecord>): int
  {
    if table == [] then 0 else DepthSum(table[..|table| - 1]) + Last(table).depth
  }

  /** The row for one depth table, and the length-file line the next scan starts from. */
  function CoverOne(table: seq<DepthRecord>, lines: seq<string>, pos: nat): (r: Result<(CoverageRow, nat), CoverageError>)
    requires pos <= |lines|
    ensures r.Ok? ==> pos < r.value.1 <= |lines|
    ensures r.Ok? ==>
      && table != [] && r.value.0.contig == table[0].contig
      && r.value.0.depthSum == DepthSum(table) && r.value.0.length != 0
  {
    if table == [] then Err(EmptyDepthTable)
    else match FindLength(lines, pos, table[0].contig)
      case Err(e) => Err(e)
      case Ok((q, length)) =>
        match ParseInt(length)
        case None => Err(BadLengthLine(q, NotAnInt))
        case Some(length) =>
          if length == 0 then Err(ZeroLength(q))
          else Ok((CoverageRow(table[0].contig, DepthSum(table), length), q + 1))
  }

  /** The rows printed for `chunks` with the length file read from line `pos` on, and the error that stops them. */
  function CoverageRows(chunks: seq<seq<DepthRecord>>, lines: seq<string>, pos: nat): (seq<CoverageRow>, Option<CoverageError>)
    requires pos <= |lines|
    decreases |chunks|
  {
    if chunks == [] then ([], None)
    else match CoverOne(chunks[0], lines, pos)
      case Err(e) => ([], Some(e))
      case Ok((row, next)) =>
        var (rest, err) := CoverageRows(chunks[1..], lines, next);
        ([row] + rest, err)
  }

  /**
   * Everything `main` prints after the header, and how it ends: the rows of the chunks
   * until the length scan fails, or the chunker's own error once its chunks are spent.
   */
  function Report(depthLines: seq<string>, lengthLines: seq<string>): (seq<CoverageRow>, Option<CoverageError>)
  {
    var (chunks, chunkErr) := DepthChunks(depthLines);
    var (rows, err) := CoverageRows(chunks, lengthLines, 0);
    (rows, if err.Some? then err else chunkErr)
  }

  /** The body of `main`'s loop for one depth table: scan the length file forward, then divide. */
  method CoverChunk(table: seq<DepthRecord>, lines: seq<string>, pos: nat) returns (r: Result<(CoverageRow, nat), CoverageError>)
    requires pos <= |lines|
    ensures r == CoverOne(table, lines, pos)
  {
    if table == [] {
      return Err(EmptyDepthTable);
    }
    var contigId := table[0].contig;
    var contigIdB: Option<string> := None;
    var length := "";
    var next := pos;
    while contigIdB != Some(contigId)
      invariant pos <= next <= |lines|
      invariant contigIdB != Some(contigId) ==> FindLength(lines, pos, contigId) == FindLength(lines, next, contigId)
      invariant contigIdB == Some(contigId) ==>
        next > pos && FindLength(lines, pos, contigId) == Ok((next - 1, length))
      decreases |lines| - next, if contigIdB == Some(contigId) then 0 else 1
    {
      if next == |lines| {
        assert FindLength(lines, next, contigId) == Err(LengthNotFound(contigId));
        return Err(LengthNotFound(contigId));
      }
      var fields := SplitWs(lines[next]);
      if |fields| != 2 {
        assert FindLength(lines, next, contigId) == Err(BadLengthLine(next, FieldCount));
        return Err(BadLengthLine(next, FieldCount));
      }
      contigIdB, length := Some(fields[0]), fields[1];
      next := next + 1;
    }
    var n := ParseInt(length);
    if n.None? {
      r := Err(BadLengthLine(next - 1, NotAnInt));
    } else if n.value == 0 {
      r := Err(ZeroLength(next - 1));
    } else {
      r := Ok((CoverageRow(contigId, DepthSum(table), n.value), next));
    }
    assert FindLength(lines, pos, contigId) == Ok((next - 1, length));
  }

  /**
   * A row's length is the one on the first line of the table's contig that the forward
   * scan reaches, and the scan only passed well-formed lines of other contigs.
   */
  lemma CoverOneRow(table: seq<DepthRecord>, lines: seq<string>, pos: nat)
    requires pos <= |lines|
    requires CoverOne(table, lines, pos).Ok?
    ensures var (row, next) := CoverOne(table, lines, pos).value;
      && LengthFields(lines[next - 1]).Some?
      && LengthFields(lines[next - 1]).value.0 == row.contig
      && ParseInt(LengthFields(lines[next - 1]).value.1) == Some(row.length)
      && forall k :: pos <= k < next - 1 ==> LengthFields(lines[k]).Some? && LengthFields(lines[k]).value.0 != row.contig
  {
    var contig := table[0].contig;
    FindLengthScan(lines, pos, contig);
    var (q, length) := FindLength(lines, pos, contig).value;
    var (row, next) := CoverOne(table, lines, pos).value;
    assert next - 1 == q && row.contig == contig;
    assert lines[next - 1] == lines[q];
    assert LengthFields(lines[q]) == Some((contig, length));
    assert ParseInt(length) == Some(row.length);
    assert ScanEnd(lines, pos, contig) == q;
  }

  /** `main` prints one row per table, in order, until the first table whose scan fails. */
  lemma {:induction false} CoverageRowsOrder(chunks: seq<seq<DepthRecord>>, lines: seq<string>, pos: nat)
    requires pos <= |lines|
    ensures var (rows, err) := CoverageRows(chunks, lines, pos);
      && |rows| <= |chunks|
      && (err.None? <==> |rows| == |chunks|)
      && forall i :: 0 <= i < |rows| ==>
           chunks[i] != [] && rows[i].contig == chunks[i][0].contig && rows[i].depthSum == DepthSum(chunks[i])
           && rows[i].length != 0
    decreases |chunks|
  {
    if chunks != [] {
      if CoverOne(chunks[0], lines, pos).Ok? {
        var next := CoverOne(chunks[0], lines, pos).value.1;
        CoverageRowsOrder(chunks[1..], lines, next);
        var (rows, err) := CoverageRows(chunks, lines, pos);
        var (rest, _) := CoverageRows(chunks[1..], lines, next);
        assert rows == [CoverOne(chunks[0], lines, pos).value.0] + rest;
        forall i | 1 <= i < |rows|
          ensures chunks[i] == chunks[1..][i - 1] && rows[i] == rest[i - 1]
        {
        }
      }
    }
  }

  /** An empty depth file makes `main` fail on `depth_table[0][0]` before printing a row. */
  lemma EmptyDepthFile(lengthLines: seq<string>)
    ensures Report([], lengthLines) == ([], Some(EmptyDepthTable))
  {
    var st := ChunkState([], []);
    assert FeedLines([]) == Ok(st);
    assert st.yielded + [st.chunk] == [[]];
    assert DepthChunks([]) == ([[]], None);
    assert CoverOne([], lengthLines, 0) == Err(EmptyDepthTable);
  }

  /**
   * On a well-formed depth file, the rows follow the runs of contig ids in order: row `i`
   * is the `i`-th run's contig and the sum of its depths; all runs get a row unless a scan fails.
   */
  lemma ReportFollowsRuns(depthLines: seq<string>, lengthLines: seq<string>)
    requires depthLines != [] && DepthRecords(depthLines).Ok?
    ensures var runs := GroupBy(DepthRecords(depthLines).value, ContigOf);
      var (rows, err) := Report(depthLines, lengthLines);
      && |rows| <= |runs|
      && (err.None? <==> |rows| == |runs|)
      && forall i :: 0 <= i < |rows| ==> rows[i].contig == runs[i][0].contig && rows[i].depthSum == DepthSum(runs[i])
  {
    var recs := DepthRecords(depthLines).value;
    var (chunks, chunkErr) := DepthChunks(depthLines);
    DepthChunksRuns(depthLines);
    assert chunkErr.None?;
    RunPartitionUnique(recs, chunks, ContigOf);
    assert chunks == GroupBy(recs, ContigOf);
    CoverageRowsOrder(chunks, lengthLines, 0);
    ReportOfChunks(depthLines, lengthLines, chunks, chunkErr);
  }

  /** `Report` in terms of what the chunker returned. */
  lemma ReportOfChunks(depthLines: seq<string>, lengthLines: seq<string>, chunks: seq<seq<DepthRecord>>, chunkErr: Option<CoverageError>)
    requires (chunks, chunkErr) == DepthChunks(depthLines)
    ensures var (rows, err) := CoverageRows(chunks, lengthLines, 0);
      Report(depthLines, lengthLines) == (rows, if err.Some? then err else chunkErr)
  {
  }

  /** `main`'s loop over the depth tables: one row per table until a scan fails. */
  method CoverChunks(chunks: seq<seq<DepthRecord>>, lengthLines: seq<string>)
    returns (rows: seq<CoverageRow>, err: Option<CoverageError>)
    ensures (rows, err) == CoverageRows(chunks, lengthLines, 0)
  {
    rows := [];
    var pos: nat := 0;
    var c := 0;
    while c < |chunks|
      invariant 0 <= c <= |chunks| && pos <= |lengthLines|
      invariant CoverageRows(chunks, lengthLines, 0).0 == rows + CoverageRows(chunks[c..], lengthLines, pos).0
      invariant CoverageRows(chunks, lengthLines, 0).1 == CoverageRows(chunks[c..], lengthLines, pos).1
    {
      assert chunks[c..][0] == chunks[c] && chunks[c..][1..] == chunks[c + 1..];
      var r := CoverChunk(chunks[c], lengthLines, pos);
      if r.Err? {
        assert CoverageRows(chunks[c..], lengthLines, pos) == ([], Some(r.error));
        assert rows + [] == rows;
        err := Some(r.error);
        return;
      }
      ghost var rest := CoverageRows(chunks[c + 1..], lengthLines, r.value.1);
      assert CoverageRows(chunks[c..], lengthLines, pos) == ([r.value.0] + rest.0, rest.1);
      rows := rows + [r.value.0];
      pos := r.value.1;
      c := c + 1;
    }
    assert CoverageRows(chunks[c..], lengthLines, pos) == ([], None);
    assert rows + [] == rows;
    err := None;
  }

  /** `main()` with the two files given as their lines: the rows it prints after the header, and the error it stops with. */
  method EstimateCoverage(depthLines: seq<string>, lengthLines: seq<string>)
    returns (rows: seq<CoverageRow>, err: Option<CoverageError>)
    ensures (rows, err) == Report(depthLines, lengthLines)
  {
    var chunks, chunkErr := ChunkDepth(depthLines);
    ReportOfChunks(depthLines, lengthLines, chunks, chunkErr);
    rows, err := CoverChunks(chunks, lengthLines);
    if err.None? {
      err := chunkErr;
    }
  }
}
