/**
 * The main blocks of scripts/merge_kmer_counts.py and scripts/test_sparse_svd.py:
 * read `lib:path` arguments, print a header of the libraries, and print one
 * zero-filled row per k-mer of the merged tally streams — every row for the
 * sparse-SVD table, only rows reported by enough libraries with a large enough
 * total for the merged count table.
 *
 * Files are a map from path to the file's lines; printed lines are returned.
 */
module KmerTable {
  import opened Wrappers
  import opened Text
  import opened Grouping
  import opened Selection
  import opened TallyMerge

  /** Why a table was not produced; argument and line numbers count from 0. */
  datatype TableError =
    | ArgCount                    // fewer than two threshold arguments
    | BadMinLibs                  // `int(min_libs)` failed
    | BadMinCounts                // `int(min_counts)` failed
    | BadLibArg(arg: nat)         // a library argument is not `lib:path`
    | MissingFile(arg: nat)       // a library's path is not a file
    | BadTallyLine(arg: nat, line: nat, why: LineError)

  // ---------------------------------------------------------------------------
  // Library arguments and the header

  /** `lib, path = arg.strip().split(':')`. */
  function ParseLibArg(arg: string): Option<(string, string)>
  {
    var parts := Split(Strip(arg), ':');
    if |parts| != 2 then None else Some((parts[0], parts[1]))
  }

  /** An argument is accepted exactly when its stripped text holds one colon, and then it is `lib:path`. */
  lemma ParseLibArgColon(arg: string)
    ensures ParseLibArg(arg).Some? <==> multiset(Strip(arg))[':'] == 1
    ensures ParseLibArg(arg).Some? ==>
      var (lib, path) := ParseLibArg(arg).value;
      ':' !in lib && ':' !in path && Strip(arg) == lib + ":" + path
  {
    JoinSplit(Strip(arg), ':');
  }

  /** `lib:path`, written without spaces or further colons, reads back as its two parts. */
  lemma ParseLibArgWritten(lib: string, path: string)
    requires ':' !in lib && ':' !in path && NoSpace(lib) && NoSpace(path)
    ensures ParseLibArg(lib + ":" + path) == Some((lib, path))
  {
    var s := lib + ":" + path;
    assert NoSpace(s);
    StripSpec(s);
    SplitAround(lib, path, ':');
    SplitNoSep(path, ':');
  }

  /** The library arguments in order, or the first one that is not `lib:path`. */
  function LibArgs(args: seq<string>): Result<seq<(string, string)>, TableError>
  {
    if args == [] then Ok([])
    else match LibArgs(args[..|args| - 1])
      case Err(e) => Err(e)
      case Ok(specs) =>
        match ParseLibArg(Last(args))
        case None => Err(BadLibArg(|args| - 1))
        case Some(spec) => Ok(specs + [spec])
  }

  /** A failing argument stops the reading, whatever follows it. */
  lemma {:induction false} LibArgsStop(args: seq<string>, i: nat)
    requires i < |args| && LibArgs(args[..i]).Ok? && ParseLibArg(args[i]).None?
    ensures LibArgs(args) == Err(BadLibArg(i))
  {
    var prefix := args[..|args| - 1];
    if i < |args| - 1 {
      assert prefix[..i] == args[..i];
      LibArgsStop(prefix, i);
    } else {
      assert prefix == args[..i];
    }
  }

  /** When every argument is accepted, entry k is the parse of argument k. */
  lemma {:induction false} LibArgsOk(args: seq<string>)
    requires LibArgs(args).Ok?
    ensures |LibArgs(args).value| == |args|
    ensures forall k :: 0 <= k < |args| ==> ParseLibArg(args[k]) == Some(LibArgs(args).value[k])
  {
    if args != [] {
      var prefix := args[..|args| - 1];
      LibArgsOk(prefix);
      var specs := LibArgs(args).value;
      assert specs == LibArgs(prefix).value + [ParseLibArg(Last(args)).value];
      forall k | 0 <= k < |args|
        ensures ParseLibArg(args[k]) == Some(specs[k])
      {
        if k < |args| - 1 {
          assert args[k] == prefix[k];
        }
      }
    }
  }

  /** The library names, in argument order. */
  function Libs(specs: seq<(string, string)>): (libs: seq<string>)
    ensures |libs| == |specs|
  {
    seq(|specs|, j requires 0 <= j < |specs| => specs[j].0)
  }

  /** `print('', *libs, sep='\t')`. */
  function Header(libs: seq<string>): string
  {
    Join([""] + libs, "\t")
  }

  /** The header splits on tabs into an empty cell and the libraries in order. */
  lemma HeaderFields(libs: seq<string>)
    requires forall l <- libs :: '\t' !in l
    ensures Split(Header(libs), '\t') == [""] + libs
  {
    SplitJoin([""] + libs, '\t');
  }

  // ---------------------------------------------------------------------------
  // Reading the libraries' tally files

  /**
   * The tally streams of the libraries in argument order, or the first library
   * whose file is missing or holds a line that does not parse.
   */
  function LoadStreams(specs: seq<(string, string)>, files: map<string, seq<string>>): Result<seq<seq<Tally>>, TableError>
  {
    if specs == [] then Ok([])
    else match LoadStreams(specs[..|specs| - 1], files)
      case Err(e) => Err(e)
      case Ok(streams) =>
        var (lib, path) := Last(specs);
        if path !in files then Err(MissingFile(|specs| - 1))
        else match ParseTallies(files[path], lib)
          case Err((j, why)) => Err(BadTallyLine(|specs| - 1, j, why))
          case Ok(ts) => Ok(streams + [ts])
  }

  /** When every file reads, stream k holds the tallies of library k's file. */
  lemma {:induction false} LoadStreamsOk(specs: seq<(string, string)>, files: map<string, seq<string>>)
    requires LoadStreams(specs, files).Ok?
    ensures |LoadStreams(specs, files).value| == |specs|
    ensures forall k :: 0 <= k < |specs| ==>
      specs[k].1 in files && ParseTallies(files[specs[k].1], specs[k].0) == Ok(LoadStreams(specs, files).value[k])
  {
    if specs != [] {
      var prefix := specs[..|specs| - 1];
      LoadStreamsOk(prefix, files);
      var streams := LoadStreams(specs, files).value;
      assert streams == LoadStreams(prefix, files).value + [ParseTallies(files[Last(specs).1], Last(specs).0).value];
      forall k | 0 <= k < |specs|
        ensures specs[k].1 in files && ParseTallies(files[specs[k].1], specs[k].0) == Ok(streams[k])
      {
        if k < |specs| - 1 {
          assert specs[k] == prefix[k];
        }
      }
    }
  }

  // ---------------------------------------------------------------------------
  // Rows

  /** `out`: for each header library, its tally in the row's map, or 0 when it has none. */
  function ZeroFill(libs: seq<string>, byLib: map<string, int>): (out: seq<int>)
    ensures |out| == |libs|
  {
    if libs == [] then []
    else
      var l := Last(libs);
      ZeroFill(libs[..|libs| - 1], byLib) + [if l in byLib then byLib[l] else 0]
  }

  /** One value per header library, in header order, 0 for the libraries the map lacks. */
  lemma {:induction false} ZeroFillCells(libs: seq<string>, byLib: map<string, int>)
    ensures forall i :: 0 <= i < |libs| ==>
      ZeroFill(libs, byLib)[i] == if libs[i] in byLib then byLib[libs[i]] else 0
  {
    if libs != [] {
      var front := libs[..|libs| - 1];
      ZeroFillCells(front, byLib);
      forall i | 0 <= i < |libs| - 1
        ensures libs[i] == front[i]
      {
      }
    }
  }

  /** `sum(out)`. */
  function Sum(xs: seq<int>): int
  {
    if xs == [] then 0 else Sum(xs[..|xs| - 1]) + Last(xs)
  }

  lemma {:induction false} SumNonNegative(xs: seq<int>)
    requires forall x <- xs :: x >= 0
    ensures Sum(xs) >= 0
  {
    if xs != [] {
      var front := xs[..|xs| - 1];
      assert Last(xs) in xs;
      forall x | x in front
        ensures x >= 0
      {
        var k :| 0 <= k < |front| && front[k] == x;
        assert xs[k] == x && xs[k] in xs;
      }
      SumNonNegative(front);
    }
  }

  /** The decimal text of each value. */
  function Decimals(out: seq<int>): (cells: seq<string>)
    ensures |cells| == |out|
  {
    seq(|out|, i requires 0 <= i < |out| => DecimalString(out[i]))
  }

  /** `print(kmer, *out, sep='\t')`. */
  function RenderRow(kmer: string, out: seq<int>): string
  {
    Join([kmer] + Decimals(out), "\t")
  }

  /**
   * A printed row splits on tabs into the k-mer and one field per value, in
   * order, and each field reads back as its value.
   */
  lemma RenderRowFields(kmer: string, out: seq<int>)
    requires '\t' !in kmer
    ensures var fields := Split(RenderRow(kmer, out), '\t');
      && |fields| == |out| + 1 && fields[0] == kmer
      && forall i :: 0 <= i < |out| ==> ParseInt(fields[i + 1]) == Some(out[i])
  {
    var parts := [kmer] + Decimals(out);
    forall p | p in parts
      ensures '\t' !in p
    {
      if p != kmer {
        var i :| 0 <= i < |out| && p == DecimalString(out[i]);
        assert IsSpace('\t');
      }
    }
    SplitJoin(parts, '\t');
    forall i | 0 <= i < |out|
      ensures ParseInt(parts[i + 1]) == Some(out[i])
    {
      ParseIntDecimal(out[i]);
    }
  }

  /** Appending a value appends a tab and its decimal text. */
  lemma RenderRowSnoc(kmer: string, out: seq<int>, v: int)
    ensures RenderRow(kmer, out + [v]) == RenderRow(kmer, out) + "\t" + DecimalString(v)
  {
    assert [kmer] + Decimals(out + [v]) == ([kmer] + Decimals(out)) + [DecimalString(v)];
    JoinSnoc([kmer] + Decimals(out), DecimalString(v), "\t");
  }

  // ---------------------------------------------------------------------------
  // merge_kmer_counts.py: the filtered table

  /** A row is printed when enough libraries report the k-mer and the zero-filled total is large enough. */
  predicate Keep(row: Row, libs: seq<string>, minLibs: int, minCounts: int)
  {
    |row.byLib| >= minLibs && Sum(ZeroFill(libs, row.byLib)) >= minCounts
  }

  /** The printed lines of the filtered table, in row order. */
  function TableLines(rows: seq<Row>, libs: seq<string>, minLibs: int, minCounts: int): seq<string>
  {
    if rows == [] then []
    else
      var r := Last(rows);
      TableLines(rows[..|rows| - 1], libs, minLibs, minCounts)
        + if Keep(r, libs, minLibs, minCounts) then [RenderRow(r.kmer, ZeroFill(libs, r.byLib))] else []
  }

  /** Each row as `print(kmer, *out, sep='\t')` would print it. */
  function RenderedRows(rows: seq<Row>, libs: seq<string>): seq<string>
  {
    seq(|rows|, i requires 0 <= i < |rows| => RenderRow(rows[i].kmer, ZeroFill(libs, rows[i].byLib)))
  }

  /** Which rows pass both thresholds. */
  function KeepMask(rows: seq<Row>, libs: seq<string>, minLibs: int, minCounts: int): seq<bool>
  {
    seq(|rows|, i requires 0 <= i < |rows| => Keep(rows[i], libs, minLibs, minCounts))
  }

  /** The table is the rendered rows selected by the thresholds. */
  lemma {:induction false} TableLinesSelect(rows: seq<Row>, libs: seq<string>, minLibs: int, minCounts: int)
    ensures TableLines(rows, libs, minLibs, minCounts)
      == Select(RenderedRows(rows, libs), KeepMask(rows, libs, minLibs, minCounts))
  {
    if rows != [] {
      var n := |rows| - 1;
      TableLinesSelect(rows[..n], libs, minLibs, minCounts);
      assert RenderedRows(rows, libs)[..n] == RenderedRows(rows[..n], libs);
      assert KeepMask(rows, libs, minLibs, minCounts)[..n] == KeepMask(rows[..n], libs, minLibs, minCounts);
    }
  }

  /**
   * Each row that passes both thresholds is printed once, in row order, and no
   * other row is: line t renders the row at the t-th passing position.
   */
  lemma TableLinesFilter(rows: seq<Row>, libs: seq<string>, minLibs: int, minCounts: int)
    ensures var lines := TableLines(rows, libs, minLibs, minCounts);
      var ps := TruePositions(KeepMask(rows, libs, minLibs, minCounts));
      && |lines| == |ps|
      && (forall t :: 0 <= t < |ps| ==>
            && Keep(rows[ps[t]], libs, minLibs, minCounts)
            && lines[t] == RenderRow(rows[ps[t]].kmer, ZeroFill(libs, rows[ps[t]].byLib)))
      && (forall i :: 0 <= i < |rows| && Keep(rows[i], libs, minLibs, minCounts) ==> i in ps)
    ensures |TableLines(rows, libs, minLibs, minCounts)| <= |rows|
    ensures forall line <- TableLines(rows, libs, minLibs, minCounts) ::
      exists r <- rows :: Keep(r, libs, minLibs, minCounts) && line == RenderRow(r.kmer, ZeroFill(libs, r.byLib))
    ensures forall r <- rows :: Keep(r, libs, minLibs, minCounts) ==>
      RenderRow(r.kmer, ZeroFill(libs, r.byLib)) in TableLines(rows, libs, minLibs, minCounts)
  {
    var mask := KeepMask(rows, libs, minLibs, minCounts);
    var rendered := RenderedRows(rows, libs);
    TableLinesSelect(rows, libs, minLibs, minCounts);
    SelectAt(rendered, mask);
    SelectMembers(rendered, mask);
    var lines := TableLines(rows, libs, minLibs, minCounts);
    forall line | line in lines
      ensures exists r <- rows :: Keep(r, libs, minLibs, minCounts) && line == RenderRow(r.kmer, ZeroFill(libs, r.byLib))
    {
      var i :| 0 <= i < |rendered| && mask[i] && rendered[i] == line;
      assert rows[i] in rows;
    }
    forall r | r in rows && Keep(r, libs, minLibs, minCounts)
      ensures RenderRow(r.kmer, ZeroFill(libs, r.byLib)) in lines
    {
      var i :| 0 <= i < |rows| && rows[i] == r;
      assert mask[i] && rendered[i] == RenderRow(r.kmer, ZeroFill(libs, r.byLib));
    }
  }

  /** The output of merge_kmer_counts.py for the arguments after the program name. */
  function MergeKmerCountsReport(args: seq<string>, files: map<string, seq<string>>): (seq<string>, Option<TableError>)
  {
    if |args| < 2 then ([], Some(ArgCount))
    else
      match (ParseInt(args[0]), ParseInt(args[1]))
      case (None, _) => ([], Some(BadMinLibs))
      case (_, None) => ([], Some(BadMinCounts))
      case (Some(minLibs), Some(minCounts)) =>
        match LibArgs(args[2..])
        case Err(e) => ([], Some(e))
        case Ok(specs) =>
          var libs := Libs(specs);
          match LoadStreams(specs, files)
          case Err(e) => ([Header(libs)], Some(e))
          case Ok(streams) =>
            ([Header(libs)] + TableLines(Rows(Merge(streams)), libs, minLibs, minCounts), None)
  }

  // ---------------------------------------------------------------------------
  // test_sparse_svd.py: the unfiltered table

  /** `'\t{}'.format(by_lib[l])`, or `'\t0'` for a library the map lacks. */
  function SparseCell(l: string, byLib: map<string, int>): string
  {
    if l in byLib then "\t" + DecimalString(byLib[l]) else "\t0"
  }

  function SparseCells(libs: seq<string>, byLib: map<string, int>): string
  {
    if libs == [] then [] else SparseCells(libs[..|libs| - 1], byLib) + SparseCell(Last(libs), byLib)
  }

  lemma SparseCellsSnoc(libs: seq<string>, i: nat, byLib: map<string, int>)
    requires i < |libs|
    ensures SparseCells(libs[..i + 1], byLib) == SparseCells(libs[..i], byLib) + SparseCell(libs[i], byLib)
  {
    assert libs[..i + 1][..i] == libs[..i] && Last(libs[..i + 1]) == libs[i];
  }

  /** The k-mer followed by one cell per library. */
  function SparseLine(row: Row, libs: seq<string>): string
  {
    row.kmer + SparseCells(libs, row.byLib)
  }

  /** Printing cell by cell gives the same line as printing the zero-filled row with tab separators. */
  lemma {:induction false} SparseLineIsRow(row: Row, libs: seq<string>)
    ensures SparseLine(row, libs) == RenderRow(row.kmer, ZeroFill(libs, row.byLib))
  {
    if libs != [] {
      var front := libs[..|libs| - 1];
      var l := Last(libs);
      var m := row.byLib;
      SparseLineIsRow(row, front);
      var v := if l in m then m[l] else 0;
      assert ZeroFill(libs, m) == ZeroFill(front, m) + [v];
      RenderRowSnoc(row.kmer, ZeroFill(front, m), v);
      assert DecimalString(0) == "0";
      assert SparseCell(l, m) == "\t" + DecimalString(v);
    }
  }

  /** One line per row, in row order. */
  function SparseLines(rows: seq<Row>, libs: seq<string>): (lines: seq<string>)
    ensures |lines| == |rows|
  {
    if rows == [] then [] else SparseLines(rows[..|rows| - 1], libs) + [SparseLine(Last(rows), libs)]
  }

  /**
   * Line i is row i zero-filled in header order; with tallies that are not
   * negative this is the filtered table with both thresholds at 0.
   */
  lemma {:induction false} SparseLinesUnfiltered(rows: seq<Row>, libs: seq<string>)
    ensures forall i :: 0 <= i < |rows| ==>
      SparseLines(rows, libs)[i] == RenderRow(rows[i].kmer, ZeroFill(libs, rows[i].byLib))
    ensures (forall r <- rows, l <- r.byLib :: r.byLib[l] >= 0) ==>
      SparseLines(rows, libs) == TableLines(rows, libs, 0, 0)
  {
    if rows != [] {
      var front := rows[..|rows| - 1];
      var r := Last(rows);
      SparseLinesUnfiltered(front, libs);
      SparseLineIsRow(r, libs);
      forall i | 0 <= i < |rows| - 1
        ensures rows[i] == front[i]
      {
      }
      if forall r' <- rows, l <- r'.byLib :: r'.byLib[l] >= 0 {
        assert forall r' <- front :: r' in rows;
        ZeroFillCells(libs, r.byLib);
        SumNonNegative(ZeroFill(libs, r.byLib));
      }
    }
  }

  /** The output of test_sparse_svd.py for the arguments after the program name. */
  function SparseSvdReport(args: seq<string>, files: map<string, seq<string>>): (seq<string>, Option<TableError>)
  {
    match LibArgs(args)
    case Err(e) => ([], Some(e))
    case Ok(specs) =>
      var libs := Libs(specs);
      match LoadStreams(specs, files)
      case Err(e) => ([Header(libs)], Some(e))
      case Ok(streams) => ([Header(libs)] + SparseLines(Rows(Merge(streams)), libs), None)
  }

  // ---------------------------------------------------------------------------
  // The main blocks

  /** The `for arg in ...` loop: libraries and paths in order, or the first bad argument. */
  method ReadLibArgs(args: seq<string>) returns (specs: seq<(string, string)>, libs: seq<string>, err: Option<TableError>)
    ensures LibArgs(args).Ok? ==> err.None? && specs == LibArgs(args).value && libs == Libs(specs)
    ensures LibArgs(args).Err? ==> err == Some(LibArgs(args).error)
  {
    specs, libs, err := [], [], None;
    for i := 0 to |args|
      invariant LibArgs(args[..i]) == Ok(specs)
      invariant libs == Libs(specs)
    {
      assert args[..i + 1][..i] == args[..i] && Last(args[..i + 1]) == args[i];
      var parsed := ParseLibArg(args[i]);
      if parsed.None? {
        LibArgsStop(args, i);
        err := Some(BadLibArg(i));
        return;
      }
      specs := specs + [parsed.value];
      libs := libs + [parsed.value.0];
    }
    assert args[..|args|] == args;
  }

  /** The loop that builds `out` by appending over the header libraries. */
  method FillRow(libs: seq<string>, byLib: map<string, int>) returns (out: seq<int>)
    ensures out == ZeroFill(libs, byLib)
  {
    out := [];
    for i := 0 to |libs|
      invariant out == ZeroFill(libs[..i], byLib)
    {
      assert libs[..i + 1][..i] == libs[..i] && Last(libs[..i + 1]) == libs[i];
      if libs[i] in byLib {
        out := out + [byLib[libs[i]]];
      } else {
        out := out + [0];
      }
    }
    assert libs[..|libs|] == libs;
  }

  /** The row loop of merge_kmer_counts.py, skipping rows below either threshold. */
  method FilterRows(rows: seq<Row>, libs: seq<string>, minLibs: int, minCounts: int) returns (lines: seq<string>)
    ensures lines == TableLines(rows, libs, minLibs, minCounts)
  {
    lines := [];
    for i := 0 to |rows|
      invariant lines == TableLines(rows[..i], libs, minLibs, minCounts)
    {
      assert rows[..i + 1][..i] == rows[..i] && Last(rows[..i + 1]) == rows[i];
      var kmer, byLib := rows[i].kmer, rows[i].byLib;
      if |byLib| < minLibs {
        continue;
      }
      var out := FillRow(libs, byLib);
      if Sum(out) < minCounts {
        continue;
      }
      lines := lines + [RenderRow(kmer, out)];
    }
    assert rows[..|rows|] == rows;
  }

  /** merge_kmer_counts.py with `args` the arguments after the program name. */
  method MergeKmerCounts(args: seq<string>, files: map<string, seq<string>>) returns (out: seq<string>, err: Option<TableError>)
    ensures (out, err) == MergeKmerCountsReport(args, files)
  {
    out, err := [], None;
    if |args| < 2 {
      err := Some(ArgCount);
      return;
    }
    var minLibs := ParseInt(args[0]);
    if minLibs.None? {
      err := Some(BadMinLibs);
      return;
    }
    var minCounts := ParseInt(args[1]);
    if minCounts.None? {
      err := Some(BadMinCounts);
      return;
    }
    var specs, libs, bad := ReadLibArgs(args[2..]);
    if bad.Some? {
      err := bad;
      return;
    }
    out := [Header(libs)];
    var loaded := LoadStreams(specs, files);
    if loaded.Err? {
      err := Some(loaded.error);
      return;
    }
    var lines := FilterRows(Rows(Merge(loaded.value)), libs, minLibs.value, minCounts.value);
    out := out + lines;
  }

  /** The inner loop of test_sparse_svd.py: the k-mer, then one cell per library. */
  method SparseRow(row: Row, libs: seq<string>) returns (line: string)
    ensures line == SparseLine(row, libs)
  {
    var cells := "";
    for i := 0 to |libs|
      invariant cells == SparseCells(libs[..i], row.byLib)
    {
      var cell: string;
      if libs[i] in row.byLib {
        cell := "\t" + DecimalString(row.byLib[libs[i]]);
      } else {
        cell := "\t0";
      }
      assert cell == SparseCell(libs[i], row.byLib);
      SparseCellsSnoc(libs, i, row.byLib);
      cells := cells + cell;
    }
    assert libs[..|libs|] == libs;
    line := row.kmer + cells;
  }

  /** test_sparse_svd.py with `args` the arguments after the program name. */
  method SparseSvd(args: seq<string>, files: map<string, seq<string>>) returns (out: seq<string>, err: Option<TableError>)
    ensures (out, err) == SparseSvdReport(args, files)
  {
    out, err := [], None;
    var specs, libs, bad := ReadLibArgs(args);
    if bad.Some? {
      err := bad;
      return;
    }
    out := [Header(libs)];
    var loaded := LoadStreams(specs, files);
    if loaded.Err? {
      err := Some(loaded.error);
      return;
    }
    var lines := SparseTable(Rows(Merge(loaded.value)), libs);
    out := out + lines;
  }

  /** The outer loop of test_sparse_svd.py: one printed line per row, unfiltered. */
  method SparseTable(rows: seq<Row>, libs: seq<string>) returns (lines: seq<string>)
    ensures lines == SparseLines(rows, libs)
  {
    lines := [];
    for i := 0 to |rows|
      invariant lines == SparseLines(rows[..i], libs)
    {
      assert rows[..i + 1][..i] == rows[..i] && Last(rows[..i + 1]) == rows[i];
      var line := SparseRow(rows[i], libs);
      lines := lines + [line];
    }
    assert rows[..|rows|] == rows;
  }
}
