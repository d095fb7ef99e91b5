# sgm core routines in Dafny

This project models the deterministic routines of the sgm metagenomics
scripts. It covers the string and integer-table code that sits around the
statistical models, and proves properties of that code:

- **k-mer canonicalisation** (`count_kmers.py`). This takes the sliding k-mer
  windows of a sequence and its DNA reverse complement. Each k-mer is reduced
  to the lexicographically smaller of itself and its reverse complement, and
  the canonical k-mers of one record are counted.
- **Depth-file chunking and coverage** (`estimate_contig_coverage.py`). The
  lines of a depth file are split into runs of equal contig id. Each run is
  matched to a forward-only scan of the contig-length file and gives the sum of
  its depths over the contig length.
- **k-mer tally tables** (`merge_kmer_counts.py`, `test_sparse_svd.py`). The
  scripts parse `kmer tally` lines for each library and merge the library
  streams the way `heapq.merge` does. Equal k-mers are grouped into a
  library-to-tally map. Rows are emitted zero-filled in header order, either
  filtered by a minimum library count and a minimum total, or unfiltered.
- **Genome and replicon identifiers** (`parse_ncbi_genome_tables.py`,
  `parse_genbank_genome_table.py`). Organism names are rewritten into
  `[A-Za-z0-9_]` identifiers. A small parser reads `name:refseq/genbank`
  replicon descriptors.
- **Bin post-processing** (`cluster_contigs.py`). This covers the `frac` check,
  labelling by the mixture model's predictions or by thresholded
  first-argmax over its posterior probabilities, dropping bins whose total
  length is too small, and the per-bin count and length summary sorted by size.

Files are modelled as sequences of lines, or as a map from path to lines. A
Python exception is modelled as an `Err` or `None` result that names its
cause.

Each piece has two parts. Where the source changes state step by step (the
`chunk_depth` generator and the length scan, the argument, filter and
zero-fill loops of the two table scripts, the replace loops of the two
identifier functions, the `while '__' in out` loop), there is a method with
loop invariants. Beside it is a specification function that the method is
proved equal to. The lemmas state what the source promises about those
functions.

Modules:

- `Wrappers`: Option and Result.
- `Text`: Python `str` behaviour, namely `split`, `split()`, `strip`, `join`,
  `replace`, `int()`, `str()`, slicing and the code-point order on strings.
- `Grouping`: `itertools.groupby` and the run partition it produces.
- `Selection`: selecting by a boolean mask (`xs[mask]`, `filter`, a list
  comprehension with `if`), which keeps the selected elements in order.
- `Kmers`, `ContigCoverage`, `TallyMerge`, `KmerTable`, `GenomeIds` and `Bins`.

## Model

| member | source | states |
|---|---|---|
| Kmers.IterKmers | scripts/count_kmers.py:12-14 | yields exactly max(0, len - k + 1) windows, none when k > len; window i is `s[i:i+k]` and has length k |
| Kmers.Complement | scripts/count_kmers.py:9 | the complement of a base is a base other than itself |
| Kmers.ComplementTwice | scripts/count_kmers.py:9 | complementing a base twice gives it back |
| Kmers.ReverseComplement | scripts/count_kmers.py:16-17 | defined exactly on strings over A, C, G, T (any other character is the KeyError); keeps length; position i is the complement of position len-1-i |
| Kmers.ReverseComplementInvolution | scripts/count_kmers.py:16-17 | reverse complement of a DNA string is DNA and applying it twice gives the string back |
| Kmers.RegularizeKmer | scripts/count_kmers.py:20-26 | the result is the k-mer or its reverse complement, it is lexicographically at most both of them, and it is the k-mer itself when that is at most its reverse complement (ties such as palindromes) |
| Kmers.RegularizeBothStrands | scripts/count_kmers.py:20-26 | a k-mer and its reverse complement regularize to the same string |
| Kmers.RegularizeIdempotent | scripts/count_kmers.py:20-26 | regularizing twice is regularizing once |
| Kmers.Bump | scripts/count_kmers.py:30 | one Counter increment: the present key's count goes up by one or the new key is appended with 1; the total goes up by one |
| Kmers.BumpDistinct | scripts/count_kmers.py:30 | the Counter never holds a key twice |
| Kmers.Count | scripts/count_kmers.py:30-32 | counting a sequence gives distinct keys whose counts sum to its length |
| Kmers.CountKeys | scripts/count_kmers.py:30-32 | the Counter's keys are exactly the counted items |
| Kmers.CountMultiplicity | scripts/count_kmers.py:30-32 | each count is the number of occurrences of its key |
| Kmers.CanonicalKmers | scripts/count_kmers.py:30-32 | the generator of regularized k-mers succeeds iff every k-mer is DNA, and then maps each k-mer to its regularized form, in order |
| Kmers.RecordCounts | scripts/count_kmers.py:30-34 | one record's counts sum to the number of k-mers `iter_kmers` produces, and each count is the number of window positions whose regularized k-mer is that key |
| Kmers.OccurrencesAsIndices | scripts/count_kmers.py:30-34 | the multiplicity of an item is the number of positions holding it |
| ContigCoverage.DepthRecordsOk | scripts/estimate_contig_coverage.py:9-15 | when every line parses (three fields; position and depth are ints) there is one record per line, in order |
| ContigCoverage.DepthRecordsErr | scripts/estimate_contig_coverage.py:10 | a failure names the first line that does not split into three fields or whose numbers are not ints |
| ContigCoverage.Chunks | scripts/estimate_contig_coverage.py:8-20 | there is always a final chunk, even for no records |
| ContigCoverage.ChunksSnoc | scripts/estimate_contig_coverage.py:11-19 | a record with the current chunk's contig extends that chunk; any other contig closes it and opens a new one |
| ContigCoverage.FeedLineParsed | scripts/estimate_contig_coverage.py:10-19 | one loop iteration: fails exactly on an unparsable line, else appends to the current chunk or yields it and starts a new one |
| ContigCoverage.FeedLinesChunks | scripts/estimate_contig_coverage.py:8-20 | after all lines, the yielded chunks plus the current one are exactly the runs of equal contig of the parsed records; the current chunk is empty only for an empty file |
| ContigCoverage.DepthChunksRuns | scripts/estimate_contig_coverage.py:6-20 | no error iff every line parses; empty input yields one empty chunk; otherwise the chunks concatenate to the records, each has one contig, and neighbours differ (a run partition equal to `groupby`) |
| ContigCoverage.DepthChunksStop | scripts/estimate_contig_coverage.py:9-19 | on a bad line, the chunks yielded before it are the runs of the lines before it, minus the open chunk unless that line had already closed it |
| ContigCoverage.FeedLinesStop | scripts/estimate_contig_coverage.py:9-15 | the generator stops at the first bad line, with the state reached on the lines before it |
| ContigCoverage.FeedLinesFailed | scripts/estimate_contig_coverage.py:9-15 | once the generator has failed, further lines change nothing |
| ContigCoverage.ChunkDepth | scripts/estimate_contig_coverage.py:6-20 | the imperative generator yields exactly the chunks, and the error, of the specification |
| ContigCoverage.FindLength | scripts/estimate_contig_coverage.py:34-35 | the length scan only moves forward and either finds a line at or after the start, runs out (StopIteration) or hits a line without two fields |
| ContigCoverage.ScanEnd | scripts/estimate_contig_coverage.py:34-35 | the scan stops within the file, at or after its start |
| ContigCoverage.FindLengthScan | scripts/estimate_contig_coverage.py:31-35 | every skipped line has a different contig id, and the matched line carries the contig's id |
| ContigCoverage.CoverOne | scripts/estimate_contig_coverage.py:29-39 | a reported row is for a non-empty table, names its contig, sums its depths and has a non-zero length; the scan position strictly advances |
| ContigCoverage.CoverChunk | scripts/estimate_contig_coverage.py:30-39 | the imperative scan gives the row and next scan position of the specification |
| ContigCoverage.CoverOneRow | scripts/estimate_contig_coverage.py:34-36 | the length used is the int on the first forward line carrying the contig id, and every line skipped before it has another id |
| ContigCoverage.CoverageRowsOrder | scripts/estimate_contig_coverage.py:29-46 | one row per chunk, in chunk order, until the first error; row i names chunk i's contig and sums its depths |
| ContigCoverage.EmptyDepthFile | scripts/estimate_contig_coverage.py:20 | an empty depth file yields an empty chunk, and reading its first record fails (IndexError) |
| ContigCoverage.ReportFollowsRuns | scripts/estimate_contig_coverage.py:29-39 | for a well-formed depth file, the report rows follow the runs of equal contig id in order, each with the run's depth sum |
| ContigCoverage.ReportOfChunks | scripts/estimate_contig_coverage.py:29 | the report is the rows over the generator's chunks, with a generator error reported after the rows it let through |
| ContigCoverage.CoverChunks | scripts/estimate_contig_coverage.py:29-46 | the imperative main loop gives the rows and error of the specification |
| ContigCoverage.EstimateCoverage | scripts/estimate_contig_coverage.py:23-46 | the whole of `main` over the two files gives exactly the report of the specification |
| TallyMerge.ParseTallyLineWritten | scripts/merge_kmer_counts.py:15-17 | a line written as k-mer, tab, decimal tally parses back to that tally for the library |
| TallyMerge.ParseTalliesOk | scripts/merge_kmer_counts.py:12-17 | a parsed file gives one `(kmer, lib, tally)` per line, in file order, all tagged with the library |
| TallyMerge.ParseTalliesErr | scripts/test_sparse_svd.py:14-16 | a failure names the first line without exactly two fields or whose tally is not an int |
| TallyMerge.TallyLeTotal | scripts/merge_kmer_counts.py:40 | the tuple order `heapq.merge` compares with is total |
| TallyMerge.TallyLeTrans | scripts/merge_kmer_counts.py:40 | the tuple order is transitive |
| TallyMerge.TallyLeKmer | scripts/merge_kmer_counts.py:40 | tuple order implies k-mer order |
| TallyMerge.Advance | scripts/merge_kmer_counts.py:40 | taking a stream's head removes exactly that tally from the pending ones |
| TallyMerge.Pick | scripts/merge_kmer_counts.py:40 | the merge takes from a non-empty stream, and stops only when every stream is empty |
| TallyMerge.PickLeast | scripts/merge_kmer_counts.py:40 | the chosen head is least among the heads, and ties go to the earliest stream |
| TallyMerge.MergePermutation | scripts/merge_kmer_counts.py:40 | the merged stream is exactly the multiset union of the streams |
| TallyMerge.MergeKmerSorted | scripts/merge_kmer_counts.py:40 | if every library stream is sorted by k-mer, so is the merged stream |
| TallyMerge.ByLibKeys | scripts/merge_kmer_counts.py:25 | the row map's keys are exactly the libraries of the group |
| TallyMerge.ByLibLast | scripts/test_sparse_svd.py:25 | a repeated library keeps its later tally |
| TallyMerge.RowsFollowRuns | scripts/merge_kmer_counts.py:22-25 | one row per maximal run of equal k-mer, in order; the runs concatenate to the stream; each row's keys are its run's libraries; neighbouring rows differ in k-mer |
| TallyMerge.SortedRunsDistinct | scripts/merge_kmer_counts.py:22-25 | the runs of a sorted stream have pairwise different k-mers |
| TallyMerge.SortedStreamsDistinctRows | scripts/merge_kmer_counts.py:40 | with sorted library streams, each k-mer appears in at most one row |
| KmerTable.ParseLibArgColon | scripts/merge_kmer_counts.py:35 | a library argument is accepted iff its stripped text has exactly one ':', and then it is `lib:path` |
| KmerTable.ParseLibArgWritten | scripts/test_sparse_svd.py:31 | `lib:path` with no ':' or white space in either part is read back as (lib, path) |
| KmerTable.LibArgsOk | scripts/merge_kmer_counts.py:34-37 | the accepted arguments give one (lib, path) per argument, in argument order |
| KmerTable.LibArgsStop | scripts/test_sparse_svd.py:30-33 | the first malformed argument is the error |
| KmerTable.Libs | scripts/merge_kmer_counts.py:37 | one library name per argument |
| KmerTable.HeaderFields | scripts/merge_kmer_counts.py:39 | the header is an empty cell followed by the libraries in argument order |
| KmerTable.LoadStreamsOk | scripts/merge_kmer_counts.py:34-36 | each library stream is the parse of its file, tagged with its library, in argument order |
| KmerTable.ZeroFill | scripts/merge_kmer_counts.py:43-48 | one value per header library |
| KmerTable.ZeroFillCells | scripts/merge_kmer_counts.py:43-48 | value i is the library's tally when the map has it, else 0 |
| KmerTable.SumNonNegative | scripts/merge_kmer_counts.py:49 | non-negative tallies have a non-negative total |
| KmerTable.Decimals | scripts/merge_kmer_counts.py:52 | one printed cell per value |
| KmerTable.RenderRowFields | scripts/merge_kmer_counts.py:52 | a printed row splits on tabs into the k-mer and one field per value, each reading back as that value |
| KmerTable.TableLinesSelect | scripts/merge_kmer_counts.py:40-52 | the printed table is the rendered rows selected, in row order, by the two thresholds |
| KmerTable.TableLinesFilter | scripts/merge_kmer_counts.py:40-52 | each row reported by at least `min_libs` libraries with zero-filled total at least `min_counts` is printed once, in row order, and no other row is: line t renders the row at the t-th passing position |
| KmerTable.FillRow | scripts/merge_kmer_counts.py:43-48 | the append loop builds exactly the zero-filled row |
| KmerTable.FilterRows | scripts/merge_kmer_counts.py:40-52 | the `continue`-filtered loop prints exactly the specified lines |
| KmerTable.MergeKmerCounts | scripts/merge_kmer_counts.py:27-52 | the whole main block gives the specified output and error |
| KmerTable.SparseLineIsRow | scripts/test_sparse_svd.py:37-46 | the line built cell by cell is the zero-filled row: the k-mer then, per header library, its tally or 0 |
| KmerTable.SparseLines | scripts/test_sparse_svd.py:36-46 | one printed line per row |
| KmerTable.SparseLinesUnfiltered | scripts/test_sparse_svd.py:36-46 | line i is row i zero-filled in header order; with non-negative tallies this is the filtered table with both minimums 0 |
| KmerTable.SparseRow | scripts/test_sparse_svd.py:38-46 | the nested print loop writes exactly the specified line |
| KmerTable.SparseTable | scripts/test_sparse_svd.py:36-46 | the loop over the rows prints exactly the specified lines, one per row, in row order |
| KmerTable.SparseSvd | scripts/test_sparse_svd.py:27-46 | the whole main block gives the specified output and error |
| KmerTable.ReadLibArgs | scripts/merge_kmer_counts.py:32-37 | the argument loop collects the specified libraries and paths, or stops at the first malformed one |
| GenomeIds.LettersFirst | scripts/parse_ncbi_genome_tables.py:29-31 | the genus letter is the first alphabetic character of the first word; no letters is the IndexError |
| GenomeIds.IndexOf | scripts/parse_ncbi_genome_tables.py:34 | `words.index('=')` is the first position of `=` |
| GenomeIds.DropModifiersSpec | scripts/parse_ncbi_genome_tables.py:36 | the words other than `str.`, `substr.`, `subsp.`, `bv.`, `biovar` are kept, each once and in their original order: kept word t is the word at the t-th non-modifier position |
| GenomeIds.TaxonWordsSpec | scripts/parse_ncbi_genome_tables.py:27-36 | fails iff the genus word has no letter; otherwise the first word is the genus letter, no `=` word is left and no modifier word is left |
| GenomeIds.TaxonWordsOrder | scripts/parse_ncbi_genome_tables.py:27-36 | with the genus word replaced by its letter, the kept words are exactly the non-modifier words before the first `=` word (all words when there is none), in order; nothing from the `=` word on is kept |
| GenomeIds.TaxonIdLegal | scripts/parse_ncbi_genome_tables.py:37-46 | the identifier passes the final check iff every character of the joined words is alphanumeric, `_`, or one the replace loops rewrite |
| GenomeIds.ReplaceEach | scripts/parse_ncbi_genome_tables.py:39-42 | the successive `replace` loops rewrite each listed character at once |
| GenomeIds.CheckChars | scripts/parse_ncbi_genome_tables.py:45-46 | the character loop fails exactly when a character is not alphanumeric or `_` |
| GenomeIds.TaxonNameToId | scripts/parse_ncbi_genome_tables.py:24-48 | the imperative function gives exactly the specified identifier or error |
| GenomeIds.ParseRepliconOk | scripts/parse_ncbi_genome_tables.py:51-63 | the stripped descriptor is `name:accessions` with no other `:` in name or accessions; the kind follows the name prefix; accessions with `/` split into refseq and genbank ids, otherwise refseq is empty |
| GenomeIds.ParseRepliconColon | scripts/parse_ncbi_genome_tables.py:52-53 | the descriptor is refused as ColonCount iff its stripped form does not hold exactly one `:` |
| GenomeIds.ParseRepliconWritten | scripts/parse_ncbi_genome_tables.py:51-59 | `name:refseq/genbank` parses back to its parts |
| GenomeIds.ParseRepliconWrittenGenbank | scripts/parse_ncbi_genome_tables.py:58-62 | `name:genbank` parses back with an empty refseq id |
| GenomeIds.ParseRepliconsOk | scripts/parse_ncbi_genome_tables.py:69 | one parsed replicon per piece, in order |
| GenomeIds.ParseRepliconsErr | scripts/parse_ncbi_genome_tables.py:69 | the error is the first piece that does not parse |
| GenomeIds.FlattenRepliconsSpec | scripts/parse_ncbi_genome_tables.py:66-71 | one row per `;`-separated piece (the number of `;` plus one), in order, each prefixed by the genome id; or the first bad piece |
| GenomeIds.DropSpSpec | scripts/parse_genbank_genome_table.py:11-12 | the words other than `sp.` are kept, each once and in order; so genus and species are the first and second words that are not `sp.`, with only `sp.` words before and between them |
| GenomeIds.StrainAfterPrefix | scripts/parse_genbank_genome_table.py:15 | dropping the first seven characters of `strain=` plus a name gives the name |
| GenomeIds.SqueezeNoDouble | scripts/parse_genbank_genome_table.py:31-32 | the collapsed string never contains `__` |
| GenomeIds.SqueezeFixed | scripts/parse_genbank_genome_table.py:31 | a string without `__` is left alone |
| GenomeIds.SqueezeIdempotent | scripts/parse_genbank_genome_table.py:31-32 | collapsing is idempotent |
| GenomeIds.SqueezeReplaceDouble | scripts/parse_genbank_genome_table.py:32 | one `replace('__', '_')` pass does not change the collapsed result |
| GenomeIds.ReplaceDoubleShorter | scripts/parse_genbank_genome_table.py:31-32 | each pass shortens a string that still has `__`, so the loop ends |
| GenomeIds.SqueezeChars | scripts/parse_genbank_genome_table.py:31-32 | collapsing only removes underscores |
| GenomeIds.CollapseUnderscores | scripts/parse_genbank_genome_table.py:31-32 | the `while '__' in out` loop ends with the collapsed string |
| GenomeIds.ConstructGenomeId | scripts/parse_genbank_genome_table.py:7-37 | the imperative function gives exactly the specified identifier, or TooFewWords when fewer than two words remain, or the failed character check |
| GenomeIds.GenbankGenomeIdNoDouble | scripts/parse_genbank_genome_table.py:31-37 | a returned identifier has no `__` |
| GenomeIds.GenbankGenomeIdLegal | scripts/parse_genbank_genome_table.py:20-36 | the cleaned identifier passes the check iff every character of `genus_species_strain` is alphanumeric, `_`, or one the replacements handle |
| Text.SplitWsFields | scripts/estimate_contig_coverage.py:10 | `split()` gives non-empty fields without white space that together are the non-space characters |
| Text.JoinSplit | scripts/parse_ncbi_genome_tables.py:69 | joining a split gives the string back; there is one more piece than separators |
| Text.SplitJoin | scripts/parse_ncbi_genome_tables.py:53 | splitting joined separator-free parts gives the parts back |
| Text.StripSpec | scripts/parse_ncbi_genome_tables.py:52 | `strip()` leaves no white space at either end and keeps a string without white space |
| Text.ParseIntDecimal | scripts/merge_kmer_counts.py:16 | `int(str(n)) == n` |
| Text.PySlice | scripts/parse_genbank_genome_table.py:15 | an in-range slice is the subsequence |
| Text.ReplacePassesTranslate | scripts/parse_genbank_genome_table.py:20-29 | successive `replace` passes for characters not in the replacement equal one simultaneous translation |
| Text.TranslateChars | scripts/parse_genbank_genome_table.py:28-29 | the replaced characters disappear, others survive, and nothing but the replacement is added |
| Text.LexLeTotal | scripts/count_kmers.py:23 | Python's string `<=` is total |
| Text.LexLeAntisym | scripts/count_kmers.py:23 | two strings each `<=` the other are equal |
| Text.LexLeTrans | scripts/count_kmers.py:23 | string `<=` is transitive |
| Grouping.GroupByIsRunPartition | scripts/merge_kmer_counts.py:23 | `groupby` splits a sequence into maximal non-empty runs of equal key that concatenate to it |
| Selection.SelectAt | scripts/cluster_contigs.py:68 | selecting by a mask reads the input at the set positions of the mask, one element per position, in increasing order |
| Selection.SelectMembers | scripts/cluster_contigs.py:68 | an element is selected iff it stands at a set position |
| Grouping.RunPartitionUnique | scripts/estimate_contig_coverage.py:8-20 | there is only one such run partition |
| Bins.FitDataOf | scripts/cluster_contigs.py:79-87 | `frac` is accepted iff 0 < frac <= 1 (else ValueError); exactly frac == 1 fits on a copy of all contigs |
| Bins.ClusterGmm | scripts/cluster_contigs.py:77-90 | a bad `frac` is reported before labelling; otherwise the result is the labelling of all contigs |
| Bins.FirstArgmax | scripts/cluster_contigs.py:63 | the label is a position of the largest probability, and every earlier one is strictly smaller |
| Bins.AnyAboveMax | scripts/cluster_contigs.py:65 | a contig's mask is set iff some probability is strictly above the threshold, iff its largest one is |
| Bins.MaskedSpec | scripts/cluster_contigs.py:66-68 | `cluster[mask]` holds exactly the masked contigs, each once with its own label and in contig order (entry t is the contig at the t-th set position), and everything when the mask is all set |
| Bins.LabelGmmAll | scripts/cluster_contigs.py:56-59 | a threshold of 0 keeps every contig, in order, with its predicted label |
| Bins.AboveMaskSpec | scripts/cluster_contigs.py:65 | a contig's mask entry is set iff one of its probabilities is above the threshold |
| Bins.LabelGmmAbove | scripts/cluster_contigs.py:60-68 | a positive threshold keeps exactly the contigs with some probability above it, labelled with the first most probable bin |
| Bins.LabelGmmOrder | scripts/cluster_contigs.py:60-68 | with a positive threshold, kept entry t is the contig at the t-th set position of the mask, with its first most probable bin: contig order, each contig once |
| Bins.LabelGmmNegative | scripts/cluster_contigs.py:56-66 | a negative threshold leaves the labels unbound, which is an error |
| Bins.BinCountPositive | scripts/cluster_contigs.py:113 | a bin that a contig with a length lands in counts at least one contig |
| Bins.FiltByTotalSizeSpec | scripts/cluster_contigs.py:93-101 | a contig is kept with its label iff its bin has a contig with a length and the bin's summed length is at least `min_bin_size`, so bins are kept or dropped whole; kept entries stay in order, each once (entry t is the entry at the t-th valid position) |
| Bins.FiltDropsLengthless | scripts/cluster_contigs.py:94-98 | a bin none of whose contigs has a length is not among `length.groupby(cluster)`'s groups, so it is dropped whatever the minimum |
| Bins.BinLabels | scripts/cluster_contigs.py:113 | the groups are the bins of the contigs with a length, each once, in increasing label order |
| Bins.InsertByTotalSorted | scripts/cluster_contigs.py:114 | inserting a row into rows sorted by decreasing total keeps them sorted |
| Bins.InsertByTotalPerm | scripts/cluster_contigs.py:114 | insertion adds exactly the one row |
| Bins.SortByTotalSpec | scripts/cluster_contigs.py:113-114 | the sorted summary is ordered by non-increasing total length and is a permutation of the per-bin rows |
| Bins.SummarizeClustersSpec | scripts/cluster_contigs.py:112-124 | one row per bin: `n_contigs` is its contig count (at least one) and `total_length` its summed length; rows have distinct bins, cover every bin, and are ordered by non-increasing total length |

## Left out

- Character classes are ASCII only. `str.isalpha`, `str.isalnum` and the digits
  accepted by `int()` are limited to ASCII letters and digits; Python also
  accepts other Unicode letters and digits. White space for `split()` and
  `strip()` is Python's full list.
- Floating point is left out. A coverage row keeps the depth sum and the
  contig length, and `CoverageRow.Coverage` is their exact ratio as a `real`.
  The `float_fmt` formatting is left out. The posterior probabilities and the
  `frac` and `pthresh` values are exact reals, so NaN is not modelled.
- I/O is left out. Standard input and output, file opening, `tqdm` and
  `Bio.SeqIO` parsing are not modelled. Files are sequences of lines;
  library files are a map from path to lines, and a missing path is an error.
- Printing is not interleaved with errors. In the two table scripts a
  malformed tally line or a missing file is reported once the header is out;
  rows printed before a lazily read bad line are not modelled. The
  depth-file generator does model the chunks it yields before a bad line.
- The sklearn mixture model is left out: fitting, `predict` and `predict_proba`
  are foreign calls. Their outputs, the predicted labels and the probability
  rows (one non-empty row per contig), are inputs. The random length-weighted
  subsample in `cluster_gmm` is recorded only as which data the model is fitted on.
- `load_data` and the argument parsing of `cluster_contigs.py` are file and
  command-line handling, and are left out.
- `rename_clusters` is marked as a TODO and its meaning is unclear, so it is
  left out. The summary is therefore modelled on the labels as given.
- Bins.SortByTotal: ties in total length keep increasing label order (a stable
  sort). pandas' `sort_values` uses a quicksort that does not promise any
  order among ties.
- Bins.BinLength: contigs are assumed to have distinct ids. pandas index
  alignment with repeated contig ids is not modelled.
- KmerTable.LoadStreams: when several libraries are faulty, the model may name a
  different one than Python. `heapq.merge` reads the first line of every
  library's file, in argument order, before reading the rest lazily in merge
  order; the model checks each library's whole file before opening the next.
  So a bad line in an early file is reported ahead of a later missing file,
  where Python raises the missing file first. `MergeKmerCounts` and `SparseSvd`
  report errors the same way. With at most one faulty library the error is
  the same.
- `merge_tallies` in the two table scripts is dead code: it returns None and
  is never called.
- The `lru_cache` on `regularize_kmer` is caching only and is left out.
- The pandas main blocks of the two genome-table scripts are left out: CSV
  reading and writing, the hard-coded accession fix-ups, sorting by date,
  removing duplicates and the `replicon_id` numbering. The row filter that
  keeps only `strain=` names is reflected in `GenomeIds.StrainAfterPrefix`.
- Integers are unbounded, as in Python.
