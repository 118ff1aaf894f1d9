# mlstx core in Dafny

This project models the decision logic of mlstx. mlstx does multi-locus sequence typing (MLST) of bacterial genomes in the browser, and the model proves properties of that logic.

A genome arrives as FASTA text. Its contigs are merged into one pseudo-sequence, with runs of 100 `N` between the contigs. `minimap2` aligns the allele catalogue of a scheme against the merged genome, and its tabular PAF output is parsed into alignment hits. PAF is minimap2's Pairwise mApping Format.

The hits are routed to loci by the name prefix `locus_`. Each locus gets an allele call:
- an exact allele number;
- `novel`, when the best hit passes the 0.90 identity and coverage thresholds but is not exact;
- `no_hit`.

The calls then resolve to a sequence type against the scheme's profile table. The result is:
- `incomplete` if any locus is `no_hit`;
- otherwise `novel` if any locus is `novel`;
- otherwise the first profile that agrees with every call.

The tree pipeline builds one multi-FASTA input per locus and gap-fills missing or novel calls with a median-length run of `N`. It concatenates the per-locus alignments in locus order and hands the result to FastTree. The results table classifies values and builds CSV text.

Two scripts are modelled as well:
- `fetch_pubmlst.ts`, which parses PubMLST profile tables and derives locus and scheme names;
- `benchmark.py`, which re-implements the FASTA, PAF, allele and sequence-type rules in Python and parses the output of Seemann's `mlst` command-line tool.

The Python rules are modelled beside the TypeScript ones. Lemmas state where the two agree, and concrete lemmas show where they diverge.

The modules follow the source files:
- `Types` holds the records of `src/mlst/types.ts`. The sentinel texts `no_hit` / `novel` / `incomplete` are datatypes that keep their exact text.
- `Text` holds JavaScript and Python string primitives: `trim`, `strip`, `split`, `join` and upper-casing. Each runtime has its own whitespace set.
- `Numbers` models JavaScript numbers as an exact real or NaN, JavaScript `parseInt` (lenient: it reads a digit prefix) and Python `int()` (strict: it allows `_` between digits).
- `ParseFasta`, `Align`, `CallAllele`, `CallST`, `BuildTree`, `ResultsTable` and `FetchPubmlst` follow the TypeScript files of the same names.
- `BenchmarkFasta`, `BenchmarkPaf`, `BenchmarkCalls` and `BenchmarkCli` follow `scripts/benchmark.py`.

Each loop of the source is a method with loop invariants. The method is proved equal to a specification function, and lemmas prove what the source promises about that function. Most specification functions also have an independent reference definition and an equivalence lemma. For example, the FASTA scan has a record-by-record definition, and formatting then parsing is a round trip.

The external tools are function parameters of the model: minimap2 maps genome text and allele text to PAF text, mafft maps FASTA to aligned FASTA, and FastTree maps an alignment to Newick text. Progress callbacks are modelled as the returned sequence of reported percentages.

Four behaviours of the code are worth stating on their own:
- **Profile agreement.** `lookupST` (`src/mlst/callST.ts:36-51`) compares a profile on every locus of the genome's allele map. Loci the profile has beyond those are ignored, and a locus missing from the profile means no match. This is `CallST.Agrees`.
- **`buildTree` result.** `buildTree` (`src/mlst/buildTree.ts:144-148`) returns FastTree's output, trimmed, and nothing else.
- **Empty allele call.** `getSequenceForAllele` (`src/mlst/buildTree.ts:41-42`) treats an empty-string call like an absent locus, `no_hit` or `novel`: the genome gets an `N` fill for that locus.
- **The same locus twice.** In `callST` (`src/mlst/callST.ts:13-21`) the allele map keeps the last call of a locus, but the no-hit and novel flags come from every call in the list. So a `no_hit` that a later call for the same locus overwrote still makes the type `incomplete`.

The TypeScript and Python rules diverge in six ways, each shown by a lemma:
- `parseInt` accepts trailing junk (`12x`) that `int()` rejects: `BenchmarkPaf.TrailingJunkKeptByTsOnly`.
- The two read `1_0` as different numbers: `BenchmarkPaf.UnderscoreReadDifferently`.
- The allele number is split at `_` or `-` in TypeScript but at `_` only in Python: `BenchmarkCalls.DashedNameDiverges`.
- Python's flags are taken over the final allele map: `BenchmarkCalls.RepeatedLocusDiverges`.
- A header `> seq1` has no name in TypeScript, while Python takes `seq1`: `BenchmarkFasta.SpaceAfterMarker`.
- A bare `>` makes Python raise and TypeScript drop the record: `BenchmarkFasta.BareMarker`.

## Model

| member | source | states |
|---|---|---|
| ParseFasta.ParseFastaString | src/mlst/parseFasta.ts:6-29 | the line loop returns exactly `FastaRecords(text)`, the records of the front-to-back scan over split, trimmed lines |
| ParseFasta.NextHeader | src/mlst/parseFasta.ts:13 | the index of the first header line: no line before it is a header, and the line there is one |
| ParseFasta.ScanIsRecords | src/mlst/parseFasta.ts:11-26 | the scan equals the record-by-record reference definition: each header starts a record whose sequence is the upper-cased concatenation of the non-blank lines up to the next header, and records without a name are dropped |
| ParseFasta.ParseIsRecords | src/mlst/parseFasta.ts:11-28 | parsing a list of lines gives the reference records of those lines |
| ParseFasta.RecordNamesAreHeaderNames | src/mlst/parseFasta.ts:14-17 | the emitted names are, in order and with duplicates kept, the non-empty first tokens of the header lines (so there are at most as many records as headers) |
| ParseFasta.SequencesUpperCase | src/mlst/parseFasta.ts:20 | no emitted sequence contains a lower-case letter |
| ParseFasta.BlankLineIgnored | src/mlst/parseFasta.ts:19 | inserting a blank or whitespace-only line anywhere does not change the records |
| ParseFasta.TrailingNewlineIgnored | src/mlst/parseFasta.ts:24-26 | a trailing newline does not change the records, so the last record is emitted with or without one |
| ParseFasta.NoHeaderNoRecords | src/mlst/parseFasta.ts:13-21 | text without `>` gives no records, so lines before the first header contribute nothing |
| ParseFasta.WhitespaceOnlyNoRecords | src/mlst/parseFasta.ts:11-28 | empty or whitespace-only text gives no records |
| ParseFasta.HeaderLine | src/mlst/parseFasta.ts:12-17 | `>` followed by a whitespace-free non-empty name is a header line that names exactly that record |
| ParseFasta.RecordStep | src/mlst/parseFasta.ts:13-26 | a header and one sequence line followed by a header or the end of the text give exactly that record, then the rest |
| ParseFasta.FormatThenParse | src/mlst/parseFasta.ts:6-29 | round trip: formatting well-formed records as `>name` / sequence lines and parsing the text gives the same records |
| Align.MergeIsOneRecord | src/mlst/align.ts:21-27 | the merged genome is the one-record FASTA text `>filename`, the merged sequence and a newline |
| Align.MergedLength | src/mlst/align.ts:25 | for k ≥ 1 contigs the merged sequence is as long as the contigs together plus 100·(k−1) |
| Align.MergeRoundTrip | src/mlst/align.ts:21-27 | the merged genome parses back to one record named after the file, holding the contigs joined by 100 `N` |
| Align.ParsePAF | src/mlst/align.ts:40-79 | the loop returns `ParsedPaf(pafText)`: one hit for each accepted line of the trimmed text, in line order |
| Align.PafLineAccepted | src/mlst/align.ts:45-60 | a line gives a hit if and only if it has at least 12 tab fields, `parseInt` reads nMatch and blockLen, and blockLen ≠ 0 (the other numeric fields do not gate it) |
| Align.FieldsHitContents | src/mlst/align.ts:49-75 | an accepted line's hit takes its target name from field 0, query name from field 5 and target length from field 1, and its alignment length is qEnd − qStart |
| Align.IdentityIsPercentage | src/mlst/align.ts:63 | identity·blockLen = 100·nMatch, exactly |
| Align.IdentityBounds | src/mlst/align.ts:63 | with 0 ≤ nMatch ≤ blockLen the identity lies in [0, 100], and it is 100 exactly when nMatch = blockLen |
| Align.ExtraColumnsIgnored | src/mlst/align.ts:46-75 | columns after the twelfth do not change the hit a line gives |
| Align.PafHitsFromLines | src/mlst/align.ts:44-76 | there are no more hits than lines, and every hit is the hit of some line |
| Align.PafHitsAppend | src/mlst/align.ts:44-76 | lines are parsed independently: the hits of two blocks of lines are the hits of the first followed by those of the second |
| Align.EmptyPafNoHits | src/mlst/align.ts:42-45 | empty or whitespace-only PAF text gives no hits |
| Align.LocusHits | src/mlst/align.ts:113-116 | a hit is routed to locus L exactly when it is a parsed hit whose target name starts with `L_`, and routing never adds hits |
| Align.LocusHitsAppend | src/mlst/align.ts:114-116 | routing keeps parse order: routing two blocks of hits is routing each in turn |
| Align.LocusPrefixOverlap | src/mlst/align.ts:113-116 | a hit named `a_b_1` goes to both locus `a` and locus `a_b` when a scheme has both |
| Align.RecordLengths | src/mlst/align.ts:154-156 | the inner loop gives the map that sends each record name to its sequence length, later records overwriting earlier ones |
| Align.AlleleCatalogue | src/mlst/align.ts:145-159 | the two loops return the present locus FASTA texts joined by newlines and the length map of all their records |
| Align.LengthMapKeys | src/mlst/align.ts:154-156 | a name has a length if and only if it was there before or names one of the records |
| Align.LengthMapLastWins | src/mlst/align.ts:154-156 | a record that no later record shares a name with supplies its name's length |
| Align.LengthMapUntouched | src/mlst/align.ts:154-156 | a name that no record has keeps its earlier length |
| Align.AlleleLengthsContents | src/mlst/align.ts:148-157 | the allele-length map has an entry exactly for each record of each present locus FASTA (loci without one contribute nothing), and the last record of a name gives its length |
| Align.LocusPctOrder | src/mlst/align.ts:108-111 | the per-locus percentages are positive, at most 100 and non-decreasing along the loci |
| Align.FilePctsOrdered | src/mlst/align.ts:94-120 | one file's reported percentages 0, 100·(li+1)/L …, 100 are non-decreasing and within [0, 100] |
| Align.OverallPctOrder | src/mlst/align.ts:168-170 | a per-file percentage in [0, 100] blends to an overall one in [100·i/n, 100·(i+1)/n], monotonically |
| Align.ScaledOrdered | src/mlst/align.ts:166-171 | file i's blended percentages are non-decreasing and stay within file i's share of the range |
| Align.RunProgressOrdered | src/mlst/align.ts:139-187 | the whole run reports a non-decreasing sequence in [0, 100] that starts at 0 and ends at 100 |
| Align.LocusCallsAt | src/mlst/align.ts:107-118 | the call at position li is the allele call of locus li on the hits routed to it, and it carries that locus |
| Align.CallLocus | src/mlst/align.ts:113-117 | filtering the hits and calling the allele gives that locus's call |
| Align.CallLoci | src/mlst/align.ts:107-118 | the map over the loci returns one call per locus, in locus order, and reports the per-locus percentages |
| Align.AnalyzeFile | src/mlst/align.ts:85-127 | one file's analysis is `callST` of the per-locus calls on the parsed PAF, and it reports the per-file percentages |
| Align.AnalysisNames | src/mlst/align.ts:107-126 | the result carries the file name and scheme name, and its allele map has exactly the scheme's loci as keys |
| Align.AnalysisLocusAllele | src/mlst/align.ts:107-126 | with distinct loci, each locus maps to the text of its own call |
| Align.MissingLocusIncomplete | src/mlst/align.ts:113-126 | a locus that no hit is routed to makes the file's sequence type `incomplete` |
| Align.AnalyzeGenome | src/mlst/align.ts:165-182 | one pass of the file loop gives that file's result from its merged genome aligned against the joined catalogue, with the per-file percentages |
| Align.RunMLST | src/mlst/align.ts:134-189 | the file loop returns one result per file, in order (each from its merged genome and the joined catalogue), and reports the blended percentages between a first 0 and a final 100 |
| Align.RunResultsContents | src/mlst/align.ts:166-185 | result i is the analysis of file i, and there are as many results as files |
| CallAllele.CallAllele | src/mlst/callAllele.ts:13-79 | the selection loop and classification return `CallAlleleSpec(locus, hits, lengths)` |
| CallAllele.SelectBestConsistent | src/mlst/callAllele.ts:26-42 | the best-so-far state stays consistent: its numbers are those of its hit, its hit comes from the input, and it stays empty exactly when no hit improves on (0, 0) |
| CallAllele.CallAlleleChosenHit | src/mlst/callAllele.ts:18-46 | no hits, or nothing beating (0, 0), gives `no_hit` with identity 0, coverage 0 and no hit; otherwise the chosen hit is an input hit with a non-zero resolved length, and the identity and coverage reported are its identity/100 and alignmentLength/resolvedLength |
| CallAllele.CallAlleleClassification | src/mlst/callAllele.ts:48-78 | `no_hit` exactly when there is no hit or identity < 0.90 or coverage < 0.90; an allele number exactly when identity = 1.0 and coverage ≥ 1.0 (the number after the last delimiter of the chosen name); `novel` otherwise |
| CallAllele.BestHitIsFirstMaximum | src/mlst/callAllele.ts:26-42 | when every number is defined, the chosen hit is the first hit that is lexicographically maximal by (identity, coverage) among the considered hits, and there is none only when no hit beats (0, 0) |
| CallAllele.SelectBestIdentityBound | src/mlst/callAllele.ts:34-41 | the best identity never decreases and bounds the identity of every considered hit |
| CallAllele.IdentityIsMaximal | src/mlst/callAllele.ts:34-41 | the reported identity is non-negative and at least that of every considered hit, so a lower-identity hit is never chosen over a higher one |
| CallAllele.NaNCoverageIsNovel | src/mlst/callAllele.ts:31-78 | a considered hit passing the identity threshold whose coverage is NaN is called `novel`, because every comparison with NaN is false |
| CallAllele.ThresholdsAreInclusive | src/mlst/callAllele.ts:3-4 | identity exactly 0.90 and coverage exactly 0.90 pass the thresholds (the call is `novel`) |
| CallAllele.ThresholdsApplyToChosenHitOnly | src/mlst/callAllele.ts:34-56 | thresholds test only the chosen hit: a higher-identity hit with low coverage beats a hit that would pass, and the call is `no_hit` |
| CallAllele.ExtractAlleleNumber | src/mlst/callAllele.ts:81-85 | the result is the longest suffix free of `_` and `-`: the whole name without a delimiter, `""` when the name ends in one |
| CallAllele.ExtractAlleleNumberExamples | src/mlst/callAllele.ts:81-85 | `adk_1` gives `1`, `adk-12` gives `12`, and `7` gives `7` |
| CallST.CollectCalls | src/mlst/callST.ts:13-21 | the loop gives the locus-to-call map and sets each flag exactly when some result in the list has that sentinel |
| CallST.CallST | src/mlst/callST.ts:7-34 | the method returns `CallSTSpec`: `incomplete` on a no-hit flag, else `novel` on a novel flag, else the profile lookup |
| CallST.LookupST | src/mlst/callST.ts:36-51 | the nested loops with the match flag and early return give `Lookup(alleles, profiles)` |
| CallST.Lookup | src/mlst/callST.ts:36-51 | the type is `novel` or the type of a profile that agrees with every called locus |
| CallST.LookupNovelIff | src/mlst/callST.ts:40-50 | the lookup gives `novel` if and only if no profile agrees |
| CallST.LookupFirstAgreeing | src/mlst/callST.ts:40-48 | the first agreeing profile in table order gives the type |
| CallST.AllelesOfKeys | src/mlst/callST.ts:17-18 | the allele map has a key exactly for each locus in the list |
| CallST.AllelesOfLastWins | src/mlst/callST.ts:17-18 | the last result for a locus supplies its entry |
| CallST.CallSTOutcome | src/mlst/callST.ts:22-33 | filename, scheme and allele map pass through; `incomplete` if and only if some listed result is `no_hit`; `novel` if and only if none is and some is `novel` or no profile agrees; a known type only when all are exact |
| CallST.NoLociGivesFirstProfile | src/mlst/callST.ts:40-48 | with no loci the first profile agrees vacuously and gives the type |
| CallST.ExactProfileMatch | src/mlst/callST.ts:7-51 | the calls aroC 1, dnaN 1, hemD 1 against a table whose second profile is (1, 1, 1) with type 1 give type 1 |
| BuildTree.SortAscCorrect | src/mlst/buildTree.ts:25 | the sort of lengths is ascending and a permutation of its input |
| BuildTree.RecordLengths | src/mlst/buildTree.ts:25 | the length list has, position by position, the lengths of the records' sequences |
| BuildTree.LocusMedianRank | src/mlst/buildTree.ts:19-26 | 400 when the locus FASTA is missing, empty or has no records; otherwise a record length m with fewer than ⌊n/2⌋+1 lengths below m and more than ⌊n/2⌋ lengths at most m, which is element ⌊n/2⌋ of the sorted lengths |
| BuildTree.ComputeMedianLengths | src/mlst/buildTree.ts:13-29 | the loop gives each listed locus, and only those, its median |
| BuildTree.FindRecord | src/mlst/buildTree.ts:52 | the search finds nothing exactly when no record has the name, and otherwise finds the first record with it |
| BuildTree.GapFillShape | src/mlst/buildTree.ts:42 | the fill is all `N`, as long as the locus median or 400 when the locus has none |
| BuildTree.SequenceForAlleleCases | src/mlst/buildTree.ts:35-59 | an absent, empty, `no_hit` or `novel` call, a missing locus FASTA or no record `locus_call` all give the fill; otherwise the result is the sequence of the first record of that name |
| BuildTree.StoredAlleleFound | src/mlst/buildTree.ts:50-58 | an allele stored in a well-formed locus FASTA is found and its sequence returned |
| BuildTree.LocusInputText | src/mlst/buildTree.ts:100-111 | the loop builds the locus's multi-FASTA text `LocusInput` |
| BuildTree.LocusInputParsesBack | src/mlst/buildTree.ts:100-111 | the locus input parses back to one record per result, in result order, named by the file name and holding the sequence `getSequenceForAllele` resolves |
| BuildTree.AlignedByName | src/mlst/buildTree.ts:121-125 | the loop gives the name-to-aligned-sequence map of the parsed mafft output |
| BuildTree.AlignedMapContents | src/mlst/buildTree.ts:122-125 | the map has a key exactly for each record name, and the last record of a name supplies its sequence |
| BuildTree.AlignLocus | src/mlst/buildTree.ts:95-125 | one locus's input, mafft run and parse give `LocusAligned` |
| BuildTree.AlignLoci | src/mlst/buildTree.ts:92-126 | the per-locus loop gives each locus's aligned map and reports 10 + 60·li/L before each locus |
| BuildTree.GenomeParts | src/mlst/buildTree.ts:132-135 | the inner loop gives the genome's aligned part of each locus in locus order, `""` where missing |
| BuildTree.ConcatenateAlignments | src/mlst/buildTree.ts:128-139 | the loop gives the FASTA text of one record per result, named by the file name and holding its parts joined |
| BuildTree.ConcatLength | src/mlst/buildTree.ts:133-137 | a genome's concatenated sequence is as long as its parts together |
| BuildTree.ConcatenatedParsesBack | src/mlst/buildTree.ts:128-139 | the super-alignment parses back to one record per result, in result order, holding that genome's parts concatenated in scheme locus order |
| BuildTree.LocusTreePctMono | src/mlst/buildTree.ts:96 | the per-locus percentages are non-decreasing and within [10, 70] |
| BuildTree.TreePctAt | src/mlst/buildTree.ts:83-147 | the reported sequence is 0, 5, then the per-locus percentages, then 75, 80, 100 |
| BuildTree.TreePctsOrdered | src/mlst/buildTree.ts:83-147 | the tree percentages are non-decreasing and within [0, 100] |
| BuildTree.BuildTree | src/mlst/buildTree.ts:71-149 | fewer than 2 results fail with the source's message before any tool runs or progress is reported; otherwise the result is FastTree's output on the super-alignment, trimmed |
| ResultsTable.ExactIffExactLabel | src/components/ResultsTable.tsx:53-66 | a value classifies as `exact` if and only if its label starts with `Exact match: `, and then the label ends with the value itself |
| ResultsTable.AlleleCallClasses | src/components/ResultsTable.tsx:53-58 | `no_hit` is `nohit`, `novel` is `novel`, and an allele number is `missing` when empty, `nohit` / `novel` when it spells a sentinel, and `exact` otherwise |
| ResultsTable.SequenceTypeClasses | src/components/ResultsTable.tsx:53-58 | `incomplete` is `nohit`, `novel` is `novel`, and a non-empty non-sentinel type is `exact` |
| ResultsTable.AlleleCellCases | src/components/ResultsTable.tsx:71 | a row cell is the allele text when the key is present (an empty string stays empty) and `-` only when it is absent |
| ResultsTable.RowFieldsBack | src/components/ResultsTable.tsx:70-73 | splitting a row of plain fields at commas gives back filename, type and the cells in locus order, and a row has no newline |
| ResultsTable.HeaderFieldsBack | src/components/ResultsTable.tsx:69 | splitting the header gives `File`, `ST`, then the loci in order |
| ResultsTable.CsvLinesPlain | src/components/ResultsTable.tsx:69-74 | no line of a table of plain values contains a newline |
| ResultsTable.CsvReadBack | src/components/ResultsTable.tsx:68-74 | the CSV text splits into results+1 lines (no trailing newline): the header fields, then each result's fields in order |
| FetchPubmlst.FirstColumn | scripts/fetch_pubmlst.ts:57 | `indexOf` gives the first column holding the locus |
| FetchPubmlst.Profiles | scripts/fetch_pubmlst.ts:50-51 | profile text with fewer than two lines after trimming gives no profiles |
| FetchPubmlst.BlankTableNoProfiles | scripts/fetch_pubmlst.ts:50-51 | empty or whitespace-only profile text gives no profiles |
| FetchPubmlst.ParseProfiles | scripts/fetch_pubmlst.ts:45-76 | the loops return `Profiles(text, loci)` |
| FetchPubmlst.FindColumns | scripts/fetch_pubmlst.ts:55-59 | the column loop gives each locus in the header its first column |
| FetchPubmlst.ReadRow | scripts/fetch_pubmlst.ts:66-70 | the row loop gives the row's allele map |
| FetchPubmlst.RowProfileCells | scripts/fetch_pubmlst.ts:63-72 | a profile's type is field 0; its keys are requested loci; a locus missing from the header gets `''`; a header locus gets the field at its first column, or no key when the row is too short (`undefined` is dropped when serialised) |
| FetchPubmlst.DataRows | scripts/fetch_pubmlst.ts:62-64 | a row is kept exactly when its first field is non-empty |
| FetchPubmlst.ProfilesOfDataRows | scripts/fetch_pubmlst.ts:62-73 | one profile per kept row, in row order, with a non-empty type |
| FetchPubmlst.FirstColumnDistinct | scripts/fetch_pubmlst.ts:57 | in a header without repeats, each column is its name's first column |
| FetchPubmlst.TableRowRoundTrip | scripts/fetch_pubmlst.ts:53-72 | a row written under the header `ST` followed by distinct loci reads back as its type with each locus paired to its value |
| FetchPubmlst.LocusName | scripts/fetch_pubmlst.ts:95 | an allele file name is the locus name plus `.tfa` or `.fasta`; any other name is left unchanged |
| FetchPubmlst.LocusNameOfFile | scripts/fetch_pubmlst.ts:95 | stripping the suffix from `l.tfa` or `l.fasta` gives back `l` |
| FetchPubmlst.CopyNamesLocus | scripts/fetch_pubmlst.ts:107-111 | the copied file `locus.fasta` derives the same locus name as its source file |
| FetchPubmlst.AlleleFiles | scripts/fetch_pubmlst.ts:84-86 | the kept files are exactly the ones ending `.tfa` or `.fasta` |
| FetchPubmlst.SchemeLoci | scripts/fetch_pubmlst.ts:84-95 | one locus per allele file, in file order, each the file name less its suffix |
| FetchPubmlst.BeforeIrreflexive | scripts/fetch_pubmlst.ts:166 | no name sorts before itself |
| FetchPubmlst.BeforeTransitive | scripts/fetch_pubmlst.ts:166 | the sort order is transitive |
| FetchPubmlst.BeforeTotal | scripts/fetch_pubmlst.ts:166 | any two distinct names are ordered one way or the other |
| FetchPubmlst.InsertName | scripts/fetch_pubmlst.ts:166 | inserting into a strictly sorted list keeps it strictly sorted and adds exactly the new name |
| FetchPubmlst.StrictlySortedUnique | scripts/fetch_pubmlst.ts:166 | two strictly sorted lists with the same members are equal, so the written list is determined by its set |
| FetchPubmlst.SortNames | scripts/fetch_pubmlst.ts:166 | sorting a set gives a strictly sorted list of exactly its members |
| FetchPubmlst.ProcessedNamesMembers | scripts/fetch_pubmlst.ts:151-157 | a name is processed exactly when it is listed, passes the filter and its scheme processes successfully |
| FetchPubmlst.ProcessNames | scripts/fetch_pubmlst.ts:149-157 | the loop gives the processed names in directory order |
| FetchPubmlst.AddNames | scripts/fetch_pubmlst.ts:160-165 | the merged set is the processed names together with the existing ones |
| FetchPubmlst.SchemeList | scripts/fetch_pubmlst.ts:149-166 | the written list is the sorted, de-duplicated union of the processed names and, when filtering with an existing list, its names |
| BenchmarkFasta.FirstWord | scripts/benchmark.py:88 | `split()[0]` is a non-empty whitespace-free word when it exists |
| BenchmarkFasta.PyParseFasta | scripts/benchmark.py:77-96 | the loop returns `PyFasta(text)`, with `None` where `parse_fasta` raises |
| BenchmarkFasta.PyFastaAgrees | scripts/benchmark.py:77-96 | on lines where Python and JavaScript whitespace agree and no header has a space after `>`, `parse_fasta` is the TypeScript records collected into a dict |
| BenchmarkFasta.PyFastaNames | scripts/benchmark.py:86-94 | every key of the dict is a non-empty whitespace-free name |
| BenchmarkFasta.IntoKeys | scripts/benchmark.py:87-94 | the dict has a key exactly for each record name |
| BenchmarkFasta.IntoLastWins | scripts/benchmark.py:87-94 | a duplicate name keeps the sequence of its last record |
| BenchmarkFasta.SpaceAfterMarker | scripts/benchmark.py:88 | `> seq1` then `ACGT`: the TypeScript parser gives no record, while the Python one gives `seq1` → `ACGT` |
| BenchmarkFasta.BareMarker | scripts/benchmark.py:88 | `>` then `ACGT`: the TypeScript parser gives no record, while `parse_fasta` raises |
| BenchmarkPaf.PyParsePaf | scripts/benchmark.py:140-183 | the loop returns `PyParsedPaf(pafText)` |
| BenchmarkPaf.PyPafLineAccepted | scripts/benchmark.py:146-167 | a line gives a hit if and only if it has at least 12 fields, `int()` reads all seven integer fields (1, 2, 3, 7, 8, 9 and 10), and block_len ≠ 0 |
| BenchmarkPaf.PyHitContents | scripts/benchmark.py:169-181 | identity·block_len = 100·n_match, alignment_length = q_end − q_start, and the names and coordinates come from the stated fields |
| BenchmarkPaf.PyFieldsHitAgrees | scripts/benchmark.py:153-181 | when the integer fields have no `_` and no whitespace that only Python strips, the TypeScript parser gives the same hit |
| BenchmarkPaf.PafHitsAgree | scripts/benchmark.py:145-183 | on such lines both parsers give the same hits, in the same order |
| BenchmarkPaf.TrailingJunkKeptByTsOnly | scripts/benchmark.py:153-164 | a line whose fields are all `12x` is accepted by the TypeScript parser and skipped by the Python one |
| BenchmarkPaf.UnderscoreReadDifferently | scripts/benchmark.py:153-164 | fields `1_0` are read as 10 by Python and as 1 by TypeScript |
| BenchmarkCalls.PyCallAllele | scripts/benchmark.py:186-245 | the loop returns `PyCallAlleleSpec` |
| BenchmarkCalls.PySelectFrom | scripts/benchmark.py:198-215 | the chosen hit is the initial one or an input hit |
| BenchmarkCalls.PyCallAlleleOutcome | scripts/benchmark.py:195-245 | no hits or no chosen hit give `no_hit` with 0, 0; below a threshold gives `no_hit` with the numbers; identity 1.0 and coverage ≥ 1.0 give the last `_` token; otherwise `novel` |
| BenchmarkCalls.SelectAgrees | scripts/benchmark.py:202-215 | the Python selection is the TypeScript selection on the converted hits |
| BenchmarkCalls.PyCallAlleleAgrees | scripts/benchmark.py:186-245 | the Python and TypeScript calls have the same locus, identity and coverage, and the same allele whenever no hit name has a `-` |
| BenchmarkCalls.DashedNameDiverges | scripts/benchmark.py:228-231 | an exact hit on `abc_1-2` is allele `1-2` in Python and `2` in TypeScript |
| BenchmarkCalls.PyCallSt | scripts/benchmark.py:248-268 | the loop returns `PyCallStSpec` |
| BenchmarkCalls.PyAllelesOfKeys | scripts/benchmark.py:250 | the dict has a key exactly for each locus called |
| BenchmarkCalls.PyAllelesOfLastWins | scripts/benchmark.py:250 | the last call of a locus supplies its entry |
| BenchmarkCalls.AnyValueHasText | scripts/benchmark.py:252-255 | a sentinel among the dict's values comes from some call, and with distinct loci every call's sentinel is among them |
| BenchmarkCalls.PyCallStAgrees | scripts/benchmark.py:248-268 | the Python allele dict is the TypeScript map, a Python `incomplete` with a `no_hit` value in the map is TypeScript `incomplete`, and with distinct loci the two types agree |
| BenchmarkCalls.RepeatedLocusDiverges | scripts/benchmark.py:250-253 | a locus called `no_hit` and then `1` is type 7 in Python and `incomplete` in TypeScript |
| BenchmarkCalls.PyLocusHits | scripts/benchmark.py:286-287 | a locus gets exactly the hits whose allele name starts with `locus_` |
| BenchmarkCalls.PyRunMinimap2Mlst | scripts/benchmark.py:281-293 | the grouping returns `PyRunSpec` |
| BenchmarkCalls.PyRunKeys | scripts/benchmark.py:290-293 | the result carries the scheme, and its allele dict has exactly the scheme's loci |
| BenchmarkCalls.PyRunValues | scripts/benchmark.py:284-291 | with distinct loci, each locus maps to its own call on its routed hits |
| BenchmarkCalls.LocusHitsAgree | scripts/benchmark.py:286-287 | Python and TypeScript route the same hits to a locus |
| BenchmarkCalls.LocusCallsAgree | scripts/benchmark.py:284-288 | without dashed names, the per-locus calls of both agree locus by locus |
| BenchmarkCalls.BenchmarkMatchesPipeline | scripts/benchmark.py:271-293 | on PAF text whose lines both parsers read alike and without dashed allele names, the benchmark's scheme and allele dict equal the pipeline's, and with distinct loci so does the type |
| BenchmarkCli.PathName | scripts/benchmark.py:53 | `Path(p).name` has no `/` and is never `.` |
| BenchmarkCli.PathNameOfJoin | scripts/benchmark.py:53 | the name of `dir/f` is `f` |
| BenchmarkCli.PathNameIgnoresTrailing | scripts/benchmark.py:53 | a trailing `/` or `/.` does not change the name |
| BenchmarkCli.RStripChar | scripts/benchmark.py:62 | `rstrip(")")` removes exactly the trailing run of `)` |
| BenchmarkCli.AlleleField | scripts/benchmark.py:60-68 | a field gives a call exactly when it contains `(`, and then its locus is the text before the first `(` |
| BenchmarkCli.AlleleFieldRoundTrip | scripts/benchmark.py:60-68 | `locus(n)` reads as `novel` when n starts with `~`, `no_hit` when n is `-`, and n verbatim otherwise |
| BenchmarkCli.FieldAllelesKeys | scripts/benchmark.py:58-70 | a locus is in the dict exactly when some field calls it, and fields without `(` are ignored |
| BenchmarkCli.FieldAllelesLastWins | scripts/benchmark.py:58-70 | the last field calling a locus supplies its value |
| BenchmarkCli.ReadAlleleFields | scripts/benchmark.py:58-70 | the inner loop gives `FieldAlleles` |
| BenchmarkCli.LineRoundTrip | scripts/benchmark.py:48-72 | a line of at least 3 tab fields reads as the file's base name, its scheme, its type and the calls of the remaining fields |
| BenchmarkCli.CliResultsKeys | scripts/benchmark.py:45-72 | a file name has a result exactly when some line reports it |
| BenchmarkCli.CliResultsLastWins | scripts/benchmark.py:72 | the last line reporting a file name supplies its result |
| BenchmarkCli.ParseMlstOutput | scripts/benchmark.py:43-74 | the loop returns `ParsedCli(stdout)` |
| Numbers.DigitPrefix | src/mlst/align.ts:50-58 | `parseInt` reads the longest digit prefix, which stops at the first non-digit |
| Numbers.DropUnderscores | scripts/benchmark.py:155-162 | removing the underscores that `int()` allows leaves only digits |
| Numbers.ParseIntPyImpliesJs | scripts/benchmark.py:155-162 | whatever `int()` reads without `_` and without Python-only whitespace, `parseInt` reads as the same integer |
| Numbers.ParseIntTrailingJunk | src/mlst/align.ts:50-58 | `parseInt("12x")` is 12, while `int("12x")` fails |
| Numbers.ParseIntUnderscore | scripts/benchmark.py:155-162 | `parseInt("1_0")` is 1, while `int("1_0")` is 10 |
| Text.Split | src/mlst/parseFasta.ts:11 | `split` gives at least one part, no part holds the separator, and joining the parts gives the text back |
| Text.SplitJoin | src/mlst/parseFasta.ts:11 | splitting the join of separator-free parts gives the parts back |
| Text.TrimStartShape | src/mlst/parseFasta.ts:12 | trimming the start removes exactly the leading whitespace |
| Text.TrimEndShape | src/mlst/parseFasta.ts:12 | trimming the end removes exactly the trailing whitespace |
| Text.TokenPrefixShape | src/mlst/parseFasta.ts:17 | the first token is the longest whitespace-free prefix |
| Text.UpperNoLower | src/mlst/parseFasta.ts:20 | an upper-cased string has no lower-case letter |
| Text.LastToken | src/mlst/callAllele.ts:83-84 | the last part of a split is the longest delimiter-free suffix, preceded by a delimiter when shorter than the text |
| Text.Repeat | src/mlst/buildTree.ts:42 | `c.repeat(n)` has length n and every character c |
| Text.JoinLength | src/mlst/align.ts:25 | a join is as long as its parts plus one separator between each two |
| Wrappers.Get | src/mlst/callAllele.ts:27 | a record lookup finds a value exactly when the key is present, and then it is the stored value |

## Left out

- The external tools are function parameters, not models: minimap2 through Aioli (`cli.mount`, `cli.exec`), mafft and FastTree, and the unwrapping of a tool's output to `stdout`. The model does not rely on mafft keeping one record per input name. A name missing from the alignment gives `""`.
- Gzip decompression and `File` reading in `parseFastaFile` are I/O and are left out. The model starts from the FASTA text.
- The network fetch of scheme bundles in `src/mlst/loadScheme.ts` is left out; a scheme arrives as a value.
- The React components are left out: the JSX of the results table, the download through a `Blob` and anchor, the tree view, file upload, the about page, the log console and the scheme selector.
- Progress messages and callbacks: only the reported percentages are modelled, as a returned sequence. The message texts are left out. So is the point at which each percentage is reported relative to the tool calls.
- Floating point: identity, coverage and percentages are exact reals, so "identity = 1.0" is tested on the exact ratio nMatch/blockLen, and IEEE-754 rounding is not modelled. NaN is modelled, since `parseInt` can produce it for the non-gating PAF fields.
- Strings are sequences of Unicode characters:
  - Upper-casing covers ASCII `a`–`z` only.
  - Names are sorted by character code (`FetchPubmlst.SortNames`), which matches JavaScript's UTF-16 order only outside the surrogate range.
  - Inherited object keys such as `constructor` in JavaScript records are not modelled.
- In `fetch_pubmlst.ts` the model works on text and names, not on the file system:
  - left out: cloning the repository, `statSync`, `mkdirSync`, `readFileSync`, `writeFileSync`, `copyFileSync`, the JSON writing, the profile-file search (`files.find`) and console output;
  - whether a scheme processes successfully is the function parameter `processes`;
  - directory listings are given sequences.
- In `benchmark.py` the following are I/O and are left out: `scan_genomes`, `load_scheme`, `concat_alleles`, `run_minimap2` and the subprocess call in `run_mlst_cli` (lines 38-42), `main` with `argparse`, `tempfile` and printing. PAF text and mlst output are parameters, and lengths are a given map.
- Numbers.ParseIntPy: models Python `int()` on the ASCII digits `0`–`9` only; Python also accepts every other Unicode decimal digit (category Nd, such as `１２` or `١٢`). minimap2 writes ASCII digits only, so PAF output is not affected.
- BenchmarkPaf.PyParsePaf: because `int()` is modelled on ASCII digits, a PAF line whose integer fields use other Unicode decimal digits is skipped in the model but kept by `parse_paf`.
- BenchmarkPaf.PyPafLineAccepted: the acceptance condition inherits the ASCII-only `int()` above.
- Numbers.ParseIntPyImpliesJs: holds for the ASCII-only `int()`; on non-ASCII decimal digits (`１２`), Python reads 12 while `parseInt` gives NaN.
- BenchmarkCli.PathName: models `Path.name` for POSIX paths only (separator `/`); Windows drive and backslash handling are left out.
- BenchmarkFasta.PyParseFasta: an exception (`IndexError` on a header with no word) is modelled as `None`, not as a stack unwinding.
