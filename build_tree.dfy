/**
 * Tree input preparation (src/mlst/buildTree.ts): gap-fill lengths, the
 * sequence each genome contributes per locus, one multiple-alignment input
 * per locus and the concatenated super-alignment. The aligner (mafft) and
 * the tree builder (FastTree) are function parameters from input text to
 * output text.
 */
module BuildTree {
  import opened Wrappers
  import opened Text
  import opened Types
  import opened ParseFasta

  /** The gap length used when a locus has no median. */
  const DefaultMedian: nat := 400

  // ----- Ascending sort of lengths (`sort((a, b) => a - b)`) -----

  function Insert(x: nat, s: seq<nat>): seq<nat> {
    if s == [] then [x] else if x <= s[0] then [x] + s else [s[0]] + Insert(x, s[1..])
  }

  /** The lengths in ascending order. */
  function SortAsc(s: seq<nat>): seq<nat> {
    if s == [] then [] else Insert(s[0], SortAsc(s[1..]))
  }

  predicate Ascending(s: seq<nat>) {
    forall i, j :: 0 <= i < j < |s| ==> s[i] <= s[j]
  }

  lemma {:induction false} InsertMultiset(x: nat, s: seq<nat>)
    ensures multiset(Insert(x, s)) == multiset(s) + multiset{x}
  {
    if s != [] && x > s[0] {
      InsertMultiset(x, s[1..]);
      assert s == [s[0]] + s[1..];
    }
  }

  /** A bound below `x` and every element stays below every element after inserting `x`. */
  lemma {:induction false} InsertLowerBound(x: nat, s: seq<nat>, b: nat)
    requires b <= x && forall i :: 0 <= i < |s| ==> b <= s[i]
    ensures forall j :: 0 <= j < |Insert(x, s)| ==> b <= Insert(x, s)[j]
  {
    if s != [] && x > s[0] {
      InsertLowerBound(x, s[1..], b);
      var t := Insert(x, s[1..]);
      assert Insert(x, s) == [s[0]] + t;
    }
  }

  lemma {:induction false} InsertAscending(x: nat, s: seq<nat>)
    requires Ascending(s)
    ensures Ascending(Insert(x, s))
  {
    if s != [] && x > s[0] {
      var t := Insert(x, s[1..]);
      InsertAscending(x, s[1..]);
      InsertLowerBound(x, s[1..], s[0]);
      var u := [s[0]] + t;
      assert Insert(x, s) == u;
      forall i, j | 0 <= i < j < |u|
        ensures u[i] <= u[j]
      {
        assert u[j] == t[j - 1];
        if i > 0 {
          assert u[i] == t[i - 1];
        }
      }
    }
  }

  /** The sorted lengths are ascending and a permutation of the input. */
  lemma {:induction false} SortAscCorrect(s: seq<nat>)
    ensures Ascending(SortAsc(s)) && multiset(SortAsc(s)) == multiset(s)
  {
    if s != [] {
      SortAscCorrect(s[1..]);
      InsertAscending(s[0], SortAsc(s[1..]));
      InsertMultiset(s[0], SortAsc(s[1..]));
      assert s == [s[0]] + s[1..];
    }
  }

  /** How many of the lengths are below `m`. */
  function CountBelow(s: seq<nat>, m: nat): nat {
    if s == [] then 0 else (if s[0] < m then 1 else 0) + CountBelow(s[1..], m)
  }

  /** How many of the lengths are at most `m`. */
  function CountAtMost(s: seq<nat>, m: nat): nat {
    if s == [] then 0 else (if s[0] <= m then 1 else 0) + CountAtMost(s[1..], m)
  }

  lemma {:induction false} InsertCounts(x: nat, s: seq<nat>, m: nat)
    ensures CountBelow(Insert(x, s), m) == CountBelow(s, m) + (if x < m then 1 else 0)
    ensures CountAtMost(Insert(x, s), m) == CountAtMost(s, m) + (if x <= m then 1 else 0)
  {
    if s != [] && x > s[0] {
      InsertCounts(x, s[1..], m);
      var t := [s[0]] + Insert(x, s[1..]);
      assert t[1..] == Insert(x, s[1..]);
    } else if s != [] {
      assert ([x] + s)[1..] == s;
    }
  }

  lemma {:induction false} SortCounts(s: seq<nat>, m: nat)
    ensures CountBelow(SortAsc(s), m) == CountBelow(s, m)
    ensures CountAtMost(SortAsc(s), m) == CountAtMost(s, m)
  {
    if s != [] {
      SortCounts(s[1..], m);
      InsertCounts(s[0], SortAsc(s[1..]), m);
    }
  }

  lemma {:induction false} NoneBelow(t: seq<nat>, m: nat)
    requires forall i :: 0 <= i < |t| ==> m <= t[i]
    ensures CountBelow(t, m) == 0
  {
    if t != [] {
      NoneBelow(t[1..], m);
    }
  }

  /** In an ascending sequence, element `h` has at most `h` values below it and at least `h + 1` at or below it. */
  lemma {:induction false} RankInAscending(t: seq<nat>, h: nat)
    requires Ascending(t) && h < |t|
    ensures CountBelow(t, t[h]) <= h && CountAtMost(t, t[h]) >= h + 1
  {
    if h == 0 {
      NoneBelow(t, t[0]);
      assert CountAtMost(t, t[0]) >= 1;
    } else {
      assert t[1..][h - 1] == t[h];
      RankInAscending(t[1..], h - 1);
    }
  }

  // ----- Median allele lengths -----

  /** The sequence lengths of the records, in order. */
  function RecordLengths(rs: seq<Contig>): (r: seq<nat>)
    ensures |r| == |rs| && forall i :: 0 <= i < |rs| ==> r[i] == |rs[i].sequence|
  {
    if rs == [] then [] else [|rs[0].sequence|] + RecordLengths(rs[1..])
  }

  /** `lengths[Math.floor(lengths.length / 2)] ?? 400` over the sorted lengths. */
  function MiddleOf(sorted: seq<nat>): nat {
    if |sorted| / 2 < |sorted| then sorted[|sorted| / 2] else DefaultMedian
  }

  /** The gap-fill length of a locus: 400 without a FASTA, otherwise the middle of its sorted allele lengths. */
  function LocusMedian(locus: string, fastas: map<string, string>): nat {
    var fasta := Get(fastas, locus);
    if !Truthy(fasta) then DefaultMedian
    else MiddleOf(SortAsc(RecordLengths(FastaRecords(fasta.value))))
  }

  /**
   * A locus with no FASTA, an empty one, or one without records gets 400;
   * otherwise its median is one of its allele lengths, with fewer than half
   * of the lengths (rounded down) below it and more than half at or below
   * it: the element of rank n/2, the upper median for an even count.
   */
  lemma LocusMedianRank(locus: string, fastas: map<string, string>)
    ensures var fasta := Get(fastas, locus);
      var m := LocusMedian(locus, fastas);
      if !Truthy(fasta) || FastaRecords(fasta.value) == [] then m == DefaultMedian
      else
        var ls := RecordLengths(FastaRecords(fasta.value));
        && m in ls
        && CountBelow(ls, m) <= |ls| / 2 < CountAtMost(ls, m)
  {
    var fasta := Get(fastas, locus);
    if Truthy(fasta) && FastaRecords(fasta.value) != [] {
      var ls := RecordLengths(FastaRecords(fasta.value));
      var t := SortAsc(ls);
      SortAscCorrect(ls);
      assert |t| == |ls| by {
        assert |multiset(t)| == |multiset(ls)|;
      }
      var h := |t| / 2;
      assert t[h] in multiset(ls);
      RankInAscending(t, h);
      SortCounts(ls, t[h]);
    }
  }

  /** `computeMedianLengths`: one entry per listed locus, the median of its alleles. */
  method ComputeMedianLengths(loci: seq<string>, fastas: map<string, string>) returns (medians: map<string, nat>)
    ensures forall l :: l in medians <==> l in loci
    ensures forall l :: l in medians ==> medians[l] == LocusMedian(l, fastas)
  {
    medians := map[];
    for i := 0 to |loci|
      invariant forall l :: l in medians <==> l in loci[..i]
      invariant forall l :: l in medians ==> medians[l] == LocusMedian(l, fastas)
    {
      assert loci[..i + 1] == loci[..i] + [loci[i]];
      var locus := loci[i];
      var fasta := Get(fastas, locus);
      if !Truthy(fasta) {
        medians := medians[locus := DefaultMedian];
        continue;
      }
      var alleles := ParseFastaString(fasta.value);
      var lengths := SortAsc(RecordLengths(alleles));
      medians := medians[locus := if |lengths| / 2 < |lengths| then lengths[|lengths| / 2] else DefaultMedian];
    }
    assert loci[..|loci|] == loci;
  }

  /** The median map `buildTree` uses. */
  function MedianMap(loci: seq<string>, fastas: map<string, string>): map<string, nat> {
    map l | l in loci :: LocusMedian(l, fastas)
  }

  // ----- The sequence a genome contributes at a locus -----

  /** `alleles.find((a) => a.name === name)`. */
  function FindRecord(rs: seq<Contig>, name: string): (r: Option<Contig>)
    ensures r.None? <==> forall i :: 0 <= i < |rs| ==> rs[i].name != name
    ensures r.Some? ==>
      exists i :: 0 <= i < |rs| && rs[i] == r.value && r.value.name == name
        && forall j :: 0 <= j < i ==> rs[j].name != name
  {
    if rs == [] then None
    else if rs[0].name == name then Some(rs[0])
    else
      var r := FindRecord(rs[1..], name);
      assert r.Some? ==> (exists i :: 1 <= i < |rs| && rs[i] == r.value && (forall j :: 0 <= j < i ==> rs[j].name != name)) by {
        if r.Some? {
          var i :| 0 <= i < |rs[1..]| && rs[1..][i] == r.value && r.value.name == name
            && forall j :: 0 <= j < i ==> rs[1..][j].name != name;
          assert rs[i + 1] == r.value;
          forall j | 0 <= j < i + 1
            ensures rs[j].name != name
          {
            if j > 0 {
              assert rs[j] == rs[1..][j - 1];
            }
          }
        }
      }
      r
  }

  /** `'N'.repeat(medianLengths[locus] ?? 400)`. */
  function GapFill(locus: string, medians: map<string, nat>): string {
    Repeat('N', match Get(medians, locus) case Some(m) => m case None => DefaultMedian)
  }

  /** A call that names an allele: present, not empty and not a sentinel. */
  predicate IsAlleleCall(call: Option<string>) {
    Truthy(call) && call.value != NoHitText && call.value != NovelText
  }

  /** `getSequenceForAllele`. */
  function SequenceForAllele(locus: string, call: Option<string>, fastas: map<string, string>,
                             medians: map<string, nat>): string
  {
    if !IsAlleleCall(call) then GapFill(locus, medians)
    else
      var fasta := Get(fastas, locus);
      if !Truthy(fasta) then GapFill(locus, medians)
      else
        match FindRecord(FastaRecords(fasta.value), locus + "_" + call.value)
        case None => GapFill(locus, medians)
        case Some(c) => c.sequence
  }

  /** The gap fill is all N, as long as the locus's median, or 400 without one. */
  lemma GapFillShape(locus: string, medians: map<string, nat>)
    ensures var g := GapFill(locus, medians);
      (forall i :: 0 <= i < |g| ==> g[i] == 'N')
      && |g| == (if locus in medians then medians[locus] else DefaultMedian)
  {
  }

  /**
   * A genome contributes the sequence of the first allele record named
   * `locus_call`; when the call is missing, empty, `no_hit` or `novel`, the
   * locus has no FASTA, or no record has that name, it contributes the gap
   * fill.
   */
  lemma SequenceForAlleleCases(locus: string, call: Option<string>, fastas: map<string, string>,
                               medians: map<string, nat>)
    ensures var r := SequenceForAllele(locus, call, fastas, medians);
      if !IsAlleleCall(call) || !Truthy(Get(fastas, locus)) then r == GapFill(locus, medians)
      else
        var rs := FastaRecords(fastas[locus]);
        var name := locus + "_" + call.value;
        ((forall i :: 0 <= i < |rs| ==> rs[i].name != name) ==> r == GapFill(locus, medians))
        && (forall i :: 0 <= i < |rs| && rs[i].name == name && (forall j :: 0 <= j < i ==> rs[j].name != name) ==>
              r == rs[i].sequence)
  {
    if IsAlleleCall(call) && Truthy(Get(fastas, locus)) {
      var rs := FastaRecords(fastas[locus]);
      var name := locus + "_" + call.value;
      var f := FindRecord(rs, name);
      forall i | 0 <= i < |rs| && rs[i].name == name && (forall j :: 0 <= j < i ==> rs[j].name != name)
        ensures f == Some(rs[i])
      {
        var k :| 0 <= k < |rs| && rs[k] == f.value && f.value.name == name
          && forall j :: 0 <= j < k ==> rs[j].name != name;
        assert k == i;
      }
    }
  }

  /**
   * When the locus FASTA is the text the FASTA writer makes of `rs`, an
   * allele call gives the stored sequence of the first record named
   * `locus_call`.
   */
  lemma StoredAlleleFound(locus: string, call: string, rs: seq<Contig>, fastas: map<string, string>,
                          medians: map<string, nat>, i: nat)
    requires WellFormed(rs) && i < |rs|
    requires IsAlleleCall(Some(call)) && locus in fastas && fastas[locus] == FormatFasta(rs) && fastas[locus] != ""
    requires rs[i].name == locus + "_" + call && forall j :: 0 <= j < i ==> rs[j].name != rs[i].name
    ensures SequenceForAllele(locus, Some(call), fastas, medians) == rs[i].sequence
  {
    FormatThenParse(rs);
    SequenceForAlleleCases(locus, Some(call), fastas, medians);
  }

  // ----- Per-locus alignment inputs -----

  /** The records of a locus's alignment input: one per genome, in result order. */
  function LocusRecords(locus: string, results: seq<MLSTResult>, fastas: map<string, string>,
                        medians: map<string, nat>): (r: seq<Contig>)
    ensures |r| == |results|
  {
    seq(|results|, j requires 0 <= j < |results| =>
      Contig(results[j].filename, SequenceForAllele(locus, Get(results[j].alleles, locus), fastas, medians)))
  }

  /** `inputLines.join('\n') + '\n'` for one locus. */
  function LocusInput(locus: string, results: seq<MLSTResult>, fastas: map<string, string>,
                      medians: map<string, nat>): string {
    FormatFasta(LocusRecords(locus, results, fastas, medians))
  }

  lemma {:induction false} RecordLinesSnoc(rs: seq<Contig>, r: Contig)
    ensures RecordLines(rs + [r]) == RecordLines(rs) + [">" + r.name, r.sequence]
  {
    if rs == [] {
      assert [r][1..] == [];
    } else {
      assert (rs + [r])[0] == rs[0] && (rs + [r])[1..] == rs[1..] + [r];
      RecordLinesSnoc(rs[1..], r);
    }
  }

  /**
   * Read back, a locus's alignment input gives one record per genome, in
   * result order, named after the genome's file and holding its sequence
   * for the locus (when those are a valid record name and sequence line).
   */
  lemma LocusInputParsesBack(locus: string, results: seq<MLSTResult>, fastas: map<string, string>,
                             medians: map<string, nat>)
    requires WellFormed(LocusRecords(locus, results, fastas, medians))
    ensures var rs := FastaRecords(LocusInput(locus, results, fastas, medians));
      && |rs| == |results|
      && forall j :: 0 <= j < |results| ==>
           rs[j].name == results[j].filename
           && rs[j].sequence == SequenceForAllele(locus, Get(results[j].alleles, locus), fastas, medians)
  {
    FormatThenParse(LocusRecords(locus, results, fastas, medians));
  }

  /** `alignedPerLocus[locus][contig.name] = contig.sequence` over the aligned records: the last record of a name wins. */
  function AlignedMap(rs: seq<Contig>): map<string, string>
    decreases |rs|
  {
    if rs == [] then map[]
    else AlignedMap(rs[..|rs| - 1])[rs[|rs| - 1].name := rs[|rs| - 1].sequence]
  }

  lemma {:induction false} AlignedMapContents(rs: seq<Contig>)
    ensures forall k :: k in AlignedMap(rs) <==> exists i :: 0 <= i < |rs| && rs[i].name == k
    ensures forall i :: 0 <= i < |rs| && (forall j :: i < j < |rs| ==> rs[j].name != rs[i].name) ==>
      rs[i].name in AlignedMap(rs) && AlignedMap(rs)[rs[i].name] == rs[i].sequence
    decreases |rs|
  {
    if rs != [] {
      var init := rs[..|rs| - 1];
      AlignedMapContents(init);
      assert forall i :: 0 <= i < |init| ==> init[i] == rs[i];
    }
  }

  /** One locus's aligned sequences, keyed by genome name. */
  function LocusAligned(locus: string, results: seq<MLSTResult>, fastas: map<string, string>,
                        medians: map<string, nat>, mafft: string -> string): map<string, string>
  {
    AlignedMap(FastaRecords(mafft(LocusInput(locus, results, fastas, medians))))
  }

  /** The aligned sequences of every locus, keyed by genome name. */
  function AlignedPerLocus(results: seq<MLSTResult>, scheme: SchemeData, mafft: string -> string)
    : map<string, map<string, string>>
  {
    var loci := scheme.scheme.loci;
    var medians := MedianMap(loci, scheme.alleleFastas);
    AlignedOver(loci, results, scheme.alleleFastas, medians, mafft)
  }

  /** The aligned sequences of each of `loci`. */
  function AlignedOver(loci: seq<string>, results: seq<MLSTResult>, fastas: map<string, string>,
                       medians: map<string, nat>, mafft: string -> string): map<string, map<string, string>>
  {
    map l | l in loci :: LocusAligned(l, results, fastas, medians, mafft)
  }

  lemma AlignedOverStep(loci: seq<string>, locus: string, results: seq<MLSTResult>, fastas: map<string, string>,
                        medians: map<string, nat>, mafft: string -> string)
    ensures AlignedOver(loci + [locus], results, fastas, medians, mafft)
         == AlignedOver(loci, results, fastas, medians, mafft)[locus := LocusAligned(locus, results, fastas, medians, mafft)]
  {
  }

  // ----- The concatenated alignment -----

  /** `alignedPerLocus[locus]?.[filename] ?? ''`. */
  function AlignedPart(aligned: map<string, map<string, string>>, locus: string, filename: string): string {
    if locus in aligned && filename in aligned[locus] then aligned[locus][filename] else ""
  }

  /** A genome's aligned sequences, in scheme locus order. */
  function Parts(aligned: map<string, map<string, string>>, loci: seq<string>, filename: string): (r: seq<string>)
    ensures |r| == |loci|
  {
    seq(|loci|, k requires 0 <= k < |loci| => AlignedPart(aligned, loci[k], filename))
  }

  /** One record per genome, in result order: its parts joined with nothing between. */
  function ConcatRecords(results: seq<MLSTResult>, loci: seq<string>, aligned: map<string, map<string, string>>)
    : (r: seq<Contig>)
    ensures |r| == |results|
  {
    seq(|results|, j requires 0 <= j < |results| =>
      Contig(results[j].filename, Concat(Parts(aligned, loci, results[j].filename))))
  }

  /** The text given to the tree builder. */
  function ConcatenatedFasta(results: seq<MLSTResult>, scheme: SchemeData, mafft: string -> string): string {
    FormatFasta(ConcatRecords(results, scheme.scheme.loci, AlignedPerLocus(results, scheme, mafft)))
  }

  /** A concatenated record is as long as its genome's aligned sequences together. */
  lemma ConcatLength(results: seq<MLSTResult>, loci: seq<string>, aligned: map<string, map<string, string>>, j: nat)
    requires j < |results|
    ensures |ConcatRecords(results, loci, aligned)[j].sequence| == SumLengths(Parts(aligned, loci, results[j].filename))
  {
    var parts := Parts(aligned, loci, results[j].filename);
    if |parts| > 0 {
      JoinLength(parts, "");
    }
  }

  /**
   * Read back, the concatenated alignment gives one record per genome, in
   * result order, whose sequence is that genome's aligned sequences in
   * scheme locus order, an empty part where a locus has none.
   */
  lemma ConcatenatedParsesBack(results: seq<MLSTResult>, scheme: SchemeData, mafft: string -> string)
    requires WellFormed(ConcatRecords(results, scheme.scheme.loci, AlignedPerLocus(results, scheme, mafft)))
    ensures var rs := FastaRecords(ConcatenatedFasta(results, scheme, mafft));
      var aligned := AlignedPerLocus(results, scheme, mafft);
      && |rs| == |results|
      && forall j :: 0 <= j < |results| ==>
           rs[j].name == results[j].filename
           && rs[j].sequence == Concat(Parts(aligned, scheme.scheme.loci, results[j].filename))
  {
    FormatThenParse(ConcatRecords(results, scheme.scheme.loci, AlignedPerLocus(results, scheme, mafft)));
  }

  // ----- The tree -----

  const TooFewGenomes := "Need at least 2 genomes to build a tree"

  /** The percentage reported before aligning locus `li` of `count`. */
  function LocusTreePct(li: nat, count: nat): real
    requires li < count
  {
    10.0 + (li as real / count as real) * 60.0
  }

  function LocusTreePcts(n: nat, count: nat): (r: seq<real>)
    requires n <= count
    ensures |r| == n && forall li :: 0 <= li < n ==> r[li] == LocusTreePct(li, count)
  {
    if n == 0 then [] else LocusTreePcts(n - 1, count) + [LocusTreePct(n - 1, count)]
  }

  /** The percentages `buildTree` reports, in order. */
  function TreePcts(count: nat): seq<real> {
    [0.0, 5.0] + LocusTreePcts(count, count) + [75.0, 80.0, 100.0]
  }

  lemma DivMono(x: real, y: real, c: real)
    requires 0.0 <= x <= y && c > 0.0
    ensures 0.0 <= x / c <= y / c
  {
  }

  /** The per-locus percentages rise with the locus index, within 10 to 70. */
  lemma LocusTreePctMono(a: nat, b: nat, count: nat)
    requires a <= b < count
    ensures 10.0 <= LocusTreePct(a, count) <= LocusTreePct(b, count) <= 70.0
  {
    var c := count as real;
    DivMono(a as real, b as real, c);
    DivMono(b as real, c, c);
  }

  /** The `k`-th reported percentage. */
  lemma TreePctAt(count: nat, k: nat)
    requires k < count + 5
    ensures var s := TreePcts(count);
      && (k == 0 ==> s[k] == 0.0)
      && (k == 1 ==> s[k] == 5.0)
      && (2 <= k < count + 2 ==> s[k] == LocusTreePct(k - 2, count))
      && (k == count + 2 ==> s[k] == 75.0)
      && (k == count + 3 ==> s[k] == 80.0)
      && (k == count + 4 ==> s[k] == 100.0)
  {
  }

  lemma TreePctPair(count: nat, i: nat, j: nat)
    requires i <= j < count + 5
    ensures 0.0 <= TreePcts(count)[i] <= TreePcts(count)[j] <= 100.0
  {
    TreePctAt(count, i);
    TreePctAt(count, j);
    if 2 <= i < count + 2 {
      LocusTreePctMono(i - 2, i - 2, count);
    }
    if 2 <= j < count + 2 {
      LocusTreePctMono(j - 2, j - 2, count);
    }
    if 2 <= i && j < count + 2 {
      LocusTreePctMono(i - 2, j - 2, count);
    }
  }

  /** The tree's progress never goes back and stays within 0 to 100. */
  lemma TreePctsOrdered(count: nat)
    ensures var s := TreePcts(count);
      forall i, j :: 0 <= i <= j < |s| ==> 0.0 <= s[i] <= s[j] <= 100.0
  {
    var s := TreePcts(count);
    forall i, j | 0 <= i <= j < |s|
      ensures 0.0 <= s[i] <= s[j] <= 100.0
    {
      TreePctPair(count, i, j);
    }
  }

  /** The loop building one locus's `inputLines`, joined. */
  method LocusInputText(locus: string, results: seq<MLSTResult>, fastas: map<string, string>,
                        medians: map<string, nat>) returns (inputFasta: string)
    ensures inputFasta == LocusInput(locus, results, fastas, medians)
  {
    ghost var recs := LocusRecords(locus, results, fastas, medians);
    var inputLines: seq<string> := [];
    for j := 0 to |results|
      invariant inputLines == RecordLines(recs[..j])
    {
      var s := SequenceForAllele(locus, Get(results[j].alleles, locus), fastas, medians);
      RecordLinesSnoc(recs[..j], recs[j]);
      assert recs[..j + 1] == recs[..j] + [recs[j]];
      inputLines := inputLines + [">" + results[j].filename, s];
    }
    assert recs[..|results|] == recs;
    inputFasta := Join(inputLines, "\n") + "\n";
  }

  /** The loop filling `alignedPerLocus[locus]` from the aligned records. */
  method AlignedByName(contigs: seq<Contig>) returns (byName: map<string, string>)
    ensures byName == AlignedMap(contigs)
  {
    byName := map[];
    for ci := 0 to |contigs|
      invariant byName == AlignedMap(contigs[..ci])
    {
      assert contigs[..ci + 1][..ci] == contigs[..ci];
      byName := byName[contigs[ci].name := contigs[ci].sequence];
    }
    assert contigs[..|contigs|] == contigs;
  }

  /** One locus of the per-locus loop: its input text, aligned by `mafft`, read back by name. */
  method AlignLocus(locus: string, results: seq<MLSTResult>, scheme: SchemeData, mafft: string -> string,
                    medians: map<string, nat>) returns (byName: map<string, string>)
    ensures byName == LocusAligned(locus, results, scheme.alleleFastas, medians, mafft)
  {
    var inputFasta := LocusInputText(locus, results, scheme.alleleFastas, medians);
    var alignedFasta := mafft(inputFasta);
    var alignedContigs := ParseFastaString(alignedFasta);
    byName := AlignedByName(alignedContigs);
  }

  lemma LocusTreePctsStep(li: nat, count: nat)
    requires li < count
    ensures LocusTreePcts(li, count) + [LocusTreePct(li, count)] == LocusTreePcts(li + 1, count)
  {
  }

  /** The per-locus loop of `buildTree`: align each locus's input; `pcts` are the percentages reported. */
  method AlignLoci(results: seq<MLSTResult>, scheme: SchemeData, mafft: string -> string, medians: map<string, nat>)
    returns (aligned: map<string, map<string, string>>, pcts: seq<real>)
    requires medians == MedianMap(scheme.scheme.loci, scheme.alleleFastas)
    ensures aligned == AlignedPerLocus(results, scheme, mafft)
    ensures pcts == LocusTreePcts(|scheme.scheme.loci|, |scheme.scheme.loci|)
  {
    var loci := scheme.scheme.loci;
    aligned := map[];
    pcts := [];
    for li := 0 to |loci|
      invariant aligned == AlignedOver(loci[..li], results, scheme.alleleFastas, medians, mafft)
      invariant pcts == LocusTreePcts(li, |loci|)
    {
      assert loci[..li + 1] == loci[..li] + [loci[li]];
      var locus := loci[li];
      LocusTreePctsStep(li, |loci|);
      pcts := pcts + [LocusTreePct(li, |loci|)];
      var byName := AlignLocus(locus, results, scheme, mafft, medians);
      AlignedOverStep(loci[..li], locus, results, scheme.alleleFastas, medians, mafft);
      aligned := aligned[locus := byName];
    }
    assert loci[..|loci|] == loci;
  }

  /** The inner loop of the concatenation: one genome's aligned part of each locus, in order. */
  method GenomeParts(aligned: map<string, map<string, string>>, loci: seq<string>, filename: string)
    returns (parts: seq<string>)
    ensures parts == Parts(aligned, loci, filename)
  {
    parts := [];
    for k := 0 to |loci|
      invariant parts == Parts(aligned, loci[..k], filename)
    {
      var part := if loci[k] in aligned && filename in aligned[loci[k]] then aligned[loci[k]][filename] else "";
      parts := parts + [part];
    }
    assert loci[..|loci|] == loci;
  }

  /** The concatenation loop of `buildTree`, joined. */
  method ConcatenateAlignments(results: seq<MLSTResult>, loci: seq<string>, aligned: map<string, map<string, string>>)
    returns (concatenatedFasta: string)
    ensures concatenatedFasta == FormatFasta(ConcatRecords(results, loci, aligned))
  {
    ghost var crecs := ConcatRecords(results, loci, aligned);
    var concatLines: seq<string> := [];
    for j := 0 to |results|
      invariant concatLines == RecordLines(crecs[..j])
    {
      var filename := results[j].filename;
      var parts := GenomeParts(aligned, loci, filename);
      RecordLinesSnoc(crecs[..j], crecs[j]);
      assert crecs[..j + 1] == crecs[..j] + [crecs[j]];
      concatLines := concatLines + [">" + filename, Concat(parts)];
    }
    assert crecs[..|results|] == crecs;
    concatenatedFasta := Join(concatLines, "\n") + "\n";
  }

  /**
   * `buildTree`: fewer than two results is an error, raised before anything
   * is reported; otherwise each locus's input is aligned by `mafft`, the
   * per-genome alignments are concatenated and `fasttree`'s trimmed output
   * is the tree. `pcts` are the percentages reported.
   */
  method BuildTree(results: seq<MLSTResult>, scheme: SchemeData, mafft: string -> string, fasttree: string -> string)
    returns (r: Result<string, string>, pcts: seq<real>)
    ensures |results| < 2 ==> r == Failure(TooFewGenomes) && pcts == []
    ensures |results| >= 2 ==>
      r == Success(Trim(Js, fasttree(ConcatenatedFasta(results, scheme, mafft))))
      && pcts == TreePcts(|scheme.scheme.loci|)
  {
    if |results| < 2 {
      return Failure(TooFewGenomes), [];
    }
    var loci := scheme.scheme.loci;
    pcts := [0.0, 5.0];
    var medianLengths := ComputeMedianLengths(loci, scheme.alleleFastas);
    assert medianLengths == MedianMap(loci, scheme.alleleFastas);
    var alignedPerLocus, locusPcts := AlignLoci(results, scheme, mafft, medianLengths);
    pcts := pcts + locusPcts + [75.0];
    var concatenatedFasta := ConcatenateAlignments(results, loci, alignedPerLocus);
    pcts := pcts + [80.0];
    var newick := fasttree(concatenatedFasta);
    pcts := pcts + [100.0];
    r := Success(Trim(Js, newick));
  }
}
