/**
 * The typing pipeline (src/mlst/align.ts): genomes are merged into one
 * record, the aligner's PAF output is parsed into hits, the hits are grouped
 * by locus prefix, each locus is called and the calls give the sequence
 * type. The aligner itself is a function parameter.
 */
module Align {
  import opened Wrappers
  import opened Text
  import opened Numbers
  import opened Types
  import opened ParseFasta
  import opened CallAllele
  import opened CallST

  // ----- Merging a genome's contigs -----

  const SpacerLength: nat := 100

  /** The run of N placed between two contigs. */
  function Spacer(): string {
    Repeat('N', SpacerLength)
  }

  function Sequences(contigs: seq<Contig>): (r: seq<string>)
    ensures |r| == |contigs| && forall i :: 0 <= i < |contigs| ==> r[i] == contigs[i].sequence
  {
    if contigs == [] then [] else [contigs[0].sequence] + Sequences(contigs[1..])
  }

  function MergedSequence(contigs: seq<Contig>): string {
    Join(Sequences(contigs), Spacer())
  }

  /** `mergeContigsToFasta`: one record named after the file. */
  function MergeContigsToFasta(filename: string, contigs: seq<Contig>): string {
    ">" + filename + "\n" + MergedSequence(contigs) + "\n"
  }

  /** The merged sequence is the contigs' total length plus 100 per gap between two contigs. */
  lemma MergedLength(contigs: seq<Contig>)
    requires contigs != []
    ensures |MergedSequence(contigs)| == SumLengths(Sequences(contigs)) + SpacerLength * (|contigs| - 1)
  {
    JoinLength(Sequences(contigs), Spacer());
  }

  /** The merged text is the one-record FASTA the writer produces. */
  lemma MergeIsOneRecord(filename: string, contigs: seq<Contig>)
    ensures MergeContigsToFasta(filename, contigs) == FormatFasta([Contig(filename, MergedSequence(contigs))])
  {
    var rs := [Contig(filename, MergedSequence(contigs))];
    assert rs[1..] == [];
    var lines := [">" + filename, MergedSequence(contigs)];
    assert RecordLines(rs) == lines;
    assert lines[1..] == [MergedSequence(contigs)];
    assert Join(lines, "\n") == ">" + filename + "\n" + MergedSequence(contigs);
  }

  /** A given contig sequence the merge keeps readable: no whitespace, lower case or '>'. */
  predicate PlainSequence(s: string) {
    NoSpace(Js, s) && NoLower(s) && '>' !in s
  }

  lemma MergedIsPlain(contigs: seq<Contig>)
    requires forall i :: 0 <= i < |contigs| ==> PlainSequence(contigs[i].sequence)
    ensures PlainSequence(MergedSequence(contigs))
  {
    var parts := Sequences(contigs);
    var m := MergedSequence(contigs);
    forall k | 0 <= k < |m|
      ensures !IsJsSpace(m[k]) && !IsLowerAscii(m[k]) && m[k] != '>'
    {
      JoinChars(parts, Spacer(), k);
      if m[k] !in Spacer() {
        var i, j :| 0 <= i < |parts| && 0 <= j < |parts[i]| && parts[i][j] == m[k];
        assert parts[i] == contigs[i].sequence;
      }
    }
  }

  /**
   * Reading the merged genome back gives one record, named after the file,
   * holding the merged sequence.
   */
  lemma MergeRoundTrip(filename: string, contigs: seq<Contig>)
    requires IsRecordName(filename)
    requires forall i :: 0 <= i < |contigs| ==> PlainSequence(contigs[i].sequence)
    ensures FastaRecords(MergeContigsToFasta(filename, contigs)) == [Contig(filename, MergedSequence(contigs))]
  {
    MergedIsPlain(contigs);
    var m := MergedSequence(contigs);
    assert !StartsWith(m, ">") by {
      if |m| >= 1 {
        assert m[..1] == [m[0]];
      }
    }
    MergeIsOneRecord(filename, contigs);
    FormatThenParse([Contig(filename, MergedSequence(contigs))]);
  }

  // ----- PAF parsing -----

  /** `parseInt(field, 10)` as a number: NaN when it does not parse. */
  function JsInt(s: string): Number {
    match ParseIntJs(s)
    case Some(v) => FromInt(v)
    case None => NaN
  }

  /**
   * The hit of a line's tab-separated fields, once the match count `nMatch`
   * (column 9) and the block length `blockLen` (column 10) have parsed.
   */
  function HitOf(fields: seq<string>, nMatch: int, blockLen: int): AlignmentHit
    requires |fields| >= 12 && blockLen != 0
  {
    AlignmentHit(
      queryName := fields[5],
      targetName := fields[0],
      identity := Mul(Div(FromInt(nMatch), FromInt(blockLen)), Num(100.0)),
      alignmentLength := Sub(JsInt(fields[3]), JsInt(fields[2])),
      queryStart := JsInt(fields[7]),
      queryEnd := JsInt(fields[8]),
      targetStart := JsInt(fields[2]),
      targetEnd := JsInt(fields[3]),
      targetLength := JsInt(fields[1]))
  }

  /** The hit of a line's fields, or None when the line is skipped. */
  function FieldsHit(fields: seq<string>): Option<AlignmentHit> {
    if |fields| < 12 then None
    else
      var nMatch := ParseIntJs(fields[9]);
      var blockLen := ParseIntJs(fields[10]);
      if nMatch.None? || blockLen.None? || blockLen.value == 0 then None
      else Some(HitOf(fields, nMatch.value, blockLen.value))
  }

  /** The hit a PAF line gives, or None when the parse loop skips the line. */
  function PafLine(line: string): Option<AlignmentHit> {
    if line == "" then None else FieldsHit(Split(line, '\t'))
  }

  /** The hit of one line, as a sequence of none or one. */
  function LineHits(line: string): seq<AlignmentHit> {
    match PafLine(line)
    case Some(h) => [h]
    case None => []
  }

  /** The hits of the lines, in order. */
  function PafHits(lines: seq<string>): seq<AlignmentHit> {
    if lines == [] then [] else LineHits(lines[0]) + PafHits(lines[1..])
  }

  function PafLines(pafText: string): seq<string> {
    Split(Trim(Js, pafText), '\n')
  }

  /** What `parsePAF(pafText)` returns. */
  function ParsedPaf(pafText: string): seq<AlignmentHit> {
    PafHits(PafLines(pafText))
  }

  /** A step of the parse loop over a line that gives no hit. */
  lemma SkipLine(hits: seq<AlignmentHit>, lines: seq<string>, i: nat, all: seq<AlignmentHit>)
    requires i < |lines| && PafLine(lines[i]).None?
    requires hits + PafHits(lines[i..]) == all
    ensures hits + PafHits(lines[i + 1..]) == all
  {
    assert lines[i..][0] == lines[i] && lines[i..][1..] == lines[i + 1..];
    assert LineHits(lines[i]) == [];
    assert PafHits(lines[i..]) == LineHits(lines[i]) + PafHits(lines[i + 1..]);
    assert [] + PafHits(lines[i + 1..]) == PafHits(lines[i + 1..]);
  }

  /** A step of the parse loop over a line that gives `hit`. */
  lemma TakeLine(hits: seq<AlignmentHit>, lines: seq<string>, i: nat, all: seq<AlignmentHit>, hit: AlignmentHit)
    requires i < |lines| && PafLine(lines[i]) == Some(hit)
    requires hits + PafHits(lines[i..]) == all
    ensures (hits + [hit]) + PafHits(lines[i + 1..]) == all
  {
    assert lines[i..][0] == lines[i] && lines[i..][1..] == lines[i + 1..];
  }

  /** `parsePAF`, with the source's loop and its three skips. */
  method ParsePAF(pafText: string) returns (hits: seq<AlignmentHit>)
    ensures hits == ParsedPaf(pafText)
  {
    hits := [];
    var lines := PafLines(pafText);
    for i := 0 to |lines|
      invariant hits + PafHits(lines[i..]) == ParsedPaf(pafText)
    {
      var line := lines[i];
      if line == "" {
        SkipLine(hits, lines, i, ParsedPaf(pafText));
        continue;
      }
      var fields := Split(line, '\t');
      if |fields| < 12 {
        SkipLine(hits, lines, i, ParsedPaf(pafText));
        continue;
      }
      var qName := fields[0];
      var qLen := JsInt(fields[1]);
      var qStart := JsInt(fields[2]);
      var qEnd := JsInt(fields[3]);
      var tName := fields[5];
      var tStart := JsInt(fields[7]);
      var tEnd := JsInt(fields[8]);
      var nMatch := ParseIntJs(fields[9]);
      var blockLen := ParseIntJs(fields[10]);
      if nMatch.None? || blockLen.None? || blockLen.value == 0 {
        SkipLine(hits, lines, i, ParsedPaf(pafText));
        continue;
      }
      var identity := Mul(Div(FromInt(nMatch.value), FromInt(blockLen.value)), Num(100.0));
      var hit := AlignmentHit(
        queryName := tName,
        targetName := qName,
        identity := identity,
        alignmentLength := Sub(qEnd, qStart),
        queryStart := tStart,
        queryEnd := tEnd,
        targetStart := qStart,
        targetEnd := qEnd,
        targetLength := qLen);
      assert hit == HitOf(fields, nMatch.value, blockLen.value);
      TakeLine(hits, lines, i, ParsedPaf(pafText), hit);
      hits := hits + [hit];
    }
    assert lines[|lines|..] == [];
  }

  /**
   * A line gives a hit exactly when it has at least 12 tab-separated fields
   * and the match and block-length columns parse with a non-zero block
   * length (an empty line has one field, so it never does).
   */
  lemma PafLineAccepted(line: string)
    ensures var fields := Split(line, '\t');
      PafLine(line).Some? <==>
        |fields| >= 12 && ParseIntJs(fields[9]).Some? && ParseIntJs(fields[10]).Some?
        && ParseIntJs(fields[10]).value != 0
  {
    if line == "" {
      assert '\t' !in line;
    }
  }

  /** The identity of a hit is the percentage of matching bases in its block. */
  lemma IdentityIsPercentage(fields: seq<string>, n: int, b: int)
    requires |fields| >= 12 && b != 0
    ensures var h := HitOf(fields, n, b);
      h.identity.Num? && h.identity.value * (b as real) == 100.0 * (n as real)
  {
    var q := n as real / b as real;
    assert q * (b as real) == n as real;
    assert (q * 100.0) * (b as real) == 100.0 * (q * (b as real));
  }

  /**
   * An accepted line's hit takes the allele name from column 0, the genome
   * from column 5, the allele length from column 1 and the allele span from
   * columns 2 and 3; the identity comes from the match count and block
   * length of columns 9 and 10 (see `IdentityIsPercentage`).
   */
  lemma FieldsHitContents(fields: seq<string>) returns (n: int, b: int)
    requires FieldsHit(fields).Some?
    ensures |fields| >= 12 && ParseIntJs(fields[9]) == Some(n) && ParseIntJs(fields[10]) == Some(b) && b != 0
    ensures FieldsHit(fields).value.targetName == fields[0]
    ensures FieldsHit(fields).value.queryName == fields[5]
    ensures FieldsHit(fields).value.targetLength == JsInt(fields[1])
    ensures FieldsHit(fields).value.alignmentLength == Sub(JsInt(fields[3]), JsInt(fields[2]))
    ensures FieldsHit(fields) == Some(HitOf(fields, n, b))
  {
    n := ParseIntJs(fields[9]).value;
    b := ParseIntJs(fields[10]).value;
  }

  /** A block whose bases all match has identity 100; none matching, 0. */
  lemma IdentityBounds(fields: seq<string>, n: int, b: int)
    requires |fields| >= 12 && 0 <= n <= b && b != 0
    ensures var h := HitOf(fields, n, b);
      h.identity.Num? && 0.0 <= h.identity.value <= 100.0
      && (h.identity.value == 100.0 <==> n == b)
  {
    var r := n as real / b as real;
    assert 0.0 <= r <= 1.0;
    assert r == 1.0 <==> n == b;
  }
  /** Columns after the twelfth (the optional tags) do not change the hit. */
  lemma ExtraColumnsIgnored(fields: seq<string>, extra: seq<string>)
    requires |fields| == 12
    requires forall i :: 0 <= i < |fields| ==> '\t' !in fields[i]
    requires forall i :: 0 <= i < |extra| ==> '\t' !in extra[i]
    ensures PafLine(Join(fields + extra, "\t")) == PafLine(Join(fields, "\t"))
  {
    var all := fields + extra;
    assert forall i :: 0 <= i < |all| ==> '\t' !in all[i] by {
      forall i | 0 <= i < |all|
        ensures '\t' !in all[i]
      {
        if i < |fields| {
          assert all[i] == fields[i];
        } else {
          assert all[i] == extra[i - |fields|];
        }
      }
    }
    assert all[..12] == fields;
    JoinedFields(all);
    JoinedFields(fields);
    FieldsHitPrefix(all, fields);
  }

  /** A line joined from at least twelve tab-free fields gives the hit of those fields. */
  lemma JoinedFields(fs: seq<string>)
    requires |fs| >= 12
    requires forall i :: 0 <= i < |fs| ==> '\t' !in fs[i]
    ensures PafLine(Join(fs, "\t")) == FieldsHit(fs)
  {
    SplitJoin(fs, '\t');
    assert Join(fs, "\t") != "" by {
      assert Split(Join(fs, "\t"), '\t') == fs;
    }
  }

  /** The hit of a line's fields depends on its first twelve fields only. */
  lemma FieldsHitPrefix(all: seq<string>, fields: seq<string>)
    requires |fields| == 12 && |all| >= 12 && all[..12] == fields
    ensures FieldsHit(all) == FieldsHit(fields)
  {
    assert forall i :: 0 <= i < 12 ==> all[i] == fields[i];
  }

  lemma {:induction false} PafHitsAppend(a: seq<string>, b: seq<string>)
    ensures PafHits(a + b) == PafHits(a) + PafHits(b)
  {
    if a == [] {
      assert a + b == b;
    } else {
      assert (a + b)[0] == a[0] && (a + b)[1..] == a[1..] + b;
      PafHitsAppend(a[1..], b);
    }
  }

  /** At most one hit per line, and every hit is the hit of one of the lines. */
  lemma {:induction false} PafHitsFromLines(lines: seq<string>)
    ensures |PafHits(lines)| <= |lines|
    ensures forall h :: h in PafHits(lines) ==> exists j :: 0 <= j < |lines| && PafLine(lines[j]) == Some(h)
  {
    if lines != [] {
      PafHitsFromLines(lines[1..]);
      forall h | h in PafHits(lines)
        ensures exists j :: 0 <= j < |lines| && PafLine(lines[j]) == Some(h)
      {
        if h !in PafHits(lines[1..]) {
          assert PafLine(lines[0]) == Some(h);
        } else {
          var j :| 0 <= j < |lines[1..]| && PafLine(lines[1..][j]) == Some(h);
          assert lines[1..][j] == lines[j + 1];
        }
      }
    }
  }

  /** Empty or whitespace-only aligner output gives no hit. */
  lemma EmptyPafNoHits(pafText: string)
    requires AllSpace(Js, pafText)
    ensures ParsedPaf(pafText) == []
  {
    TrimAllSpace(Js, pafText);
    assert PafLines(pafText) == [""];
  }

  // ----- Grouping hits by locus -----

  /** The hits whose allele name starts with `locus` followed by '_', in order. */
  function LocusHits(hits: seq<AlignmentHit>, locus: string): (r: seq<AlignmentHit>)
    ensures |r| <= |hits|
    ensures forall h :: h in r <==> h in hits && StartsWith(h.targetName, locus + "_")
  {
    if hits == [] then []
    else (if StartsWith(hits[0].targetName, locus + "_") then [hits[0]] else []) + LocusHits(hits[1..], locus)
  }

  lemma {:induction false} LocusHitsAppend(a: seq<AlignmentHit>, b: seq<AlignmentHit>, locus: string)
    ensures LocusHits(a + b, locus) == LocusHits(a, locus) + LocusHits(b, locus)
  {
    if a == [] {
      assert a + b == b;
    } else {
      assert (a + b)[0] == a[0] && (a + b)[1..] == a[1..] + b;
      LocusHitsAppend(a[1..], b, locus);
    }
  }

  /**
   * The prefix test does not stop at the locus name: the hits of a locus
   * named "a_b" are also hits of a locus named "a".
   */
  lemma LocusPrefixOverlap(hit: AlignmentHit)
    requires hit.targetName == "a_b_1"
    ensures LocusHits([hit], "a") == [hit] && LocusHits([hit], "a_b") == [hit]
  {
    assert "a_b_1"[..2] == "a_";
    assert "a_b_1"[..4] == "a_b_";
    assert [hit][1..] == [];
  }

  // ----- The allele catalogue -----

  /** The FASTA texts of the loci that have a non-empty one, in locus order. */
  function PresentFastas(loci: seq<string>, fastas: map<string, string>): seq<string>
    decreases |loci|
  {
    if loci == [] then []
    else
      var f := Get(fastas, loci[|loci| - 1]);
      PresentFastas(loci[..|loci| - 1], fastas) + (if Truthy(f) then [f.value] else [])
  }

  /** The alleles text given to the aligner: the present FASTA texts joined by '\n'. */
  function AllAllelesFasta(loci: seq<string>, fastas: map<string, string>): string {
    Join(PresentFastas(loci, fastas), "\n")
  }

  /** The allele records of the present loci, in order. */
  function CatalogueRecords(loci: seq<string>, fastas: map<string, string>): seq<Contig> {
    if loci == [] then []
    else
      var f := Get(fastas, loci[0]);
      (if Truthy(f) then FastaRecords(f.value) else []) + CatalogueRecords(loci[1..], fastas)
  }

  /** `m`, then `lengths[c.name] = c.sequence.length` for each record in order. */
  function LengthMap(m: map<string, nat>, rs: seq<Contig>): map<string, nat>
    decreases |rs|
  {
    if rs == [] then m else LengthMap(m[rs[0].name := |rs[0].sequence|], rs[1..])
  }

  /** The allele length map `runMLST` builds. */
  function AlleleLengths(loci: seq<string>, fastas: map<string, string>): map<string, nat> {
    LengthMap(map[], CatalogueRecords(loci, fastas))
  }

  lemma {:induction false} LengthMapAppend(m: map<string, nat>, a: seq<Contig>, b: seq<Contig>)
    ensures LengthMap(m, a + b) == LengthMap(LengthMap(m, a), b)
    decreases |a|
  {
    if a == [] {
      assert a + b == b;
    } else {
      assert (a + b)[0] == a[0] && (a + b)[1..] == a[1..] + b;
      LengthMapAppend(m[a[0].name := |a[0].sequence|], a[1..], b);
    }
  }

  /** The inner loop of `runMLST`: one locus's allele lengths, later records overwriting. */
  method RecordLengths(m: map<string, nat>, contigs: seq<Contig>) returns (lengths: map<string, nat>)
    ensures lengths == LengthMap(m, contigs)
  {
    lengths := m;
    for ci := 0 to |contigs|
      invariant LengthMap(lengths, contigs[ci..]) == LengthMap(m, contigs)
    {
      assert contigs[ci..][0] == contigs[ci] && contigs[ci..][1..] == contigs[ci + 1..];
      lengths := lengths[contigs[ci].name := |contigs[ci].sequence|];
    }
    assert contigs[|contigs|..] == [];
  }

  /** The catalogue records from locus `li` on: that locus's records, then the rest. */
  lemma CatalogueRecordsAt(loci: seq<string>, fastas: map<string, string>, li: nat)
    requires li < |loci|
    ensures var f := Get(fastas, loci[li]);
      CatalogueRecords(loci[li..], fastas)
        == (if Truthy(f) then FastaRecords(f.value) else []) + CatalogueRecords(loci[li + 1..], fastas)
  {
    assert loci[li..][0] == loci[li] && loci[li..][1..] == loci[li + 1..];
  }

  /** The present FASTA texts up to locus `li` inclusive. */
  lemma PresentFastasAt(loci: seq<string>, fastas: map<string, string>, li: nat)
    requires li < |loci|
    ensures var f := Get(fastas, loci[li]);
      PresentFastas(loci[..li + 1], fastas) == PresentFastas(loci[..li], fastas) + (if Truthy(f) then [f.value] else [])
  {
    assert loci[..li + 1][..li] == loci[..li] && loci[..li + 1][li] == loci[li];
  }

  /** The alleles text and the length map of `runMLST`, with its two loops. */
  method AlleleCatalogue(scheme: SchemeData) returns (allelesFasta: string, lengths: map<string, nat>)
    ensures allelesFasta == AllAllelesFasta(scheme.scheme.loci, scheme.alleleFastas)
    ensures lengths == AlleleLengths(scheme.scheme.loci, scheme.alleleFastas)
  {
    var loci := scheme.scheme.loci;
    var fastas := scheme.alleleFastas;
    var chunks: seq<string> := [];
    lengths := map[];
    for li := 0 to |loci|
      invariant chunks == PresentFastas(loci[..li], fastas)
      invariant LengthMap(lengths, CatalogueRecords(loci[li..], fastas)) == AlleleLengths(loci, fastas)
    {
      var locusFasta := Get(fastas, loci[li]);
      PresentFastasAt(loci, fastas, li);
      CatalogueRecordsAt(loci, fastas, li);
      ghost var later := CatalogueRecords(loci[li + 1..], fastas);
      if !Truthy(locusFasta) {
        assert [] + later == later;
        assert chunks + [] == chunks;
        continue;
      }
      chunks := chunks + [locusFasta.value];
      var contigs := ParseFastaString(locusFasta.value);
      LengthMapAppend(lengths, contigs, later);
      lengths := RecordLengths(lengths, contigs);
    }
    assert loci[..|loci|] == loci;
    allelesFasta := Join(chunks, "\n");
  }

  lemma {:induction false} LengthMapKeys(m: map<string, nat>, rs: seq<Contig>)
    ensures forall k :: k in LengthMap(m, rs) <==> k in m || exists i :: 0 <= i < |rs| && rs[i].name == k
    decreases |rs|
  {
    if rs != [] {
      LengthMapKeys(m[rs[0].name := |rs[0].sequence|], rs[1..]);
      assert forall i :: 1 <= i < |rs| ==> rs[i] == rs[1..][i - 1];
    }
  }

  lemma {:induction false} LengthMapUntouched(m: map<string, nat>, rs: seq<Contig>, k: string)
    requires k in m
    requires forall i :: 0 <= i < |rs| ==> rs[i].name != k
    ensures k in LengthMap(m, rs) && LengthMap(m, rs)[k] == m[k]
    decreases |rs|
  {
    if rs != [] {
      assert forall i :: 0 <= i < |rs[1..]| ==> rs[1..][i] == rs[i + 1];
      LengthMapUntouched(m[rs[0].name := |rs[0].sequence|], rs[1..], k);
    }
  }

  /** A name maps to the length of the last record with that name. */
  lemma {:induction false} LengthMapLastWins(m: map<string, nat>, rs: seq<Contig>, i: nat)
    requires i < |rs|
    requires forall j :: i < j < |rs| ==> rs[j].name != rs[i].name
    ensures rs[i].name in LengthMap(m, rs) && LengthMap(m, rs)[rs[i].name] == |rs[i].sequence|
    decreases |rs|
  {
    assert forall j :: 0 <= j < |rs[1..]| ==> rs[1..][j] == rs[j + 1];
    if i == 0 {
      LengthMapUntouched(m[rs[0].name := |rs[0].sequence|], rs[1..], rs[0].name);
    } else {
      LengthMapLastWins(m[rs[0].name := |rs[0].sequence|], rs[1..], i - 1);
    }
  }

  /**
   * The length map has a key for every allele record of the present loci
   * and no other, and maps it to the length of the last record of that name.
   */
  lemma AlleleLengthsContents(loci: seq<string>, fastas: map<string, string>)
    ensures var rs := CatalogueRecords(loci, fastas);
      && (forall k :: k in AlleleLengths(loci, fastas) <==> exists i :: 0 <= i < |rs| && rs[i].name == k)
      && (forall i :: 0 <= i < |rs| && (forall j :: i < j < |rs| ==> rs[j].name != rs[i].name) ==>
            rs[i].name in AlleleLengths(loci, fastas) && AlleleLengths(loci, fastas)[rs[i].name] == |rs[i].sequence|)
  {
    LengthMapContents(CatalogueRecords(loci, fastas));
  }

  /** From the empty map: the names of the records, each with the length of its last record. */
  lemma LengthMapContents(rs: seq<Contig>)
    ensures var lm := LengthMap(map[], rs);
      && (forall k :: k in lm <==> exists i :: 0 <= i < |rs| && rs[i].name == k)
      && (forall i :: 0 <= i < |rs| && (forall j :: i < j < |rs| ==> rs[j].name != rs[i].name) ==>
            rs[i].name in lm && lm[rs[i].name] == |rs[i].sequence|)
  {
    var empty: map<string, nat> := map[];
    var lm := LengthMap(empty, rs);
    assert forall k :: k in lm <==> exists i :: 0 <= i < |rs| && rs[i].name == k by {
      LengthMapKeys(empty, rs);
      assert forall k :: k !in empty;
    }
    forall i | 0 <= i < |rs| && (forall j :: i < j < |rs| ==> rs[j].name != rs[i].name)
      ensures rs[i].name in lm && lm[rs[i].name] == |rs[i].sequence|
    {
      LengthMapLastWins(empty, rs, i);
    }
  }

  // ----- Progress -----

  /** The percentage reported before locus `li` (0-based) of `count`. */
  function LocusPct(li: nat, count: nat): real
    requires li < count
  {
    ((li + 1) as real / count as real) * 100.0
  }

  /** The percentages `analyzeFile` reports, in order: 0, one per locus, 100. */
  function FilePcts(count: nat): seq<real> {
    [0.0] + LocusPcts(count, count) + [100.0]
  }

  /** The percentages reported before the first `n` loci of `count`. */
  function LocusPcts(n: nat, count: nat): (r: seq<real>)
    requires n <= count
    ensures |r| == n && forall li :: 0 <= li < n ==> r[li] == LocusPct(li, count)
  {
    if n == 0 then [] else LocusPcts(n - 1, count) + [LocusPct(n - 1, count)]
  }

  /** `((i + pct / 100) / files.length) * 100`: file `i`'s percentage as a share of the run. */
  function OverallPct(i: nat, n: nat, pct: real): real
    requires n > 0
  {
    ((i as real + pct / 100.0) / n as real) * 100.0
  }

  function Scaled(i: nat, n: nat, pcts: seq<real>): seq<real>
    requires n > 0
  {
    seq(|pcts|, k requires 0 <= k < |pcts| => OverallPct(i, n, pcts[k]))
  }

  /** The percentages reported for files `i` to `n - 1`. */
  function FileBlocks(i: nat, n: nat, count: nat): seq<real>
    decreases n - i
  {
    if i >= n then [] else Scaled(i, n, FilePcts(count)) + FileBlocks(i + 1, n, count)
  }

  /** The percentages `runMLST` reports, in order. */
  function RunPcts(n: nat, count: nat): seq<real> {
    [0.0] + FileBlocks(0, n, count) + [100.0]
  }

  predicate Nondecreasing(s: seq<real>) {
    forall i, j :: 0 <= i <= j < |s| ==> s[i] <= s[j]
  }

  predicate Within(s: seq<real>, lo: real, hi: real) {
    forall i :: 0 <= i < |s| ==> lo <= s[i] <= hi
  }

  lemma LocusPctOrder(li: nat, lj: nat, count: nat)
    requires li <= lj < count
    ensures 0.0 < LocusPct(li, count) <= LocusPct(lj, count) <= 100.0
  {
    var c := count as real;
    assert (li + 1) as real <= (lj + 1) as real <= c;
    assert (li + 1) as real / c <= (lj + 1) as real / c;
    assert (lj + 1) as real / c <= 1.0;
  }

  /** `analyzeFile`'s percentages never decrease and stay within 0 to 100. */
  lemma FilePctsOrdered(count: nat)
    ensures Nondecreasing(FilePcts(count)) && Within(FilePcts(count), 0.0, 100.0)
  {
    var s := FilePcts(count);
    assert forall i :: 0 < i <= count ==> s[i] == LocusPct(i - 1, count);
    forall i | 0 <= i < |s|
      ensures 0.0 <= s[i] <= 100.0
    {
      if 0 < i <= count {
        LocusPctOrder(i - 1, i - 1, count);
      }
    }
    forall i, j | 0 <= i <= j < |s|
      ensures s[i] <= s[j]
    {
      if 0 < i <= j <= count {
        LocusPctOrder(i - 1, j - 1, count);
      } else if i == 0 && 0 < j <= count {
        LocusPctOrder(j - 1, j - 1, count);
      } else if 0 < i <= count && j == count + 1 {
        LocusPctOrder(i - 1, i - 1, count);
      }
    }
  }

  /** Scaling keeps the order and maps 0..100 onto file `i`'s share. */
  lemma OverallPctOrder(i: nat, n: nat, p: real, q: real)
    requires i < n && 0.0 <= p <= q <= 100.0
    ensures (i as real / n as real) * 100.0 <= OverallPct(i, n, p) <= OverallPct(i, n, q)
    ensures OverallPct(i, n, q) <= ((i + 1) as real / n as real) * 100.0
  {
    var r := n as real;
    assert i as real <= i as real + p / 100.0 <= i as real + q / 100.0 <= (i + 1) as real;
    assert i as real / r <= (i as real + p / 100.0) / r;
    assert (i as real + p / 100.0) / r <= (i as real + q / 100.0) / r;
    assert (i as real + q / 100.0) / r <= (i + 1) as real / r;
  }

  lemma ScaledOrdered(i: nat, n: nat, count: nat)
    requires i < n
    ensures var s := Scaled(i, n, FilePcts(count));
      Nondecreasing(s) && Within(s, (i as real / n as real) * 100.0, ((i + 1) as real / n as real) * 100.0)
  {
    var f := FilePcts(count);
    FilePctsOrdered(count);
    var s := Scaled(i, n, f);
    forall a, b | 0 <= a <= b < |s|
      ensures s[a] <= s[b]
    {
      OverallPctOrder(i, n, f[a], f[b]);
    }
    forall a | 0 <= a < |s|
      ensures (i as real / n as real) * 100.0 <= s[a] <= ((i + 1) as real / n as real) * 100.0
    {
      OverallPctOrder(i, n, f[a], f[a]);
    }
  }

  lemma ConcatOrdered(a: seq<real>, b: seq<real>, lo: real, mid: real, hi: real)
    requires lo <= mid <= hi
    requires Nondecreasing(a) && Within(a, lo, mid)
    requires Nondecreasing(b) && Within(b, mid, hi)
    ensures Nondecreasing(a + b) && Within(a + b, lo, hi)
  {
    var s := a + b;
    forall i, j | 0 <= i <= j < |s|
      ensures s[i] <= s[j]
    {
      if j < |a| {
        assert s[i] == a[i] && s[j] == a[j];
      } else if i >= |a| {
        assert s[i] == b[i - |a|] && s[j] == b[j - |a|];
      } else {
        assert s[i] == a[i] && s[j] == b[j - |a|];
      }
    }
    forall i | 0 <= i < |s|
      ensures lo <= s[i] <= hi
    {
      if i < |a| {
        assert s[i] == a[i];
      } else {
        assert s[i] == b[i - |a|];
      }
    }
  }

  lemma {:induction false} FileBlocksOrdered(i: nat, n: nat, count: nat)
    requires i <= n && n > 0
    ensures Nondecreasing(FileBlocks(i, n, count))
    ensures Within(FileBlocks(i, n, count), (i as real / n as real) * 100.0, 100.0)
    decreases n - i
  {
    if i < n {
      ScaledOrdered(i, n, count);
      FileBlocksOrdered(i + 1, n, count);
      var r := n as real;
      assert (i as real / r) * 100.0 <= ((i + 1) as real / r) * 100.0 <= 100.0 by {
        assert i as real / r <= (i + 1) as real / r;
        assert (i + 1) as real <= r;
      }
      ConcatOrdered(Scaled(i, n, FilePcts(count)), FileBlocks(i + 1, n, count),
        (i as real / r) * 100.0, ((i + 1) as real / r) * 100.0, 100.0);
    }
  }

  /** The run's progress never goes back and stays within 0 to 100, from 0 to 100. */
  lemma RunProgressOrdered(n: nat, count: nat)
    ensures var s := RunPcts(n, count);
      Nondecreasing(s) && Within(s, 0.0, 100.0) && s[0] == 0.0 && s[|s| - 1] == 100.0
  {
    if n > 0 {
      FileBlocksOrdered(0, n, count);
      ConcatOrdered([0.0], FileBlocks(0, n, count), 0.0, 0.0, 100.0);
      ConcatOrdered([0.0] + FileBlocks(0, n, count), [100.0], 0.0, 100.0, 100.0);
    } else {
      assert RunPcts(n, count) == [0.0, 100.0];
    }
  }

  // ----- One genome and the whole run -----

  /** The result of one locus: the call on the hits with its prefix. */
  function LocusCall(locus: string, hits: seq<AlignmentHit>, lengths: map<string, nat>): LocusResult {
    CallAlleleSpec(locus, LocusHits(hits, locus), lengths)
  }

  /** The locus results of `analyzeFile`, one per locus in scheme order. */
  function LocusCalls(loci: seq<string>, hits: seq<AlignmentHit>, lengths: map<string, nat>): (r: seq<LocusResult>)
    ensures |r| == |loci|
  {
    if loci == [] then [] else [LocusCall(loci[0], hits, lengths)] + LocusCalls(loci[1..], hits, lengths)
  }

  lemma {:induction false} LocusCallsAt(loci: seq<string>, hits: seq<AlignmentHit>, lengths: map<string, nat>, li: nat)
    requires li < |loci|
    ensures LocusCalls(loci, hits, lengths)[li] == LocusCall(loci[li], hits, lengths)
    ensures LocusCalls(loci, hits, lengths)[li].locus == loci[li]
  {
    var r := LocusCalls(loci, hits, lengths);
    if li > 0 {
      LocusCallsAt(loci[1..], hits, lengths, li - 1);
      assert loci[1..][li - 1] == loci[li];
      assert r[li] == LocusCalls(loci[1..], hits, lengths)[li - 1];
    } else {
      assert r[0] == LocusCall(loci[0], hits, lengths);
      assert r[0].locus == loci[0] by {
        var hs := LocusHits(hits, loci[0]);
        if |hs| > 0 {
          assert Classify(loci[0], SelectBest(Initial, hs, lengths)).locus == loci[0];
        }
      }
    }
  }

  lemma LocusCallsStep(acc: seq<LocusResult>, loci: seq<string>, li: nat, hits: seq<AlignmentHit>,
                       lengths: map<string, nat>, all: seq<LocusResult>)
    requires li < |loci|
    requires acc + LocusCalls(loci[li..], hits, lengths) == all
    ensures (acc + [LocusCall(loci[li], hits, lengths)]) + LocusCalls(loci[li + 1..], hits, lengths) == all
  {
    assert loci[li..][0] == loci[li] && loci[li..][1..] == loci[li + 1..];
  }

  /** The percentages `analyzeFile` has reported before locus `n`. */
  function ReportedBefore(n: nat, count: nat): seq<real>
    requires n <= count
  {
    [0.0] + LocusPcts(n, count)
  }

  lemma LocusPctsStep(li: nat, count: nat)
    requires li < count
    ensures ReportedBefore(li, count) + [LocusPct(li, count)] == ReportedBefore(li + 1, count)
  {
  }

  lemma LocusPctsDone(count: nat)
    ensures ReportedBefore(count, count) + [100.0] == FilePcts(count)
  {
  }

  /** The call `analyzeFile` makes for one locus: its hits by name prefix, then `callAllele`. */
  method CallLocus(locus: string, allHits: seq<AlignmentHit>, lengths: map<string, nat>) returns (lr: LocusResult)
    ensures lr == LocusCall(locus, allHits, lengths)
  {
    var locusHits := LocusHits(allHits, locus);
    lr := CallAllele.CallAllele(locus, locusHits, lengths);
  }

  /** What `analyzeFile` returns, given the aligner's output for the genome. */
  function AnalysisOf(fasta: ParsedFasta, scheme: SchemeData, pafText: string, lengths: map<string, nat>): MLSTResult {
    CallSTSpec(fasta.filename, scheme.scheme.name,
      LocusCalls(scheme.scheme.loci, ParsedPaf(pafText), lengths), scheme.profiles)
  }

  /**
   * `loci.map(...)` in `analyzeFile`: report the progress before each
   * locus, then call it from the hits that carry its prefix.
   */
  method CallLoci(loci: seq<string>, allHits: seq<AlignmentHit>, lengths: map<string, nat>)
    returns (locusResults: seq<LocusResult>, pcts: seq<real>)
    ensures locusResults == LocusCalls(loci, allHits, lengths)
    ensures pcts == ReportedBefore(|loci|, |loci|)
  {
    pcts := [0.0];
    locusResults := [];
    for li := 0 to |loci|
      invariant locusResults + LocusCalls(loci[li..], allHits, lengths) == LocusCalls(loci, allHits, lengths)
      invariant pcts == ReportedBefore(li, |loci|)
    {
      LocusPctsStep(li, |loci|);
      pcts := pcts + [LocusPct(li, |loci|)];
      var lr := CallLocus(loci[li], allHits, lengths);
      LocusCallsStep(locusResults, loci, li, allHits, lengths, LocusCalls(loci, allHits, lengths));
      locusResults := locusResults + [lr];
    }
    assert loci[|loci|..] == [];
    assert locusResults + [] == locusResults;
  }

  /**
   * `analyzeFile`: parse the aligner's output, call each locus on the hits
   * with its prefix, call the type; `pcts` are the percentages reported.
   */
  method AnalyzeFile(fasta: ParsedFasta, scheme: SchemeData, pafText: string, lengths: map<string, nat>)
    returns (result: MLSTResult, pcts: seq<real>)
    ensures result == AnalysisOf(fasta, scheme, pafText, lengths)
    ensures pcts == FilePcts(|scheme.scheme.loci|)
  {
    var allHits := ParsePAF(pafText);
    var locusResults;
    locusResults, pcts := CallLoci(scheme.scheme.loci, allHits, lengths);
    LocusPctsDone(|scheme.scheme.loci|);
    pcts := pcts + [100.0];
    result := CallST.CallST(fasta.filename, scheme.scheme.name, locusResults, scheme.profiles);
  }

  /** One genome's result in `runMLST`: its merged text aligned against the scheme's alleles. */
  function FileResult(fasta: ParsedFasta, scheme: SchemeData, minimap2: (string, string) -> string): MLSTResult {
    var loci := scheme.scheme.loci;
    AnalysisOf(fasta, scheme,
      minimap2(MergeContigsToFasta(fasta.filename, fasta.contigs), AllAllelesFasta(loci, scheme.alleleFastas)),
      AlleleLengths(loci, scheme.alleleFastas))
  }

  /** The results of `runMLST`, one per genome in order. */
  function RunResults(files: seq<ParsedFasta>, scheme: SchemeData, minimap2: (string, string) -> string): (r: seq<MLSTResult>)
    ensures |r| == |files|
  {
    if files == [] then [] else [FileResult(files[0], scheme, minimap2)] + RunResults(files[1..], scheme, minimap2)
  }

  lemma {:induction false} RunResultsAt(files: seq<ParsedFasta>, scheme: SchemeData, minimap2: (string, string) -> string, i: nat)
    requires i < |files|
    ensures RunResults(files, scheme, minimap2)[i] == FileResult(files[i], scheme, minimap2)
  {
    if i > 0 {
      RunResultsAt(files[1..], scheme, minimap2, i - 1);
    }
  }

  lemma RunResultsStep(acc: seq<MLSTResult>, files: seq<ParsedFasta>, i: nat, scheme: SchemeData,
                       minimap2: (string, string) -> string)
    requires i < |files|
    requires acc + RunResults(files[i..], scheme, minimap2) == RunResults(files, scheme, minimap2)
    ensures (acc + [FileResult(files[i], scheme, minimap2)]) + RunResults(files[i + 1..], scheme, minimap2)
      == RunResults(files, scheme, minimap2)
  {
    var r := FileResult(files[i], scheme, minimap2);
    var later := RunResults(files[i + 1..], scheme, minimap2);
    assert RunResults(files[i..], scheme, minimap2) == [r] + later by {
      assert files[i..][0] == files[i] && files[i..][1..] == files[i + 1..];
    }
    AppendAssoc(acc, [r], later);
  }

  lemma FileBlocksStep(pcts: seq<real>, i: nat, n: nat, count: nat)
    requires i < n
    requires pcts + FileBlocks(i, n, count) == [0.0] + FileBlocks(0, n, count)
    ensures (pcts + Scaled(i, n, FilePcts(count))) + FileBlocks(i + 1, n, count) == [0.0] + FileBlocks(0, n, count)
  {
  }

  /** One pass of the file loop of `runMLST`: merge the contigs, align them against the catalogue, analyse the hits. */
  method AnalyzeGenome(fasta: ParsedFasta, scheme: SchemeData, minimap2: (string, string) -> string,
                       allAllelesFasta: string, alleleLengths: map<string, nat>)
    returns (result: MLSTResult, pcts: seq<real>)
    requires allAllelesFasta == AllAllelesFasta(scheme.scheme.loci, scheme.alleleFastas)
    requires alleleLengths == AlleleLengths(scheme.scheme.loci, scheme.alleleFastas)
    ensures result == FileResult(fasta, scheme, minimap2)
    ensures pcts == FilePcts(|scheme.scheme.loci|)
  {
    var genomeFasta := MergeContigsToFasta(fasta.filename, fasta.contigs);
    var pafText := minimap2(genomeFasta, allAllelesFasta);
    result, pcts := AnalyzeFile(fasta, scheme, pafText, alleleLengths);
  }

  /**
   * `runMLST`: build the alleles text and length map once, then align and
   * analyse each genome in order; `minimap2` maps the merged genome text and
   * the alleles text to the aligner's PAF output, and `pcts` are the
   * percentages reported.
   */
  method RunMLST(files: seq<ParsedFasta>, scheme: SchemeData, minimap2: (string, string) -> string)
    returns (results: seq<MLSTResult>, pcts: seq<real>)
    ensures results == RunResults(files, scheme, minimap2)
    ensures pcts == RunPcts(|files|, |scheme.scheme.loci|)
  {
    pcts := [0.0];
    var allAllelesFasta, alleleLengths := AlleleCatalogue(scheme);
    results := [];
    for i := 0 to |files|
      invariant results + RunResults(files[i..], scheme, minimap2) == RunResults(files, scheme, minimap2)
      invariant pcts + FileBlocks(i, |files|, |scheme.scheme.loci|) == [0.0] + FileBlocks(0, |files|, |scheme.scheme.loci|)
    {
      var result, filePcts := AnalyzeGenome(files[i], scheme, minimap2, allAllelesFasta, alleleLengths);
      RunResultsStep(results, files, i, scheme, minimap2);
      FileBlocksStep(pcts, i, |files|, |scheme.scheme.loci|);
      pcts := pcts + Scaled(i, |files|, filePcts);
      results := results + [result];
    }
    assert files[|files|..] == [];
    pcts := pcts + [100.0];
  }

  /** One genome's result is named after the file and the scheme and has an allele entry for exactly the scheme's loci. */
  lemma AnalysisNames(fasta: ParsedFasta, scheme: SchemeData, pafText: string, lengths: map<string, nat>)
    ensures var r := AnalysisOf(fasta, scheme, pafText, lengths);
      && r.filename == fasta.filename && r.scheme == scheme.scheme.name
      && forall k :: k in r.alleles <==> k in scheme.scheme.loci
  {
    var loci := scheme.scheme.loci;
    var calls := LocusCalls(loci, ParsedPaf(pafText), lengths);
    CallSTOutcome(fasta.filename, scheme.scheme.name, calls, scheme.profiles);
    AllelesOfKeys(calls);
    forall k
      ensures (exists li :: 0 <= li < |calls| && calls[li].locus == k) <==> k in loci
    {
      if k in loci {
        var li :| 0 <= li < |loci| && loci[li] == k;
        LocusCallsAt(loci, ParsedPaf(pafText), lengths, li);
      }
      if exists li :: 0 <= li < |calls| && calls[li].locus == k {
        var li :| 0 <= li < |calls| && calls[li].locus == k;
        LocusCallsAt(loci, ParsedPaf(pafText), lengths, li);
      }
    }
  }

  /** A locus named once in the scheme holds the text of its own call. */
  lemma AnalysisLocusAllele(fasta: ParsedFasta, scheme: SchemeData, pafText: string, lengths: map<string, nat>, li: nat)
    requires li < |scheme.scheme.loci|
    requires forall lj :: 0 <= lj < |scheme.scheme.loci| && lj != li ==> scheme.scheme.loci[lj] != scheme.scheme.loci[li]
    ensures var loci := scheme.scheme.loci;
      var r := AnalysisOf(fasta, scheme, pafText, lengths);
      loci[li] in r.alleles && r.alleles[loci[li]] == LocusCall(loci[li], ParsedPaf(pafText), lengths).allele.Text()
  {
    var loci := scheme.scheme.loci;
    var calls := LocusCalls(loci, ParsedPaf(pafText), lengths);
    CallSTOutcome(fasta.filename, scheme.scheme.name, calls, scheme.profiles);
    LocusCallsAt(loci, ParsedPaf(pafText), lengths, li);
    forall j | li < j < |calls|
      ensures calls[j].locus != calls[li].locus
    {
      LocusCallsAt(loci, ParsedPaf(pafText), lengths, j);
    }
    AllelesOfLastWins(calls, li);
  }

  /** A locus with no hit carrying its prefix makes the genome's type incomplete. */
  lemma MissingLocusIncomplete(fasta: ParsedFasta, scheme: SchemeData, pafText: string, lengths: map<string, nat>, li: nat)
    requires li < |scheme.scheme.loci|
    requires LocusHits(ParsedPaf(pafText), scheme.scheme.loci[li]) == []
    ensures AnalysisOf(fasta, scheme, pafText, lengths).st == IncompleteST
  {
    MissingCallIncomplete(fasta.filename, scheme.scheme.name, scheme.scheme.loci, ParsedPaf(pafText), lengths, scheme.profiles, li);
  }

  lemma MissingCallIncomplete(filename: string, name: string, loci: seq<string>, hits: seq<AlignmentHit>,
                              lengths: map<string, nat>, profiles: seq<STProfile>, li: nat)
    requires li < |loci| && LocusHits(hits, loci[li]) == []
    ensures CallSTSpec(filename, name, LocusCalls(loci, hits, lengths), profiles).st == IncompleteST
  {
    var calls := LocusCalls(loci, hits, lengths);
    LocusCallsAt(loci, hits, lengths, li);
    assert calls[li] == LocusResult(loci[li], NoHit, Num(0.0), Num(0.0), None);
    assert calls[li].allele.Text() == NoHitText;
    assert HasText(calls, NoHitText);
  }

  /** `runMLST` gives each genome the analysis of its own aligner output against the whole scheme. */
  lemma RunResultsContents(files: seq<ParsedFasta>, scheme: SchemeData, minimap2: (string, string) -> string)
    ensures var r := RunResults(files, scheme, minimap2);
      |r| == |files| && forall i :: 0 <= i < |files| ==> r[i] == FileResult(files[i], scheme, minimap2)
  {
    forall i | 0 <= i < |files|
      ensures RunResults(files, scheme, minimap2)[i] == FileResult(files[i], scheme, minimap2)
    {
      RunResultsAt(files, scheme, minimap2, i);
    }
  }
}
