/**
 * The results table's text (src/components/ResultsTable.tsx): the status
 * class and label of a call or type, and the CSV export's text.
 */
module ResultsTable {
  import opened Wrappers
  import opened Text
  import opened Types

  /** The class `classifyResult` gives a cell; `Css` is its text. */
  datatype Status = Missing | NoHitStatus | NovelStatus | Exact {
    function Css(): string {
      match this
      case Missing => "missing"
      case NoHitStatus => "nohit"
      case NovelStatus => "novel"
      case Exact => "exact"
    }
  }

  /** `classifyResult(val)`. */
  function ClassifyResult(val: Option<string>): Status {
    if !Truthy(val) then Missing
    else if val.value == NoHitText || val.value == IncompleteText then NoHitStatus
    else if val.value == NovelText then NovelStatus
    else Exact
  }

  const ExactPrefix := "Exact match: "

  /** `statusLabel(val)`. */
  function StatusLabel(val: Option<string>): string {
    if !Truthy(val) then "Missing"
    else if val.value == NoHitText then "No hit found"
    else if val.value == IncompleteText then "Incomplete — missing loci"
    else if val.value == NovelText then "Novel — above threshold but not exact"
    else ExactPrefix + val.value
  }

  /**
   * A value is classed exact exactly when its label is an exact-match
   * label, and that label carries the value itself after the prefix.
   */
  lemma ExactIffExactLabel(val: Option<string>)
    ensures ClassifyResult(val) == Exact <==> StartsWith(StatusLabel(val), ExactPrefix)
    ensures ClassifyResult(val) == Exact ==> StatusLabel(val)[|ExactPrefix|..] == val.value
  {
    var l := StatusLabel(val);
    if ClassifyResult(val) == Exact {
      assert l == ExactPrefix + val.value;
    } else if Truthy(val) && val.value == IncompleteText {
      assert l[0] == 'I';
    } else if Truthy(val) && val.value == NovelText {
      assert l[0] == 'N';
    } else {
      assert |l| < |ExactPrefix|;
    }
  }

  /** The class of each locus call the pipeline stores (an allele number that is empty shows as missing). */
  lemma AlleleCallClasses(c: AlleleCall)
    ensures ClassifyResult(Some(c.Text())) ==
      match c
      case NoHit => NoHitStatus
      case NovelAllele => NovelStatus
      case AlleleNumber(n) =>
        if n == "" then Missing
        else if n == NoHitText || n == IncompleteText then NoHitStatus
        else if n == NovelText then NovelStatus
        else Exact
  {
  }

  /** The class of each sequence type the pipeline stores. */
  lemma SequenceTypeClasses(st: SequenceType)
    ensures st == IncompleteST ==> ClassifyResult(Some(st.Text())) == NoHitStatus
    ensures st == NovelST ==> ClassifyResult(Some(st.Text())) == NovelStatus
    ensures st.KnownST? && st.st != "" && st.st != NoHitText && st.st != IncompleteText && st.st != NovelText ==>
      ClassifyResult(Some(st.Text())) == Exact
  {
  }

  // ----- CSV export -----

  /** `['File', 'ST', ...loci].join(',')`. */
  function CsvHeader(loci: seq<string>): string {
    Join(["File", "ST"] + loci, ",")
  }

  /** `r.alleles[l] ?? '-'`: the dash only for an absent key. */
  function AlleleCell(r: MLSTResult, locus: string): string {
    match Get(r.alleles, locus)
    case Some(v) => v
    case None => "-"
  }

  function RowFields(r: MLSTResult, loci: seq<string>): (f: seq<string>)
    ensures |f| == |loci| + 2
  {
    [r.filename, r.st.Text()] + seq(|loci|, i requires 0 <= i < |loci| => AlleleCell(r, loci[i]))
  }

  function CsvRow(r: MLSTResult, loci: seq<string>): string {
    Join(RowFields(r, loci), ",")
  }

  function CsvLines(results: seq<MLSTResult>, loci: seq<string>): (lines: seq<string>)
    ensures |lines| == |results| + 1
  {
    [CsvHeader(loci)] + seq(|results|, j requires 0 <= j < |results| => CsvRow(results[j], loci))
  }

  /** The CSV text: header and rows joined by '\n', no trailing newline. */
  function CsvText(results: seq<MLSTResult>, loci: seq<string>): string {
    Join(CsvLines(results, loci), "\n")
  }

  /** A field that needs no quoting: no comma and no newline. */
  predicate PlainField(s: string) {
    ',' !in s && '\n' !in s
  }

  predicate PlainFields(fs: seq<string>) {
    forall i :: 0 <= i < |fs| ==> PlainField(fs[i])
  }

  /** All the texts the export writes are plain fields. */
  predicate PlainTable(results: seq<MLSTResult>, loci: seq<string>) {
    PlainFields(loci)
    && forall j :: 0 <= j < |results| ==> PlainFields(RowFields(results[j], loci))
  }

  lemma {:induction false} JoinWithout(parts: seq<string>, sep: char, c: char)
    requires c != sep
    requires forall i :: 0 <= i < |parts| ==> c !in parts[i]
    ensures c !in Join(parts, [sep])
  {
    if |parts| > 1 {
      JoinWithout(parts[1..], sep, c);
    }
  }

  /** A row read back on commas gives its fields: the file, the type, then one cell per locus. */
  lemma RowFieldsBack(r: MLSTResult, loci: seq<string>)
    requires PlainFields(RowFields(r, loci))
    ensures Split(CsvRow(r, loci), ',') == RowFields(r, loci)
    ensures '\n' !in CsvRow(r, loci)
  {
    assert "," == [','];
    SplitJoin(RowFields(r, loci), ',');
    JoinWithout(RowFields(r, loci), ',', '\n');
  }

  /** The header read back on commas gives "File", "ST" and the loci in order. */
  lemma HeaderFieldsBack(loci: seq<string>)
    requires PlainFields(loci)
    ensures Split(CsvHeader(loci), ',') == ["File", "ST"] + loci
    ensures '\n' !in CsvHeader(loci)
  {
    var fs := ["File", "ST"] + loci;
    HeaderFieldsPlain(loci);
    assert "," == [','];
    SplitJoin(fs, ',');
    JoinWithout(fs, ',', '\n');
  }

  lemma HeaderFieldsPlain(loci: seq<string>)
    requires PlainFields(loci)
    ensures PlainFields(["File", "ST"] + loci)
  {
    var fs := ["File", "ST"] + loci;
    assert PlainField("File") && PlainField("ST");
    forall i | 0 <= i < |fs|
      ensures PlainField(fs[i])
    {
      if i >= 2 {
        assert fs[i] == loci[i - 2];
      }
    }
  }

  lemma CsvLinesPlain(results: seq<MLSTResult>, loci: seq<string>)
    requires PlainTable(results, loci)
    ensures forall i :: 0 <= i < |CsvLines(results, loci)| ==> '\n' !in CsvLines(results, loci)[i]
  {
    var lines := CsvLines(results, loci);
    forall i | 0 <= i < |lines|
      ensures '\n' !in lines[i]
    {
      if i == 0 {
        assert lines[i] == CsvHeader(loci);
        HeaderFieldsBack(loci);
      } else {
        assert lines[i] == CsvRow(results[i - 1], loci);
        RowFieldsBack(results[i - 1], loci);
      }
    }
  }

  /**
   * Read back, the CSV text has one line more than there are results: the
   * header, then each result's row in order, and each line splits on
   * commas into exactly the fields written.
   */
  lemma CsvReadBack(results: seq<MLSTResult>, loci: seq<string>)
    requires PlainTable(results, loci)
    ensures var lines := Split(CsvText(results, loci), '\n');
      && |lines| == |results| + 1
      && Split(lines[0], ',') == ["File", "ST"] + loci
      && forall j :: 0 <= j < |results| ==> Split(lines[j + 1], ',') == RowFields(results[j], loci)
  {
    CsvLinesPlain(results, loci);
    assert "\n" == ['\n'];
    SplitJoin(CsvLines(results, loci), '\n');
    HeaderFieldsBack(loci);
    forall j | 0 <= j < |results|
      ensures Split(CsvLines(results, loci)[j + 1], ',') == RowFields(results[j], loci)
    {
      RowFieldsBack(results[j], loci);
    }
  }

  /** A locus cell is the stored call, an empty call staying empty; only an absent locus shows '-'. */
  lemma AlleleCellCases(r: MLSTResult, locus: string)
    ensures locus in r.alleles ==> AlleleCell(r, locus) == r.alleles[locus]
    ensures locus !in r.alleles ==> AlleleCell(r, locus) == "-"
  {
  }
}
