/** The records shared by the typing pipeline (src/mlst/types.ts). */
module Types {
  import opened Wrappers
  import opened Numbers

  /** One FASTA record: a name and its sequence. */
  datatype Contig = Contig(name: string, sequence: string)

  /** A genome file: its display name and its contigs. */
  datatype ParsedFasta = ParsedFasta(filename: string, contigs: seq<Contig>)

  /**
   * One alignment record. `targetName` is the allele (the aligner's query),
   * `queryName` the genome; the numbers are JavaScript numbers, NaN where
   * the text did not parse.
   */
  datatype AlignmentHit = AlignmentHit(
    queryName: string,
    targetName: string,
    identity: Number,
    alignmentLength: Number,
    queryStart: Number,
    queryEnd: Number,
    targetStart: Number,
    targetEnd: Number,
    targetLength: Number)

  const NoHitText := "no_hit"
  const NovelText := "novel"
  const IncompleteText := "incomplete"

  /** The call for one locus; `Text` is the string the program stores. */
  datatype AlleleCall = AlleleNumber(number: string) | NovelAllele | NoHit {
    function Text(): string {
      match this
      case AlleleNumber(n) => n
      case NovelAllele => NovelText
      case NoHit => NoHitText
    }
  }

  /** The outcome of calling one locus of one genome. */
  datatype LocusResult = LocusResult(
    locus: string,
    allele: AlleleCall,
    identity: Number,
    coverage: Number,
    bestHit: Option<AlignmentHit>)

  /** A sequence type; `Text` is the string the program stores. */
  datatype SequenceType = KnownST(st: string) | NovelST | IncompleteST {
    function Text(): string {
      match this
      case KnownST(s) => s
      case NovelST => NovelText
      case IncompleteST => IncompleteText
    }
  }

  /** The typing result of one genome: the allele map holds the calls' texts. */
  datatype MLSTResult = MLSTResult(
    filename: string,
    scheme: string,
    st: SequenceType,
    alleles: map<string, string>)

  datatype MLSTScheme = MLSTScheme(name: string, loci: seq<string>)

  /** One row of the profile table: a sequence type and its allele numbers. */
  datatype STProfile = STProfile(st: string, alleles: map<string, string>)

  /** A scheme with its profile table and, per locus, the FASTA text of its alleles. */
  datatype SchemeData = SchemeData(
    scheme: MLSTScheme,
    profiles: seq<STProfile>,
    alleleFastas: map<string, string>)

  /** JavaScript truthiness of an optional string: present and not empty. */
  predicate Truthy(s: Option<string>) {
    s.Some? && s.value != ""
  }
}
