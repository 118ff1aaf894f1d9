/**
 * FASTA parsing (src/mlst/parseFasta.ts): lines are split on '\n' and
 * trimmed; a line starting with '>' opens a record named by the first
 * whitespace-free token after the '>'; other non-blank lines, upper-cased,
 * are appended to the open record. Records with an empty name are dropped,
 * and so are the lines before the first named header.
 */
module ParseFasta {
  import opened Text
  import opened Types

  predicate IsHeader(t: string) {
    StartsWith(t, ">")
  }

  /** `trimmed.slice(1).split(/\s+/)[0]`. */
  function HeaderName(t: string): string
    requires IsHeader(t)
  {
    TokenPrefix(Js, t[1..])
  }

  /** The record the parser closes: none while no (non-empty) name is open. */
  function Emit(name: string, chunks: seq<string>): seq<Contig> {
    if name != "" then [Contig(name, Concat(chunks))] else []
  }

  /**
   * What the parse loop still produces from the remaining lines `rest`,
   * with record `name` open and its sequence lines `chunks` collected.
   */
  function Scan(name: string, chunks: seq<string>, rest: seq<string>): seq<Contig>
    decreases |rest|
  {
    if rest == [] then Emit(name, chunks)
    else
      var t := Trim(Js, rest[0]);
      if IsHeader(t) then Emit(name, chunks) + Scan(HeaderName(t), [], rest[1..])
      else if t != "" && name != "" then Scan(name, chunks + [Upper(t)], rest[1..])
      else Scan(name, chunks, rest[1..])
  }

  function Lines(text: string): seq<string> {
    Split(text, '\n')
  }

  /** The records of a line list, from the parser's initial state. */
  function ParseLines(lines: seq<string>): seq<Contig> {
    Scan("", [], lines)
  }

  /** The records `parseFastaString(text)` returns. */
  function FastaRecords(text: string): seq<Contig> {
    ParseLines(Lines(text))
  }

  /** At a header line the parse closes the open record and opens the header's. */
  lemma ScanAtHeader(name: string, chunks: seq<string>, lines: seq<string>, i: nat)
    requires i < |lines| && IsHeader(Trim(Js, lines[i]))
    ensures Scan(name, chunks, lines[i..]) == Emit(name, chunks) + Scan(HeaderName(Trim(Js, lines[i])), [], lines[i + 1..])
  {
    assert lines[i..][0] == lines[i];
    assert lines[i..][1..] == lines[i + 1..];
  }

  /** At any other line the parse keeps the open record, adding the line when it is not blank. */
  lemma ScanAtOther(name: string, chunks: seq<string>, lines: seq<string>, i: nat)
    requires i < |lines| && !IsHeader(Trim(Js, lines[i]))
    ensures var t := Trim(Js, lines[i]);
      Scan(name, chunks, lines[i..]) == Scan(name, if t != "" && name != "" then chunks + [Upper(t)] else chunks, lines[i + 1..])
  {
    assert lines[i..][0] == lines[i];
    assert lines[i..][1..] == lines[i + 1..];
  }

  /** `parseFastaString`, the loop of the source with its state variables. */
  method ParseFastaString(text: string) returns (contigs: seq<Contig>)
    ensures contigs == FastaRecords(text)
  {
    contigs := [];
    var currentName := "";
    var currentSeq: seq<string> := [];
    var lines := Split(text, '\n');
    for i := 0 to |lines|
      invariant contigs + Scan(currentName, currentSeq, lines[i..]) == FastaRecords(text)
    {
      var trimmed := Trim(Js, lines[i]);
      if StartsWith(trimmed, ">") {
        ScanAtHeader(currentName, currentSeq, lines, i);
        ghost var next := Scan(HeaderName(trimmed), [], lines[i + 1..]);
        assert contigs + (Emit(currentName, currentSeq) + next) == (contigs + Emit(currentName, currentSeq)) + next;
        if currentName != "" {
          contigs := contigs + [Contig(currentName, Concat(currentSeq))];
        } else {
          assert contigs + [] == contigs;
        }
        currentName := HeaderName(trimmed);
        currentSeq := [];
      } else {
        ScanAtOther(currentName, currentSeq, lines, i);
        if trimmed != "" && currentName != "" {
          currentSeq := currentSeq + [Upper(trimmed)];
        }
      }
    }
    assert lines[|lines|..] == [];
    if currentName != "" {
      contigs := contigs + [Contig(currentName, Concat(currentSeq))];
    } else {
      assert contigs + [] == contigs;
    }
  }

  // ----- A reference definition: records as header line plus body -----

  /** The number of leading lines that are not headers. */
  function NextHeader(lines: seq<string>): (k: nat)
    ensures k <= |lines|
    ensures forall j :: 0 <= j < k ==> !IsHeader(Trim(Js, lines[j]))
    ensures k < |lines| ==> IsHeader(Trim(Js, lines[k]))
  {
    if lines == [] || IsHeader(Trim(Js, lines[0])) then 0 else 1 + NextHeader(lines[1..])
  }

  /** The sequence lines of a record body: its non-blank lines, trimmed and upper-cased. */
  function BodyChunks(lines: seq<string>): seq<string> {
    if lines == [] then []
    else
      var t := Trim(Js, lines[0]);
      (if t != "" then [Upper(t)] else []) + BodyChunks(lines[1..])
  }

  /**
   * One record per header line, holding the lines up to the next header,
   * unless the header's name is empty; lines before the first header are
   * ignored.
   */
  function Records(lines: seq<string>): seq<Contig>
    decreases |lines|
  {
    var k := NextHeader(lines);
    if k == |lines| then []
    else
      var body := lines[k + 1..];
      var m := NextHeader(body);
      Emit(HeaderName(Trim(Js, lines[k])), BodyChunks(body[..m])) + Records(body[m..])
  }

  /** The invariant that ties the parse loop to the reference definition. */
  predicate ScanMatchesRecords(name: string, chunks: seq<string>, rest: seq<string>) {
    var k := NextHeader(rest);
    Scan(name, chunks, rest) == Emit(name, chunks + BodyChunks(rest[..k])) + Records(rest[k..])
  }

  /** The chunk a line adds to an open record. */
  function Chunk(line: string): seq<string> {
    var t := Trim(Js, line);
    if t != "" then [Upper(t)] else []
  }

  /** Lines that start with a header: its record, then the records after its body. */
  lemma RecordsAtHeader(rest: seq<string>)
    requires rest != [] && IsHeader(Trim(Js, rest[0]))
    ensures var body := rest[1..]; var m := NextHeader(body);
      Records(rest) == Emit(HeaderName(Trim(Js, rest[0])), BodyChunks(body[..m])) + Records(body[m..])
  {
    assert NextHeader(rest) == 0;
  }

  lemma HeaderStep(name: string, chunks: seq<string>, rest: seq<string>)
    requires rest != [] && IsHeader(Trim(Js, rest[0]))
    requires ScanMatchesRecords(HeaderName(Trim(Js, rest[0])), [], rest[1..])
    ensures ScanMatchesRecords(name, chunks, rest)
  {
    var h := HeaderName(Trim(Js, rest[0]));
    var body := rest[1..];
    var m := NextHeader(body);
    var bc := BodyChunks(body[..m]);
    assert NextHeader(rest) == 0;
    assert rest[..0] == [] && rest[0..] == rest;
    assert chunks + BodyChunks([]) == chunks;
    assert [] + bc == bc;
    assert Scan(h, [], body) == Emit(h, bc) + Records(body[m..]);
    assert Scan(name, chunks, rest) == Emit(name, chunks) + Scan(h, [], body);
    RecordsAtHeader(rest);
    assert Records(rest) == Emit(h, bc) + Records(body[m..]);
    assert Emit(name, chunks) + (Emit(h, bc) + Records(body[m..])) == Emit(name, chunks) + Records(rest);
  }

  /** Over a body line, the parse only adds the line's chunk to an open record. */
  lemma ScanBodyLine(name: string, chunks: seq<string>, rest: seq<string>)
    requires name != "" && rest != [] && !IsHeader(Trim(Js, rest[0]))
    ensures Scan(name, chunks, rest) == Scan(name, chunks + Chunk(rest[0]), rest[1..])
  {
    if Trim(Js, rest[0]) == "" {
      assert chunks + [] == chunks;
    }
  }

  /** A body line is the first of the lines before the next header. */
  lemma NextHeaderBodyLine(rest: seq<string>)
    requires rest != [] && !IsHeader(Trim(Js, rest[0]))
    ensures NextHeader(rest) == 1 + NextHeader(rest[1..])
    ensures rest[NextHeader(rest)..] == rest[1..][NextHeader(rest[1..])..]
    ensures BodyChunks(rest[..NextHeader(rest)]) == Chunk(rest[0]) + BodyChunks(rest[1..][..NextHeader(rest[1..])])
  {
    var k := NextHeader(rest);
    var k' := NextHeader(rest[1..]);
    assert rest[..k][0] == rest[0] && rest[..k][1..] == rest[1..][..k'];
  }

  /** A body line with a record open. */
  lemma BodyStep(name: string, chunks: seq<string>, rest: seq<string>)
    requires name != "" && rest != [] && !IsHeader(Trim(Js, rest[0]))
    requires ScanMatchesRecords(name, chunks + Chunk(rest[0]), rest[1..])
    ensures ScanMatchesRecords(name, chunks, rest)
  {
    var k := NextHeader(rest);
    var k' := NextHeader(rest[1..]);
    var c := Chunk(rest[0]);
    var tail := BodyChunks(rest[1..][..k']);
    var after := Records(rest[1..][k'..]);
    assert Scan(name, chunks + c, rest[1..]) == Emit(name, (chunks + c) + tail) + after;
    ScanBodyLine(name, chunks, rest);
    NextHeaderBodyLine(rest);
    assert after == Records(rest[k..]);
    assert BodyChunks(rest[..k]) == c + tail;
    AppendAssoc(chunks, c, tail);
  }

  /** A body line before any named header. */
  lemma UnnamedBodyStep(chunks: seq<string>, rest: seq<string>)
    requires rest != [] && !IsHeader(Trim(Js, rest[0]))
    requires ScanMatchesRecords("", chunks, rest[1..])
    ensures ScanMatchesRecords("", chunks, rest)
  {
    assert Scan("", chunks, rest) == Scan("", chunks, rest[1..]);
    NextHeaderBodyLine(rest);
  }

  lemma {:induction false} ScanIsRecords(name: string, chunks: seq<string>, rest: seq<string>)
    ensures ScanMatchesRecords(name, chunks, rest)
    decreases |rest|
  {
    if rest == [] {
      assert chunks + BodyChunks([]) == chunks;
    } else if IsHeader(Trim(Js, rest[0])) {
      ScanIsRecords(HeaderName(Trim(Js, rest[0])), [], rest[1..]);
      HeaderStep(name, chunks, rest);
    } else {
      if name != "" {
        ScanIsRecords(name, chunks + Chunk(rest[0]), rest[1..]);
        BodyStep(name, chunks, rest);
      } else {
        ScanIsRecords(name, chunks, rest[1..]);
        UnnamedBodyStep(chunks, rest);
      }
    }
  }

  /** Lines before the first header do not change the reference records. */
  lemma RecordsSkip(lines: seq<string>)
    ensures Records(lines) == Records(lines[NextHeader(lines)..])
  {
    var k := NextHeader(lines);
    if k < |lines| {
      var tail := lines[k..];
      assert tail[0] == lines[k] && tail[1..] == lines[k + 1..];
      assert NextHeader(tail) == 0;
    } else {
      assert lines[k..] == [];
    }
  }

  /** The parse loop computes the record-per-header reference definition. */
  lemma ParseIsRecords(lines: seq<string>)
    ensures ParseLines(lines) == Records(lines)
  {
    ScanIsRecords("", [], lines);
    RecordsSkip(lines);
  }

  // ----- Names -----

  function Names(rs: seq<Contig>): seq<string> {
    if rs == [] then [] else [rs[0].name] + Names(rs[1..])
  }

  lemma {:induction false} NamesAppend(a: seq<Contig>, b: seq<Contig>)
    ensures Names(a + b) == Names(a) + Names(b)
  {
    if a != [] {
      assert (a + b)[1..] == a[1..] + b;
      assert (a + b)[0] == a[0];
      NamesAppend(a[1..], b);
    } else {
      assert a + b == b;
    }
  }

  /** The non-empty names of the header lines, in order. */
  function HeaderNames(lines: seq<string>): (r: seq<string>)
    ensures forall i :: 0 <= i < |r| ==> r[i] != ""
  {
    if lines == [] then []
    else
      var t := Trim(Js, lines[0]);
      (if IsHeader(t) && HeaderName(t) != "" then [HeaderName(t)] else []) + HeaderNames(lines[1..])
  }

  lemma {:induction false} ScanNames(name: string, chunks: seq<string>, rest: seq<string>)
    ensures Names(Scan(name, chunks, rest)) == (if name != "" then [name] else []) + HeaderNames(rest)
    decreases |rest|
  {
    var own := if name != "" then [name] else [];
    if rest == [] {
      assert own + [] == own;
    } else {
      var t := Trim(Js, rest[0]);
      var here := if IsHeader(t) && HeaderName(t) != "" then [HeaderName(t)] else [];
      assert HeaderNames(rest) == here + HeaderNames(rest[1..]);
      if IsHeader(t) {
        var h := HeaderName(t);
        var later := Scan(h, [], rest[1..]);
        assert Scan(name, chunks, rest) == Emit(name, chunks) + later;
        NamesAppend(Emit(name, chunks), later);
        ScanNames(h, [], rest[1..]);
        assert Names(Emit(name, chunks)) == own;
        AppendAssoc(own, here, HeaderNames(rest[1..]));
      } else {
        var next := if t != "" && name != "" then chunks + [Upper(t)] else chunks;
        assert Scan(name, chunks, rest) == Scan(name, next, rest[1..]);
        ScanNames(name, next, rest[1..]);
        assert here == [];
        assert [] + HeaderNames(rest[1..]) == HeaderNames(rest[1..]);
      }
    }
  }

  /**
   * The records are named, in order, by the header lines whose name is not
   * empty: one record per such header, duplicates kept.
   */
  lemma RecordNamesAreHeaderNames(text: string)
    ensures Names(FastaRecords(text)) == HeaderNames(Lines(text))
  {
    ScanNames("", [], Lines(text));
  }

  // ----- Sequences -----

  lemma {:induction false} ConcatNoLower(parts: seq<string>)
    requires forall i :: 0 <= i < |parts| ==> NoLower(parts[i])
    ensures NoLower(Concat(parts))
  {
    if |parts| > 1 {
      ConcatNoLower(parts[1..]);
    }
  }

  lemma {:induction false} ScanNoLower(name: string, chunks: seq<string>, rest: seq<string>)
    requires forall i :: 0 <= i < |chunks| ==> NoLower(chunks[i])
    ensures forall i :: 0 <= i < |Scan(name, chunks, rest)| ==> NoLower(Scan(name, chunks, rest)[i].sequence)
    decreases |rest|
  {
    ConcatNoLower(chunks);
    if rest != [] {
      var t := Trim(Js, rest[0]);
      if IsHeader(t) {
        ScanNoLower(HeaderName(t), [], rest[1..]);
      } else if t != "" && name != "" {
        UpperNoLower(t);
        ScanNoLower(name, chunks + [Upper(t)], rest[1..]);
      } else {
        ScanNoLower(name, chunks, rest[1..]);
      }
    }
  }

  /** Every sequence is upper-case: no ASCII lower-case letter survives. */
  lemma SequencesUpperCase(text: string)
    ensures forall i :: 0 <= i < |FastaRecords(text)| ==> NoLower(FastaRecords(text)[i].sequence)
  {
    ScanNoLower("", [], Lines(text));
  }

  // ----- Lines that do not matter -----

  lemma {:induction false} ScanBlankLine(name: string, chunks: seq<string>, before: seq<string>, blank: string, after: seq<string>)
    requires Trim(Js, blank) == ""
    ensures Scan(name, chunks, before + [blank] + after) == Scan(name, chunks, before + after)
    decreases |before|
  {
    var all := before + [blank] + after;
    if before == [] {
      assert all == [blank] + after;
      assert all[0] == blank && all[1..] == after;
      assert before + after == after;
    } else {
      assert all[0] == (before + after)[0];
      assert all[1..] == before[1..] + [blank] + after;
      assert (before + after)[1..] == before[1..] + after;
      var t := Trim(Js, before[0]);
      if IsHeader(t) {
        ScanBlankLine(HeaderName(t), [], before[1..], blank, after);
      } else if t != "" && name != "" {
        ScanBlankLine(name, chunks + [Upper(t)], before[1..], blank, after);
      } else {
        ScanBlankLine(name, chunks, before[1..], blank, after);
      }
    }
  }

  /** A blank (or whitespace-only) line, wherever it stands, changes nothing. */
  lemma BlankLineIgnored(before: seq<string>, blank: string, after: seq<string>)
    requires Trim(Js, blank) == ""
    ensures ParseLines(before + [blank] + after) == ParseLines(before + after)
  {
    ScanBlankLine("", [], before, blank, after);
  }

  /** A trailing newline changes nothing. */
  lemma TrailingNewlineIgnored(text: string)
    ensures FastaRecords(text + "\n") == FastaRecords(text)
  {
    SplitSnoc(text, '\n');
    var lines := Lines(text);
    assert Lines(text + "\n") == lines + [""] + [];
    assert lines + [] == lines;
    BlankLineIgnored(lines, "", []);
  }

  /** A line that trims to a header shows its '>' in the text. */
  lemma HeaderCharInText(text: string, i: nat)
    requires i < |Lines(text)| && IsHeader(Trim(Js, Lines(text)[i]))
    ensures '>' in text
  {
    var line := Lines(text)[i];
    var ts := TrimStart(Js, line);
    var t := TrimEnd(Js, ts);
    assert t == Trim(Js, line);
    assert t[0] == '>';
    TrimEndShape(Js, ts);
    assert t[0] == ts[0];
    TrimStartShape(Js, line);
    var k := |line| - |ts|;
    assert ts[0] == line[k];
    SplitChars(text, '\n', i, k);
  }

  /** Text without a '>' holds no record. */
  lemma NoHeaderNoRecords(text: string)
    requires '>' !in text
    ensures FastaRecords(text) == []
  {
    var lines := Lines(text);
    forall i | 0 <= i < |lines|
      ensures !IsHeader(Trim(Js, lines[i]))
    {
      if IsHeader(Trim(Js, lines[i])) {
        HeaderCharInText(text, i);
      }
    }
    ParseIsRecords(lines);
  }

  /** Empty or whitespace-only text holds no record. */
  lemma WhitespaceOnlyNoRecords(text: string)
    requires AllSpace(Js, text)
    ensures FastaRecords(text) == []
  {
    assert '>' !in text by {
      assert !IsJsSpace('>');
    }
    NoHeaderNoRecords(text);
  }

  // ----- Writing records and reading them back -----

  /** A name the parser reproduces: not empty, without whitespace. */
  predicate IsRecordName(n: string) {
    n != "" && NoSpace(Js, n)
  }

  /** A sequence line the parser reproduces: no whitespace, no lower case, not a header. */
  predicate IsSequenceLine(s: string) {
    NoSpace(Js, s) && NoLower(s) && !StartsWith(s, ">")
  }

  predicate WellFormed(rs: seq<Contig>) {
    forall i :: 0 <= i < |rs| ==> IsRecordName(rs[i].name) && IsSequenceLine(rs[i].sequence)
  }

  /** A header line followed by one sequence line per record. */
  function RecordLines(rs: seq<Contig>): seq<string> {
    if rs == [] then [] else [">" + rs[0].name, rs[0].sequence] + RecordLines(rs[1..])
  }

  /** The FASTA text the program writes: the record lines joined by '\n', then '\n'. */
  function FormatFasta(rs: seq<Contig>): string {
    Join(RecordLines(rs), "\n") + "\n"
  }

  lemma {:induction false} ScanFlush(name: string, chunks: seq<string>, rest: seq<string>)
    requires rest == [""] || (rest != [] && IsHeader(Trim(Js, rest[0])))
    ensures Scan(name, chunks, rest) == Emit(name, chunks) + ParseLines(rest)
  {
    if rest == [""] {
      assert Trim(Js, "") == "";
      assert rest[0] == "" && rest[1..] == [];
      assert Scan(name, chunks, rest) == Scan(name, chunks, []);
      assert ParseLines(rest) == Scan("", [], []);
    }
  }

  lemma HeaderLine(n: string)
    requires IsRecordName(n)
    ensures Trim(Js, ">" + n) == ">" + n
    ensures IsHeader(">" + n) && HeaderName(">" + n) == n
  {
    assert NoSpace(Js, ">" + n) by {
      assert !IsJsSpace('>');
      assert forall i :: 1 <= i < |">" + n| ==> (">" + n)[i] == n[i - 1];
    }
    TrimNoSpace(Js, ">" + n);
    assert (">" + n)[1..] == n;
    TokenPrefixNoSpace(Js, n);
  }

  lemma SequenceLineStep(n: string, s: string, rest: seq<string>)
    requires n != "" && IsSequenceLine(s)
    ensures Scan(n, [], [s] + rest) == Scan(n, if s != "" then [s] else [], rest)
  {
    TrimNoSpace(Js, s);
    UpperIdentity(s);
    assert ([s] + rest)[0] == s && ([s] + rest)[1..] == rest;
    assert [] + [s] == [s];
  }

  lemma HeaderLineStep(n: string, rest: seq<string>)
    requires IsRecordName(n)
    ensures ParseLines([">" + n] + rest) == Scan(n, [], rest)
  {
    HeaderLine(n);
    assert ([">" + n] + rest)[0] == ">" + n && ([">" + n] + rest)[1..] == rest;
  }

  /** One written record, followed by a header or the final empty line, parses back. */
  lemma RecordStep(r: Contig, rest: seq<string>)
    requires IsRecordName(r.name) && IsSequenceLine(r.sequence)
    requires rest == [""] || (rest != [] && IsHeader(Trim(Js, rest[0])))
    ensures ParseLines([">" + r.name, r.sequence] + rest) == [r] + ParseLines(rest)
  {
    var n := r.name;
    var s := r.sequence;
    var c := if s != "" then [s] else [];
    assert ParseLines([">" + n, s] + rest) == Scan(n, [], [s] + rest) by {
      assert [">" + n, s] + rest == [">" + n] + ([s] + rest);
      HeaderLineStep(n, [s] + rest);
    }
    assert Scan(n, [], [s] + rest) == Scan(n, c, rest) by {
      SequenceLineStep(n, s, rest);
    }
    assert Scan(n, c, rest) == Emit(n, c) + ParseLines(rest) by {
      ScanFlush(n, c, rest);
    }
    assert Emit(n, c) == [r] by {
      assert Concat(c) == s;
    }
  }

  lemma {:induction false} ParseRecordLines(rs: seq<Contig>)
    requires WellFormed(rs)
    ensures ParseLines(RecordLines(rs) + [""]) == rs
  {
    if rs != [] {
      var rest := RecordLines(rs[1..]) + [""];
      assert RecordLines(rs) + [""] == [">" + rs[0].name, rs[0].sequence] + rest;
      assert WellFormed(rs[1..]) by {
        forall i | 0 <= i < |rs[1..]|
          ensures IsRecordName(rs[1..][i].name) && IsSequenceLine(rs[1..][i].sequence)
        {
          assert rs[1..][i] == rs[i + 1];
        }
      }
      ParseRecordLines(rs[1..]);
      if rs[1..] != [] {
        HeaderLine(rs[1].name);
        assert rest[0] == ">" + rs[1].name;
      }
      RecordStep(rs[0], rest);
      assert rs == [rs[0]] + rs[1..];
    } else {
      assert RecordLines(rs) + [""] == [""];
      assert Trim(Js, "") == "";
      assert [""][1..] == [];
    }
  }

  lemma {:induction false} RecordLinesNoNewline(rs: seq<Contig>)
    requires WellFormed(rs)
    ensures forall i :: 0 <= i < |RecordLines(rs)| ==> '\n' !in RecordLines(rs)[i]
  {
    assert IsJsSpace('\n');
    if rs != [] {
      assert WellFormed(rs[1..]) by {
        forall i | 0 <= i < |rs[1..]|
          ensures IsRecordName(rs[1..][i].name) && IsSequenceLine(rs[1..][i].sequence)
        {
          assert rs[1..][i] == rs[i + 1];
        }
      }
      RecordLinesNoNewline(rs[1..]);
      var n := rs[0].name;
      assert '\n' !in ">" + n by {
        assert forall i :: 1 <= i < |">" + n| ==> (">" + n)[i] == n[i - 1];
      }
    }
  }

  lemma FormatNoRecords()
    ensures FastaRecords(FormatFasta([])) == []
  {
    assert FormatFasta([]) == Join(["", ""], "\n");
    assert "\n" == ['\n'];
    SplitJoin(["", ""], '\n');
    assert Trim(Js, "") == "";
    assert ["", ""][1..] == [""] && [""][1..] == [];
  }

  lemma FormatLines(rs: seq<Contig>)
    requires rs != [] && WellFormed(rs)
    ensures Lines(FormatFasta(rs)) == RecordLines(rs) + [""]
  {
    var lines := RecordLines(rs);
    var all := lines + [""];
    assert |lines| >= 1;
    JoinSnoc(lines, "\n", "");
    assert Join(all, ['\n']) == FormatFasta(rs);
    RecordLinesNoNewline(rs);
    forall i | 0 <= i < |all|
      ensures '\n' !in all[i]
    {
      if i < |lines| {
        assert all[i] == lines[i];
      }
    }
    assert "\n" == ['\n'];
    SplitJoin(all, '\n');
  }

  /** Records with proper names and sequence lines survive writing and parsing unchanged. */
  lemma FormatThenParse(rs: seq<Contig>)
    requires WellFormed(rs)
    ensures FastaRecords(FormatFasta(rs)) == rs
  {
    if rs == [] {
      FormatNoRecords();
    } else {
      FormatLines(rs);
      ParseRecordLines(rs);
    }
  }
}
