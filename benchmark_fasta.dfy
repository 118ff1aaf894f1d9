/**
 * The benchmark's own FASTA reader (`parse_fasta` in scripts/benchmark.py):
 * a Python re-implementation of the genome reader that builds a dictionary
 * from record name to sequence. Where every header names its record right
 * after '>' and the two languages agree on which characters are
 * whitespace, it gives the records the TypeScript reader gives, a later
 * record of the same name replacing an earlier one.
 */
module BenchmarkFasta {
  import opened Wrappers
  import opened Text
  import opened Types
  import ParseFasta

  /**
   * `line[1:].split()[0]` for a header line: the first whitespace-separated
   * word after '>', and None where there is none (Python raises IndexError).
   */
  function FirstWord(s: string): (r: Option<string>)
    ensures r.Some? ==> r.value != "" && NoSpace(Py, r.value)
  {
    var t := TrimStart(Py, s);
    if t == "" then None
    else
      TrimStartShape(Py, s);
      TokenPrefixShape(Py, t);
      Some(TokenPrefix(Py, t))
  }

  /** `sequences[current_name] = "".join(current_seq)` when a record is open. */
  function Flush(acc: map<string, string>, name: string, chunks: seq<string>): map<string, string> {
    if name != "" then acc[name := Concat(chunks)] else acc
  }

  /**
   * What the loop of `parse_fasta` still produces from the remaining lines,
   * with the dictionary `acc` built so far and record `name` open with its
   * upper-cased lines `chunks`; None when a bare '>' line raises.
   */
  function PyScan(name: string, chunks: seq<string>, acc: map<string, string>, rest: seq<string>): Option<map<string, string>>
    decreases |rest|
  {
    if rest == [] then Some(Flush(acc, name, chunks))
    else
      var t := Trim(Py, rest[0]);
      if StartsWith(t, ">") then
        match FirstWord(t[1..])
        case None => None
        case Some(n) => PyScan(n, [], Flush(acc, name, chunks), rest[1..])
      else if t != "" && name != "" then PyScan(name, chunks + [Upper(t)], acc, rest[1..])
      else PyScan(name, chunks, acc, rest[1..])
  }

  /** What `parse_fasta(text)` returns: the dictionary, or None when it raises. */
  function PyFasta(text: string): Option<map<string, string>> {
    PyScan("", [], map[], Split(text, '\n'))
  }

  /** One iteration of the loop of `parse_fasta`, on lines[i]. */
  lemma PyScanStep(name: string, chunks: seq<string>, acc: map<string, string>, lines: seq<string>, i: nat)
    requires i < |lines|
    ensures PyScan(name, chunks, acc, lines[i..]) ==
      var t := Trim(Py, lines[i]);
      if StartsWith(t, ">") then
        match FirstWord(t[1..])
        case None => None
        case Some(n) => PyScan(n, [], Flush(acc, name, chunks), lines[i + 1..])
      else if t != "" && name != "" then PyScan(name, chunks + [Upper(t)], acc, lines[i + 1..])
      else PyScan(name, chunks, acc, lines[i + 1..])
  {
    assert lines[i..][0] == lines[i] && lines[i..][1..] == lines[i + 1..];
  }

  /** `parse_fasta`, with the source's loop. */
  method PyParseFasta(text: string) returns (r: Option<map<string, string>>)
    ensures r == PyFasta(text)
  {
    var sequences: map<string, string> := map[];
    var currentName := "";
    var currentSeq: seq<string> := [];
    var lines := Split(text, '\n');
    for i := 0 to |lines|
      invariant PyScan(currentName, currentSeq, sequences, lines[i..]) == PyFasta(text)
    {
      PyScanStep(currentName, currentSeq, sequences, lines, i);
      var line := Trim(Py, lines[i]);
      if StartsWith(line, ">") {
        if currentName != "" {
          sequences := sequences[currentName := Concat(currentSeq)];
        }
        var word := FirstWord(line[1..]);
        if word.None? {
          return None;
        }
        currentName := word.value;
        currentSeq := [];
      } else if line != "" && currentName != "" {
        currentSeq := currentSeq + [Upper(line)];
      }
    }
    if currentName != "" {
      sequences := sequences[currentName := Concat(currentSeq)];
    }
    return Some(sequences);
  }

  // ----- agreement with the TypeScript reader -----

  /** The records entered into a dictionary in order: a later record of a name replaces an earlier one. */
  function Into(acc: map<string, string>, rs: seq<Contig>): map<string, string>
    decreases |rs|
  {
    if rs == [] then acc else Into(acc[rs[0].name := rs[0].sequence], rs[1..])
  }

  lemma {:induction false} IntoAppend(acc: map<string, string>, a: seq<Contig>, b: seq<Contig>)
    ensures Into(acc, a + b) == Into(Into(acc, a), b)
    decreases |a|
  {
    if a != [] {
      assert (a + b)[0] == a[0] && (a + b)[1..] == a[1..] + b;
      IntoAppend(acc[a[0].name := a[0].sequence], a[1..], b);
    } else {
      assert a + b == b;
    }
  }

  /** The names in a dictionary of records are those already there and those of the records. */
  lemma {:induction false} IntoKeys(acc: map<string, string>, rs: seq<Contig>)
    ensures forall n :: n in Into(acc, rs) <==> n in acc || exists i :: 0 <= i < |rs| && rs[i].name == n
    decreases |rs|
  {
    if rs != [] {
      IntoKeys(acc[rs[0].name := rs[0].sequence], rs[1..]);
      forall i | 0 < i < |rs|
        ensures exists j :: 0 <= j < |rs[1..]| && rs[1..][j].name == rs[i].name
      {
        assert rs[1..][i - 1].name == rs[i].name;
      }
    }
  }

  /** The two languages agree on whether each character of `s` is whitespace. */
  predicate SameSpaces(s: string) {
    forall i :: 0 <= i < |s| ==> (IsPySpace(s[i]) <==> IsJsSpace(s[i]))
  }

  lemma SameSpacesTail(s: string)
    requires |s| > 0 && SameSpaces(s)
    ensures SameSpaces(s[1..]) && SameSpaces(s[..|s| - 1])
  {
    assert forall i :: 0 <= i < |s| - 1 ==> s[1..][i] == s[i + 1] && s[..|s| - 1][i] == s[i];
  }

  lemma {:induction false} SameTrimStart(s: string)
    requires SameSpaces(s)
    ensures TrimStart(Py, s) == TrimStart(Js, s) && SameSpaces(TrimStart(Js, s))
  {
    if |s| > 0 && IsJsSpace(s[0]) {
      SameSpacesTail(s);
      SameTrimStart(s[1..]);
    }
  }

  lemma {:induction false} SameTrimEnd(s: string)
    requires SameSpaces(s)
    ensures TrimEnd(Py, s) == TrimEnd(Js, s) && SameSpaces(TrimEnd(Js, s))
  {
    if |s| > 0 && IsJsSpace(s[|s| - 1]) {
      SameSpacesTail(s);
      SameTrimEnd(s[..|s| - 1]);
    }
  }

  lemma {:induction false} SameTokenPrefix(s: string)
    requires SameSpaces(s)
    ensures TokenPrefix(Py, s) == TokenPrefix(Js, s)
  {
    if |s| > 0 && !IsJsSpace(s[0]) {
      SameSpacesTail(s);
      SameTokenPrefix(s[1..]);
    }
  }

  /** Stripping a line gives the same text in both languages. */
  lemma SameTrim(s: string)
    requires SameSpaces(s)
    ensures Trim(Py, s) == Trim(Js, s) && SameSpaces(Trim(Js, s))
  {
    SameTrimStart(s);
    SameTrimEnd(TrimStart(Js, s));
  }

  /**
   * A line both readers treat alike: the languages agree on its whitespace,
   * and if it is a header, a non-blank character follows the '>'.
   */
  predicate Agreeable(line: string) {
    SameSpaces(line)
    && var t := Trim(Js, line);
    (ParseFasta.IsHeader(t) ==> |t| > 1 && !IsJsSpace(t[1]))
  }

  /** On an agreeable header, Python's first word is the TypeScript record name. */
  lemma SameHeaderName(line: string)
    requires Agreeable(line) && ParseFasta.IsHeader(Trim(Js, line))
    ensures var t := Trim(Js, line);
      FirstWord(t[1..]) == Some(ParseFasta.HeaderName(t))
  {
    var t := Trim(Js, line);
    SameTrim(line);
    SameSpacesTail(t);
    assert !IsPySpace(t[1..][0]);
    assert TrimStart(Py, t[1..]) == t[1..];
    SameTokenPrefix(t[1..]);
  }

  /**
   * The Python loop, started in the state that corresponds to the TypeScript
   * loop's, ends with the TypeScript records entered into its dictionary.
   */
  lemma {:induction false} PyScanAgrees(name: string, chunks: seq<string>, acc: map<string, string>, rest: seq<string>)
    requires forall k :: 0 <= k < |rest| ==> Agreeable(rest[k])
    ensures PyScan(name, chunks, acc, rest) == Some(Into(acc, ParseFasta.Scan(name, chunks, rest)))
    decreases |rest|
  {
    if rest == [] {
      assert Into(acc, ParseFasta.Emit(name, chunks)) == Flush(acc, name, chunks);
    } else {
      var t := Trim(Js, rest[0]);
      SameTrim(rest[0]);
      assert Trim(Py, rest[0]) == t;
      assert forall k :: 0 <= k < |rest[1..]| ==> Agreeable(rest[1..][k]) by {
        forall k | 0 <= k < |rest[1..]|
          ensures Agreeable(rest[1..][k])
        {
          assert rest[1..][k] == rest[k + 1];
        }
      }
      if ParseFasta.IsHeader(t) {
        SameHeaderName(rest[0]);
        var n := ParseFasta.HeaderName(t);
        PyScanAgrees(n, [], Flush(acc, name, chunks), rest[1..]);
        IntoAppend(acc, ParseFasta.Emit(name, chunks), ParseFasta.Scan(n, [], rest[1..]));
        assert Into(acc, ParseFasta.Emit(name, chunks)) == Flush(acc, name, chunks);
      } else if t != "" && name != "" {
        PyScanAgrees(name, chunks + [Upper(t)], acc, rest[1..]);
      } else {
        PyScanAgrees(name, chunks, acc, rest[1..]);
      }
    }
  }

  /**
   * On text whose lines are all agreeable, `parse_fasta` does not raise and
   * its dictionary holds the TypeScript records, the last record of each
   * name winning.
   */
  lemma PyFastaAgrees(text: string)
    requires forall k :: 0 <= k < |Split(text, '\n')| ==> Agreeable(Split(text, '\n')[k])
    ensures PyFasta(text) == Some(Into(map[], ParseFasta.FastaRecords(text)))
  {
    PyScanAgrees("", [], map[], Split(text, '\n'));
  }

  /** Every name in the dictionary is a non-empty word. */
  lemma {:induction false} PyScanNames(name: string, chunks: seq<string>, acc: map<string, string>, rest: seq<string>)
    requires name == "" || NoSpace(Py, name)
    requires forall n :: n in acc ==> n != "" && NoSpace(Py, n)
    ensures var r := PyScan(name, chunks, acc, rest);
      r.Some? ==> forall n :: n in r.value ==> n != "" && NoSpace(Py, n)
    decreases |rest|
  {
    if rest != [] {
      var t := Trim(Py, rest[0]);
      if StartsWith(t, ">") {
        match FirstWord(t[1..])
        case None =>
        case Some(n) => PyScanNames(n, [], Flush(acc, name, chunks), rest[1..]);
      } else if t != "" && name != "" {
        PyScanNames(name, chunks + [Upper(t)], acc, rest[1..]);
      } else {
        PyScanNames(name, chunks, acc, rest[1..]);
      }
    }
  }

  lemma PyFastaNames(text: string)
    ensures var r := PyFasta(text);
      r.Some? ==> forall n :: n in r.value ==> n != "" && NoSpace(Py, n)
  {
    PyScanNames("", [], map[], Split(text, '\n'));
  }

  // ----- where the two readers differ -----

  lemma SplitTwoLines(a: string, b: string)
    requires '\n' !in a && '\n' !in b
    ensures Split(a + "\n" + b, '\n') == [a, b]
  {
    assert "\n" == ['\n'];
    SplitJoin([a, b], '\n');
    assert Join([a, b], "\n") == a + "\n" + b;
  }

  /** A line that starts and ends with a character neither language calls whitespace is its own strip. */
  lemma Unstripped(line: string)
    requires |line| > 0
    requires !IsJsSpace(line[0]) && !IsPySpace(line[0])
    requires !IsJsSpace(line[|line| - 1]) && !IsPySpace(line[|line| - 1])
    ensures Trim(Js, line) == line && Trim(Py, line) == line
  {
  }

  lemma SpaceAfterMarkerLines()
    ensures Split("> seq1\nACGT", '\n') == ["> seq1", "ACGT"]
    ensures Trim(Js, "> seq1") == "> seq1" && Trim(Py, "> seq1") == "> seq1"
    ensures Trim(Js, "ACGT") == "ACGT" && Trim(Py, "ACGT") == "ACGT"
  {
    SplitTwoLines("> seq1", "ACGT");
    assert "> seq1\nACGT" == "> seq1" + "\n" + "ACGT";
    Unstripped("> seq1");
    Unstripped("ACGT");
  }

  /**
   * A header with a blank after '>' is dropped with its sequence by the
   * TypeScript reader; Python reads the next word as the name.
   */
  lemma SpaceAfterMarker()
    ensures ParseFasta.FastaRecords("> seq1\nACGT") == []
    ensures PyFasta("> seq1\nACGT") == Some(map["seq1" := "ACGT"])
  {
    SpaceAfterMarkerLines();
    SpaceAfterMarkerJs();
    SpaceAfterMarkerPy();
  }

  lemma SpaceAfterMarkerJs()
    requires Split("> seq1\nACGT", '\n') == ["> seq1", "ACGT"]
    requires Trim(Js, "> seq1") == "> seq1" && Trim(Js, "ACGT") == "ACGT"
    ensures ParseFasta.FastaRecords("> seq1\nACGT") == []
  {
    var lines := ["> seq1", "ACGT"];
    assert "> seq1"[1..] == " seq1";
    assert ParseFasta.HeaderName("> seq1") == "";
    assert ParseFasta.Scan("", [], ["ACGT"]) == [] by {
      assert "ACGT"[0] == 'A';
      assert !ParseFasta.IsHeader("ACGT");
      assert ["ACGT"][1..] == [];
    }
    assert lines[1..] == ["ACGT"];
    assert ParseFasta.Scan("", [], lines) == [];
  }

  lemma SpaceAfterMarkerPy()
    requires Split("> seq1\nACGT", '\n') == ["> seq1", "ACGT"]
    requires Trim(Py, "> seq1") == "> seq1" && Trim(Py, "ACGT") == "ACGT"
    ensures PyFasta("> seq1\nACGT") == Some(map["seq1" := "ACGT"])
  {
    BlankHeaderPy();
    BodyLinePy();
  }

  /** Python opens record "seq1" at the header "> seq1". */
  lemma BlankHeaderPy()
    requires Trim(Py, "> seq1") == "> seq1"
    ensures PyScan("", [], map[], ["> seq1", "ACGT"]) == PyScan("seq1", [], map[], ["ACGT"])
  {
    var lines := ["> seq1", "ACGT"];
    FirstWordAfterBlank();
    assert "> seq1"[1..] == " seq1";
    assert StartsWith(Trim(Py, lines[0]), ">");
    assert lines[1..] == ["ACGT"];
  }

  /** The body line becomes the open record's sequence. */
  lemma BodyLinePy()
    requires Trim(Py, "ACGT") == "ACGT"
    ensures PyScan("seq1", [], map[], ["ACGT"]) == Some(map["seq1" := "ACGT"])
  {
    UpperAcgt();
    assert "ACGT"[0] == 'A';
    assert !StartsWith("ACGT", ">");
    assert [] + [Upper("ACGT")] == ["ACGT"];
    assert ["ACGT"][1..] == [];
    assert Concat(["ACGT"]) == "ACGT";
  }

  lemma UpperAcgt()
    ensures Upper("ACGT") == "ACGT"
  {
    var s := "ACGT";
    forall i | 0 <= i < |s|
      ensures !IsLowerAscii(s[i])
    {
      if i == 0 {
        assert s[i] == 'A';
      } else if i == 1 {
        assert s[i] == 'C';
      } else if i == 2 {
        assert s[i] == 'G';
      } else {
        assert s[i] == 'T';
      }
    }
    UpperIdentity(s);
  }

  lemma FirstWordAfterBlank()
    ensures FirstWord(" seq1") == Some("seq1")
  {
    assert " seq1"[1..] == "seq1";
    assert TrimStart(Py, "seq1") == "seq1";
    assert TrimStart(Py, " seq1") == "seq1";
    TokenPrefixNoSpace(Py, "seq1");
  }

  /** A bare '>' line makes Python raise; the TypeScript reader drops it. */
  lemma BareMarker()
    ensures ParseFasta.FastaRecords(">\nACGT") == []
    ensures PyFasta(">\nACGT") == None
  {
    BareMarkerJs();
    BareMarkerPy();
  }

  lemma BareMarkerLines()
    ensures Split(">\nACGT", '\n') == [">", "ACGT"]
  {
    SplitTwoLines(">", "ACGT");
    assert ">\nACGT" == ">" + "\n" + "ACGT";
  }

  lemma BareMarkerJs()
    ensures ParseFasta.FastaRecords(">\nACGT") == []
  {
    BareMarkerLines();
    Unstripped(">");
    Unstripped("ACGT");
    assert ">"[1..] == "";
    assert ParseFasta.Scan("", [], [">", "ACGT"][1..]) == ParseFasta.Scan("", [], []) == [];
  }

  lemma BareMarkerPy()
    ensures PyFasta(">\nACGT") == None
  {
    BareMarkerLines();
    Unstripped(">");
    assert ">"[1..] == "";
    assert FirstWord("") == None;
  }

  /**
   * Of several records of one name the dictionary keeps the last one's
   * sequence, where the TypeScript reader keeps every record.
   */
  lemma {:induction false} IntoLastWins(acc: map<string, string>, rs: seq<Contig>, i: nat)
    requires i < |rs|
    requires forall j :: i < j < |rs| ==> rs[j].name != rs[i].name
    ensures rs[i].name in Into(acc, rs) && Into(acc, rs)[rs[i].name] == rs[i].sequence
    decreases |rs|
  {
    var acc' := acc[rs[0].name := rs[0].sequence];
    if i == 0 {
      IntoUntouched(acc', rs[1..], rs[0].name);
    } else {
      IntoLastWins(acc', rs[1..], i - 1);
    }
  }

  /** A name no later record has keeps its entry. */
  lemma {:induction false} IntoUntouched(acc: map<string, string>, rs: seq<Contig>, n: string)
    requires n in acc
    requires forall j :: 0 <= j < |rs| ==> rs[j].name != n
    ensures n in Into(acc, rs) && Into(acc, rs)[n] == acc[n]
    decreases |rs|
  {
    if rs != [] {
      IntoUntouched(acc[rs[0].name := rs[0].sequence], rs[1..], n);
    }
  }
}
