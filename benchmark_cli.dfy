/**
 * The benchmark's reading of the reference `mlst` tool's output
 * (`run_mlst_cli` in scripts/benchmark.py). The tool itself is not run
 * here: its standard output is the parameter. Each non-empty line is
 * tab-separated: the genome's path, the scheme, the sequence type, then
 * one field per locus such as `aroC(1)`, `aroC(~1)` or `aroC(-)`.
 */
module BenchmarkCli {
  import opened Wrappers
  import opened Text
  import opened Types

  // ----- Path(p).name -----

  /** The last component that is neither empty nor "." (`pathlib` drops both). */
  function LastComponent(parts: seq<string>): (r: string)
    ensures r == "" || r in parts
    ensures r != "."
  {
    if |parts| == 0 then ""
    else
      var last := parts[|parts| - 1];
      if last == "" || last == "." then LastComponent(parts[..|parts| - 1]) else last
  }

  /** `Path(p).name` for a POSIX path: a name without '/', never ".". */
  function PathName(p: string): (r: string)
    ensures '/' !in r && r != "."
  {
    var parts := Split(p, '/');
    var r := LastComponent(parts);
    assert r == "" || r in parts;
    r
  }

  /** Splitting after one more separator adds the tail as one more part. */
  lemma SplitAppend(s: string, sep: char, f: string)
    requires sep !in f
    ensures Split(s + [sep] + f, sep) == Split(s, sep) + [f]
  {
    var parts := Split(s, sep) + [f];
    JoinSnoc(Split(s, sep), [sep], f);
    assert forall i :: 0 <= i < |parts| ==> sep !in parts[i] by {
      forall i | 0 <= i < |parts| ensures sep !in parts[i] {
        if i < |parts| - 1 {
          assert parts[i] == Split(s, sep)[i];
        }
      }
    }
    SplitJoin(parts, sep);
  }

  /** The name of `dir/f` is `f` for any file name `f`. */
  lemma PathNameOfJoin(dir: string, f: string)
    requires '/' !in f && f != "" && f != "."
    ensures PathName(dir + "/" + f) == f
  {
    SplitAppend(dir, '/', f);
    var parts := Split(dir, '/') + [f];
    assert parts[|parts| - 1] == f;
  }

  /** A trailing slash or "." component does not change the name. */
  lemma PathNameIgnoresTrailing(p: string, tail: string)
    requires tail == "" || tail == "."
    ensures PathName(p + "/" + tail) == PathName(p)
  {
    SplitAppend(p, '/', tail);
    var parts := Split(p, '/') + [tail];
    assert parts[..|parts| - 1] == Split(p, '/');
  }

  // ----- one allele field -----

  /** `s.rstrip(c)`: `s` without its run of trailing `c`. */
  function RStripChar(s: string, c: char): (r: string)
    ensures |r| <= |s| && r == s[..|r|]
    ensures |r| > 0 ==> r[|r| - 1] != c
    ensures forall i :: |r| <= i < |s| ==> s[i] == c
  {
    if |s| > 0 && s[|s| - 1] == c then RStripChar(s[..|s| - 1], c) else s
  }

  /** A value marked approximate ("~1") is read as novel, "-" as no hit. */
  function AlleleValue(raw: string): string {
    if StartsWith(raw, "~") then NovelText
    else if raw == "-" then NoHitText
    else raw
  }

  /** One locus call of the output: the locus and its (normalised) value. */
  datatype CliAllele = CliAllele(locus: string, value: string)

  /**
   * An allele field: only one containing '(' is read; the locus is the text
   * before the first '(', the value the text between it and the next '('
   * without trailing ')'.
   */
  function AlleleField(f: string): (r: Option<CliAllele>)
    ensures r.None? <==> '(' !in f
    ensures r.Some? ==> '(' !in r.value.locus && StartsWith(f, r.value.locus + "(")
  {
    if '(' !in f then None
    else
      var parts := Split(f, '(');
      assert f == parts[0] + "(" + Join(parts[1..], "(");
      assert (parts[0] + "(") == f[..|parts[0]| + 1];
      Some(CliAllele(parts[0], AlleleValue(RStripChar(parts[1], ')'))))
  }

  /**
   * The field the tool writes for a locus reads back as that locus and its
   * value, with "~" values read as novel and "-" as no hit.
   */
  lemma AlleleFieldRoundTrip(locus: string, n: string)
    requires '(' !in locus && '(' !in n && ')' !in n
    ensures var r := AlleleField(locus + "(" + n + ")");
      && r.Some? && r.value.locus == locus
      && (StartsWith(n, "~") ==> r.value.value == NovelText)
      && (n == "-" ==> r.value.value == NoHitText)
      && (!StartsWith(n, "~") && n != "-" ==> r.value.value == n)
  {
    var f := locus + "(" + n + ")";
    var parts := [locus, n + ")"];
    assert Join(parts, "(") == f;
    assert '(' !in n + ")";
    assert "(" == ['('];
    SplitJoin(parts, '(');
    assert RStripChar(n + ")", ')') == RStripChar(n, ')');
    if |n| > 0 {
      assert n[|n| - 1] in n;
    }
    assert RStripChar(n, ')') == n;
  }

  /** The alleles of a line's fields: later fields for a locus overwrite earlier ones. */
  function FieldAlleles(fs: seq<string>): map<string, string> {
    if |fs| == 0 then map[]
    else
      var m := FieldAlleles(fs[..|fs| - 1]);
      match AlleleField(fs[|fs| - 1])
      case None => m
      case Some(a) => m[a.locus := a.value]
  }

  /** Field `f` calls locus `l`. */
  predicate Calls(f: string, l: string) {
    AlleleField(f).Some? && AlleleField(f).value.locus == l
  }

  /** A locus has a value exactly when some field calls it. */
  lemma {:induction false} FieldAllelesKeys(fs: seq<string>, l: string)
    ensures l in FieldAlleles(fs) <==> exists i :: 0 <= i < |fs| && Calls(fs[i], l)
  {
    if |fs| > 0 {
      var init := fs[..|fs| - 1];
      FieldAllelesKeys(init, l);
      FieldAllelesStep(fs, l);
      if l in FieldAlleles(fs) && !Calls(fs[|fs| - 1], l) {
        var i :| 0 <= i < |init| && Calls(init[i], l);
        assert fs[i] == init[i];
      }
      if l !in FieldAlleles(fs) {
        assert l !in FieldAlleles(init);
        forall i | 0 <= i < |fs| ensures !Calls(fs[i], l) {
          if i < |init| {
            assert !Calls(init[i], l);
            assert fs[i] == init[i];
          } else {
            assert i == |fs| - 1;
          }
        }
      }
    }
  }



  lemma FieldAllelesStep(fs: seq<string>, l: string)
    requires |fs| > 0
    ensures l in FieldAlleles(fs) <==> l in FieldAlleles(fs[..|fs| - 1]) || Calls(fs[|fs| - 1], l)
  {
  }

  /** A locus called by several fields takes the value of the last of them. */
  lemma {:induction false} FieldAllelesLastWins(fs: seq<string>, i: nat, l: string)
    requires i < |fs| && Calls(fs[i], l)
    requires forall j :: i < j < |fs| ==> !Calls(fs[j], l)
    ensures l in FieldAlleles(fs) && FieldAlleles(fs)[l] == AlleleField(fs[i]).value.value
  {
    if i < |fs| - 1 {
      var init := fs[..|fs| - 1];
      assert init[i] == fs[i];
      forall j | i < j < |init| ensures !Calls(init[j], l) {
        assert init[j] == fs[j];
      }
      FieldAllelesLastWins(init, i, l);
    }
  }

  // ----- one line -----

  /** What the benchmark stores for a genome. */
  datatype CliRecord = CliRecord(scheme: string, st: string, alleles: map<string, string>)

  datatype CliLine = CliLine(filename: string, record: CliRecord)

  /** A line of output: skipped when empty or with fewer than three fields. */
  function LineEntry(line: string): Option<CliLine> {
    if line == "" then None
    else
      var fields := Split(line, '\t');
      if |fields| < 3 then None
      else Some(CliLine(PathName(fields[0]), CliRecord(fields[1], fields[2], FieldAlleles(fields[3..]))))
  }

  /**
   * The line the tool writes for a genome (its path, scheme, type and
   * calls, joined by tabs) reads back as the path's name, the scheme, the
   * type and the calls' alleles.
   */
  lemma LineRoundTrip(fields: seq<string>)
    requires |fields| >= 3
    requires forall i :: 0 <= i < |fields| ==> '\t' !in fields[i]
    ensures LineEntry(Join(fields, "\t"))
         == Some(CliLine(PathName(fields[0]), CliRecord(fields[1], fields[2], FieldAlleles(fields[3..]))))
  {
    var line := Join(fields, "\t");
    assert "\t" == ['\t'];
    SplitJoin(fields, '\t');
    assert |Split(line, '\t')| >= 3;
  }

  /** The entry each line gives, in order. */
  function Entries(lines: seq<string>): (es: seq<Option<CliLine>>)
    ensures |es| == |lines| && forall i :: 0 <= i < |lines| ==> es[i] == LineEntry(lines[i])
  {
    seq(|lines|, i requires 0 <= i < |lines| => LineEntry(lines[i]))
  }

  /** The records of a run's entries: one per genome name, a later entry for a name winning. */
  function Collect(es: seq<Option<CliLine>>): map<string, CliRecord> {
    if |es| == 0 then map[]
    else
      var m := Collect(es[..|es| - 1]);
      match es[|es| - 1]
      case None => m
      case Some(e) => m[e.filename := e.record]
  }

  /** The results of a run, one record per genome name. */
  function CliResults(lines: seq<string>): map<string, CliRecord> {
    Collect(Entries(lines))
  }

  /** `run_mlst_cli` on the tool's standard output. */
  function ParsedCli(stdout: string): map<string, CliRecord> {
    CliResults(Split(Trim(Py, stdout), '\n'))
  }

  /** Entry `e` is a record for genome `name`. */
  predicate Names(e: Option<CliLine>, name: string) {
    e.Some? && e.value.filename == name
  }

  lemma {:induction false} CollectKeys(es: seq<Option<CliLine>>, name: string)
    ensures name in Collect(es) <==> exists i :: 0 <= i < |es| && Names(es[i], name)
  {
    if |es| > 0 {
      var init := es[..|es| - 1];
      CollectKeys(init, name);
      if name in Collect(es) && !Names(es[|es| - 1], name) {
        var i :| 0 <= i < |init| && Names(init[i], name);
        assert es[i] == init[i];
      }
      if name !in Collect(es) {
        forall i | 0 <= i < |es| ensures !Names(es[i], name) {
          if i < |init| {
            assert es[i] == init[i];
          }
        }
      }
    }
  }

  lemma {:induction false} CollectLastWins(es: seq<Option<CliLine>>, i: nat, name: string)
    requires i < |es| && Names(es[i], name)
    requires forall j :: i < j < |es| ==> !Names(es[j], name)
    ensures name in Collect(es) && Collect(es)[name] == es[i].value.record
  {
    if i < |es| - 1 {
      var init := es[..|es| - 1];
      assert init[i] == es[i];
      forall j | i < j < |init| ensures !Names(init[j], name) {
        assert init[j] == es[j];
      }
      CollectLastWins(init, i, name);
    }
  }

  lemma CollectStep(es: seq<Option<CliLine>>, i: nat)
    requires i < |es|
    ensures es[i].None? ==> Collect(es[..i + 1]) == Collect(es[..i])
    ensures es[i].Some? ==> Collect(es[..i + 1]) == Collect(es[..i])[es[i].value.filename := es[i].value.record]
  {
    assert es[..i + 1][..i] == es[..i];
  }

  /** Line `line` reports genome `name`. */
  predicate Reports(line: string, name: string) {
    Names(LineEntry(line), name)
  }

  /** A genome has a record exactly when some line reports it. */
  lemma CliResultsKeys(lines: seq<string>, name: string)
    ensures name in CliResults(lines) <==> exists i :: 0 <= i < |lines| && Reports(lines[i], name)
  {
    var es := Entries(lines);
    CollectKeys(es, name);
    if name in CliResults(lines) {
      var i :| 0 <= i < |es| && Names(es[i], name);
      assert Reports(lines[i], name);
    }
  }

  /** A genome reported twice (the same file name in two directories) keeps only the last line's record. */
  lemma CliResultsLastWins(lines: seq<string>, i: nat, name: string)
    requires i < |lines| && Reports(lines[i], name)
    requires forall j :: i < j < |lines| ==> !Reports(lines[j], name)
    ensures name in CliResults(lines) && CliResults(lines)[name] == LineEntry(lines[i]).value.record
  {
    var es := Entries(lines);
    forall j | i < j < |es| ensures !Names(es[j], name) {
      assert !Reports(lines[j], name);
    }
    CollectLastWins(es, i, name);
  }

  /** The allele fields of one line, read in order (the inner loop of the parse). */
  method ReadAlleleFields(rest: seq<string>) returns (alleles: map<string, string>)
    ensures alleles == FieldAlleles(rest)
  {
    alleles := map[];
    for j := 0 to |rest|
      invariant alleles == FieldAlleles(rest[..j])
    {
      var f := rest[j];
      assert rest[..j + 1][..j] == rest[..j];
      assert rest[..j + 1][j] == f;
      if '(' in f {
        var parts := Split(f, '(');
        var locus := parts[0];
        var value := RStripChar(parts[1], ')');
        if StartsWith(value, "~") {
          value := NovelText;
        } else if value == "-" {
          value := NoHitText;
        }
        assert AlleleField(f) == Some(CliAllele(locus, value));
        alleles := alleles[locus := value];
      } else {
        assert AlleleField(f) == None;
      }
    }
    assert rest[..|rest|] == rest;
  }

  /** The parse as the benchmark performs it, line by line and field by field. */
  method ParseMlstOutput(stdout: string) returns (results: map<string, CliRecord>)
    ensures results == ParsedCli(stdout)
  {
    var lines := Split(Trim(Py, stdout), '\n');
    ghost var es := Entries(lines);
    results := map[];
    for i := 0 to |lines|
      invariant results == Collect(es[..i])
    {
      var line := lines[i];
      assert es[i] == LineEntry(line);
      CollectStep(es, i);
      if line == "" {
        assert LineEntry(line) == None;
        continue;
      }
      var fields := Split(line, '\t');
      if |fields| < 3 {
        assert LineEntry(line) == None;
        continue;
      }
      var filename := PathName(fields[0]);
      var scheme := fields[1];
      var st := fields[2];
      var rest := fields[3..];
      var alleles := ReadAlleleFields(rest);
      assert LineEntry(line) == Some(CliLine(filename, CliRecord(scheme, st, alleles)));
      results := results[filename := CliRecord(scheme, st, alleles)];
    }
    assert es[..|lines|] == es;
  }
}
