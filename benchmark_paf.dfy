/**
 * The benchmark's own alignment reader (`parse_paf` in scripts/benchmark.py).
 * Python's `int()` is strict where JavaScript's `parseInt` is lenient: a
 * line is kept only when all seven integer columns parse, and where they
 * parse without digit-group underscores or Python-only whitespace, the hit
 * is the one the TypeScript reader gives.
 */
module BenchmarkPaf {
  import opened Wrappers
  import opened Text
  import opened Numbers
  import opened Types
  import Align

  /** One hit as the benchmark's dictionary holds it: integers stay integers, the identity is a percentage. */
  datatype PyHit = PyHit(
    targetName: string,
    queryName: string,
    identity: real,
    alignmentLength: int,
    targetStart: int,
    targetEnd: int,
    queryStart: int,
    queryEnd: int,
    targetLength: int)

  /** Each of the seven integer columns of a line of at least 12 fields parses with `int()`. */
  predicate IntsRead(fields: seq<string>)
    requires |fields| >= 12
  {
    && ParseIntPy(fields[1]).Some? && ParseIntPy(fields[2]).Some? && ParseIntPy(fields[3]).Some?
    && ParseIntPy(fields[7]).Some? && ParseIntPy(fields[8]).Some?
    && ParseIntPy(fields[9]).Some? && ParseIntPy(fields[10]).Some?
  }

  /** The seven integer columns of a line, as `int()` read them. */
  datatype Columns = Columns(qLen: int, qStart: int, qEnd: int, tStart: int, tEnd: int, nMatch: int, blockLen: int)

  /** The integer columns, or None when one of them raises ValueError. */
  function ReadInts(fields: seq<string>): Option<Columns>
    requires |fields| >= 12
  {
    if !IntsRead(fields) then None
    else Some(Columns(
      ParseIntPy(fields[1]).value, ParseIntPy(fields[2]).value, ParseIntPy(fields[3]).value,
      ParseIntPy(fields[7]).value, ParseIntPy(fields[8]).value,
      ParseIntPy(fields[9]).value, ParseIntPy(fields[10]).value))
  }

  /** The dictionary the loop appends for a line whose integer columns read as `c`. */
  function PyHitOf(fields: seq<string>, c: Columns): PyHit
    requires |fields| >= 12 && c.blockLen != 0
  {
    PyHit(
      targetName := fields[0],
      queryName := fields[5],
      identity := (c.nMatch as real / c.blockLen as real) * 100.0,
      alignmentLength := c.qEnd - c.qStart,
      targetStart := c.qStart,
      targetEnd := c.qEnd,
      queryStart := c.tStart,
      queryEnd := c.tEnd,
      targetLength := c.qLen)
  }

  /** The hit of a line's fields: None for a line skipped by the length check, a ValueError or a zero block. */
  function PyFieldsHit(fields: seq<string>): Option<PyHit> {
    if |fields| < 12 then None
    else
      match ReadInts(fields)
      case None => None
      case Some(c) => if c.blockLen == 0 then None else Some(PyHitOf(fields, c))
  }

  function PyPafLine(line: string): Option<PyHit> {
    if line == "" then None else PyFieldsHit(Split(line, '\t'))
  }

  function PyLineHits(line: string): seq<PyHit> {
    match PyPafLine(line)
    case Some(h) => [h]
    case None => []
  }

  function PyPafHits(lines: seq<string>): seq<PyHit> {
    if lines == [] then [] else PyLineHits(lines[0]) + PyPafHits(lines[1..])
  }

  function PyPafLines(pafText: string): seq<string> {
    Split(Trim(Py, pafText), '\n')
  }

  /** What `parse_paf(paf_text)` returns. */
  function PyParsedPaf(pafText: string): seq<PyHit> {
    PyPafHits(PyPafLines(pafText))
  }

  lemma SkipLine(hits: seq<PyHit>, lines: seq<string>, i: nat, all: seq<PyHit>)
    requires i < |lines| && PyLineHits(lines[i]) == []
    requires hits + PyPafHits(lines[i..]) == all
    ensures hits + PyPafHits(lines[i + 1..]) == all
  {
    assert lines[i..][0] == lines[i] && lines[i..][1..] == lines[i + 1..];
    assert PyPafHits(lines[i..]) == PyLineHits(lines[i]) + PyPafHits(lines[i + 1..]);
    assert [] + PyPafHits(lines[i + 1..]) == PyPafHits(lines[i + 1..]);
  }

  lemma TakeLine(hits: seq<PyHit>, lines: seq<string>, i: nat, all: seq<PyHit>, hit: PyHit)
    requires i < |lines| && PyLineHits(lines[i]) == [hit]
    requires hits + PyPafHits(lines[i..]) == all
    ensures (hits + [hit]) + PyPafHits(lines[i + 1..]) == all
  {
    assert lines[i..][0] == lines[i] && lines[i..][1..] == lines[i + 1..];
  }

  /** `parse_paf`, with the source's loop, its skips and its `try`. */
  method PyParsePaf(pafText: string) returns (hits: seq<PyHit>)
    ensures hits == PyParsedPaf(pafText)
  {
    hits := [];
    var lines := PyPafLines(pafText);
    ghost var all := PyParsedPaf(pafText);
    for i := 0 to |lines|
      invariant hits + PyPafHits(lines[i..]) == all
    {
      var line := lines[i];
      if line == "" {
        SkipLine(hits, lines, i, all);
        continue;
      }
      var fields := Split(line, '\t');
      if |fields| < 12 {
        SkipLine(hits, lines, i, all);
        continue;
      }
      var qLen := ParseIntPy(fields[1]);
      var qStart := ParseIntPy(fields[2]);
      var qEnd := ParseIntPy(fields[3]);
      var tStart := ParseIntPy(fields[7]);
      var tEnd := ParseIntPy(fields[8]);
      var nMatch := ParseIntPy(fields[9]);
      var blockLen := ParseIntPy(fields[10]);
      if qLen.None? || qStart.None? || qEnd.None? || tStart.None? || tEnd.None? || nMatch.None? || blockLen.None? {
        // ValueError
        assert ReadInts(fields) == None;
        assert PyPafLine(line) == None;
        SkipLine(hits, lines, i, all);
        continue;
      }
      var cols := Columns(qLen.value, qStart.value, qEnd.value, tStart.value, tEnd.value, nMatch.value, blockLen.value);
      assert ReadInts(fields) == Some(cols);
      if blockLen.value == 0 {
        assert PyPafLine(line) == None;
        SkipLine(hits, lines, i, all);
        continue;
      }
      var hit := PyHitOf(fields, cols);
      assert PyPafLine(line) == Some(hit);
      TakeLine(hits, lines, i, all, hit);
      hits := hits + [hit];
    }
    assert lines[|lines|..] == [];
  }

  /**
   * A line gives a hit exactly when it has at least 12 fields, every one of
   * the seven integer columns parses and the block length (column 10) is
   * not zero.
   */
  lemma PyPafLineAccepted(line: string)
    ensures var fields := Split(line, '\t');
      PyPafLine(line).Some? <==>
        |fields| >= 12 && IntsRead(fields) && ParseIntPy(fields[10]).value != 0
  {
    var fields := Split(line, '\t');
    if line == "" {
      assert '\t' !in line;
    }
  }

  /** A percentage `id` of `n` in `b`, times `b`, is a hundred times `n`. */
  lemma Percentage(n: int, b: int, id: real)
    requires b != 0 && id == (n as real / b as real) * 100.0
    ensures id * (b as real) == 100.0 * (n as real)
  {
    var q := n as real / b as real;
    assert q * (b as real) == n as real;
    assert (q * 100.0) * (b as real) == 100.0 * (q * (b as real));
  }

  /**
   * The hit of integer columns `c`: the identity is the percentage of
   * matching bases in the block, the length the span on the allele, and
   * the positions and lengths are the columns' integers.
   */
  lemma PyHitContents(fields: seq<string>, c: Columns)
    requires |fields| >= 12 && c.blockLen != 0
    ensures var h := PyHitOf(fields, c);
      && h.identity * (c.blockLen as real) == 100.0 * (c.nMatch as real)
      && h.alignmentLength == h.targetEnd - h.targetStart
      && h.targetName == fields[0] && h.queryName == fields[5]
      && h.targetLength == c.qLen && h.targetStart == c.qStart && h.targetEnd == c.qEnd
      && h.queryStart == c.tStart && h.queryEnd == c.tEnd
  {
    Percentage(c.nMatch, c.blockLen, PyHitOf(fields, c).identity);
  }

  /** An accepted line's hit is that of its integer columns, read one by one with `int()`. */
  lemma PyFieldsHitColumns(fields: seq<string>)
    requires PyFieldsHit(fields).Some?
    ensures |fields| >= 12 && IntsRead(fields) && ParseIntPy(fields[10]).value != 0
    ensures PyFieldsHit(fields) == Some(PyHitOf(fields, Columns(
      ParseIntPy(fields[1]).value, ParseIntPy(fields[2]).value, ParseIntPy(fields[3]).value,
      ParseIntPy(fields[7]).value, ParseIntPy(fields[8]).value,
      ParseIntPy(fields[9]).value, ParseIntPy(fields[10]).value)))
  {
  }

  // ----- agreement with the TypeScript reader -----

  /** The hit as the TypeScript code holds it. */
  function ToJs(h: PyHit): AlignmentHit {
    AlignmentHit(
      queryName := h.queryName,
      targetName := h.targetName,
      identity := Num(h.identity),
      alignmentLength := FromInt(h.alignmentLength),
      queryStart := FromInt(h.queryStart),
      queryEnd := FromInt(h.queryEnd),
      targetStart := FromInt(h.targetStart),
      targetEnd := FromInt(h.targetEnd),
      targetLength := FromInt(h.targetLength))
  }

  /** An integer column both readers read alike: no underscore and no Python-only whitespace. */
  predicate PlainInt(s: string) {
    '_' !in s && PySpacesAreJsSpaces(s)
  }

  lemma ReadsAlike(s: string)
    requires ParseIntPy(s).Some? && PlainInt(s)
    ensures ParseIntJs(s) == ParseIntPy(s) && Align.JsInt(s) == FromInt(ParseIntPy(s).value)
  {
    ParseIntPyImpliesJs(s);
  }

  /** Columns `parseInt` reads as the integers `c` give the TypeScript hit of `c`'s Python hit. */
  lemma HitOfAgrees(fields: seq<string>, c: Columns)
    requires |fields| >= 12 && c.blockLen != 0
    requires ParseIntJs(fields[9]) == Some(c.nMatch) && ParseIntJs(fields[10]) == Some(c.blockLen)
    requires Align.JsInt(fields[1]) == FromInt(c.qLen)
    requires Align.JsInt(fields[2]) == FromInt(c.qStart) && Align.JsInt(fields[3]) == FromInt(c.qEnd)
    requires Align.JsInt(fields[7]) == FromInt(c.tStart) && Align.JsInt(fields[8]) == FromInt(c.tEnd)
    ensures Align.FieldsHit(fields) == Some(ToJs(PyHitOf(fields, c)))
  {
    assert Align.FieldsHit(fields) == Some(Align.HitOf(fields, c.nMatch, c.blockLen));
    assert (c.qEnd - c.qStart) as real == c.qEnd as real - c.qStart as real;
  }

  /**
   * Every line Python keeps whose integer columns are plain, the TypeScript
   * reader keeps too, with the same hit.
   */
  lemma PyFieldsHitAgrees(fields: seq<string>)
    requires PyFieldsHit(fields).Some?
    requires PlainInt(fields[1]) && PlainInt(fields[2]) && PlainInt(fields[3])
    requires PlainInt(fields[7]) && PlainInt(fields[8]) && PlainInt(fields[9]) && PlainInt(fields[10])
    ensures Align.FieldsHit(fields) == Some(ToJs(PyFieldsHit(fields).value))
  {
    PyFieldsHitColumns(fields);
    ReadsAlike(fields[1]);
    ReadsAlike(fields[2]);
    ReadsAlike(fields[3]);
    ReadsAlike(fields[7]);
    ReadsAlike(fields[8]);
    ReadsAlike(fields[9]);
    ReadsAlike(fields[10]);
    var c := ReadInts(fields).value;
    HitOfAgrees(fields, c);
  }

  /** The TypeScript hits of Python hits, in order. */
  function ToJsAll(hs: seq<PyHit>): (r: seq<AlignmentHit>)
    ensures |r| == |hs| && forall k :: 0 <= k < |hs| ==> r[k] == ToJs(hs[k])
  {
    if hs == [] then [] else [ToJs(hs[0])] + ToJsAll(hs[1..])
  }

  /** A line on which the two readers agree: Python keeps it with plain integer columns, or both skip it. */
  predicate LineAgrees(line: string) {
    var fields := Split(line, '\t');
    if PyPafLine(line).Some? then
      && PlainInt(fields[1]) && PlainInt(fields[2]) && PlainInt(fields[3])
      && PlainInt(fields[7]) && PlainInt(fields[8]) && PlainInt(fields[9]) && PlainInt(fields[10])
    else Align.PafLine(line).None?
  }

  lemma LineHitsAgree(line: string)
    requires LineAgrees(line)
    ensures Align.LineHits(line) == ToJsAll(PyLineHits(line))
  {
    if PyPafLine(line).Some? {
      PyFieldsHitAgrees(Split(line, '\t'));
    }
  }

  /** Over lines on which the two readers agree, the TypeScript hits are the Python hits, converted, in order. */
  lemma {:induction false} PafHitsAgree(lines: seq<string>)
    requires forall k :: 0 <= k < |lines| ==> LineAgrees(lines[k])
    ensures Align.PafHits(lines) == ToJsAll(PyPafHits(lines))
  {
    if lines != [] {
      LineHitsAgree(lines[0]);
      PafHitsAgree(lines[1..]);
      ToJsAllAppend(PyLineHits(lines[0]), PyPafHits(lines[1..]));
    }
  }

  lemma ToJsAllAppend(a: seq<PyHit>, b: seq<PyHit>)
    ensures ToJsAll(a + b) == ToJsAll(a) + ToJsAll(b)
  {
  }

  /**
   * A column with trailing junk: `parseInt` reads its leading digits where
   * `int()` raises, so a line of such columns is a hit for the TypeScript
   * reader and skipped by Python.
   */
  lemma TrailingJunkKeptByTsOnly()
    ensures var fields := seq(12, _ => "12x");
      Align.FieldsHit(fields).Some? && PyFieldsHit(fields).None?
  {
    var fields := seq(12, _ => "12x");
    ParseIntTrailingJunk();
    assert fields[9] == "12x" && fields[10] == "12x" && fields[1] == "12x";
  }

  /**
   * A column with a digit-group underscore: both readers keep the line but
   * read different numbers (`1_0` is ten to Python and one to `parseInt`).
   */
  lemma UnderscoreReadDifferently()
    ensures var fields := seq(12, _ => "1_0");
      && Align.FieldsHit(fields).Some? && PyFieldsHit(fields).Some?
      && PyFieldsHit(fields).value.targetLength == 10
      && Align.FieldsHit(fields).value.targetLength == Num(1.0)
  {
    var fields := seq(12, _ => "1_0");
    ParseIntUnderscore();
    assert fields[1] == "1_0" && fields[2] == "1_0" && fields[3] == "1_0" && fields[7] == "1_0";
    assert fields[8] == "1_0" && fields[9] == "1_0" && fields[10] == "1_0";
  }
}
