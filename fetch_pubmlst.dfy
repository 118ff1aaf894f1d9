/**
 * The scheme-conversion script (scripts/fetch_pubmlst.ts): reading a
 * tab-separated profile table into profiles, deriving the loci of a scheme
 * from its allele file names, and the sorted list of scheme names written
 * at the end of a run.
 */
module FetchPubmlst {
  import opened Wrappers
  import opened Text
  import opened Types

  // ----- the profile table -----

  /** `header.indexOf(locus)` for a locus the header names: its first column. */
  function FirstColumn(header: seq<string>, locus: string): (i: nat)
    requires locus in header
    ensures i < |header| && header[i] == locus && locus !in header[..i]
  {
    if header[0] == locus then 0
    else
      var i := 1 + FirstColumn(header[1..], locus);
      assert header[..i] == [header[0]] + header[1..][..i - 1];
      i
  }

  /** `header.indexOf(locus)`, which is -1 for a locus the header does not name. */
  function IndexOfColumn(header: seq<string>, locus: string): int {
    if locus in header then FirstColumn(header, locus) else -1
  }

  /** The `lociIndices` record: each requested locus the header names, with its first column. */
  function ColumnIndices(header: seq<string>, loci: seq<string>): map<string, nat> {
    map l | l in loci && l in header :: FirstColumn(header, l)
  }

  /**
   * What a row gives a locus: '' for a locus the header lacks, otherwise
   * the row's field in that column, or nothing when the row is too short
   * to have one (`fields[idx]` is `undefined`, a key that is left out when
   * the profiles are written as JSON).
   */
  function Cell(fields: seq<string>, indices: map<string, nat>, locus: string): Option<string> {
    if locus !in indices then Some("")
    else if indices[locus] < |fields| then Some(fields[indices[locus]])
    else None
  }

  function RowAlleles(fields: seq<string>, indices: map<string, nat>, loci: seq<string>): map<string, string> {
    map l | l in loci && Cell(fields, indices, l).Some? :: Cell(fields, indices, l).value
  }

  function RowProfile(fields: seq<string>, indices: map<string, nat>, loci: seq<string>): STProfile
    requires |fields| >= 1
  {
    STProfile(fields[0], RowAlleles(fields, indices, loci))
  }

  /** A data row holds a profile when its first field is not empty. */
  predicate IsDataRow(row: string) {
    Split(row, '\t')[0] != ""
  }

  /** The profiles of the data rows, in row order. */
  function RowsProfiles(rows: seq<string>, indices: map<string, nat>, loci: seq<string>): seq<STProfile>
    decreases |rows|
  {
    if rows == [] then []
    else
      (if IsDataRow(rows[0]) then [RowProfile(Split(rows[0], '\t'), indices, loci)] else [])
      + RowsProfiles(rows[1..], indices, loci)
  }

  /**
   * `parseProfiles` on the text of a profile file: the first line of the
   * trimmed text is the header, the rest are rows; with fewer than two
   * lines there are no profiles.
   */
  function Profiles(text: string, loci: seq<string>): (r: seq<STProfile>)
    ensures '\n' !in Trim(Js, text) ==> r == []
  {
    var lines := Split(Trim(Js, text), '\n');
    if |lines| < 2 then []
    else
      var header := Split(lines[0], '\t');
      RowsProfiles(lines[1..], ColumnIndices(header, loci), loci)
  }

  /** A blank profile file gives no profiles. */
  lemma BlankTableNoProfiles(text: string, loci: seq<string>)
    requires AllSpace(Js, text)
    ensures Profiles(text, loci) == []
  {
    TrimAllSpace(Js, text);
  }

  lemma ProfilesOfLines(text: string, loci: seq<string>)
    requires |Split(Trim(Js, text), '\n')| >= 2
    ensures var lines := Split(Trim(Js, text), '\n');
      Profiles(text, loci) == RowsProfiles(lines[1..], ColumnIndices(Split(lines[0], '\t'), loci), loci)
  {
  }

  lemma ColumnIndicesStep(header: seq<string>, loci: seq<string>, k: nat, m: map<string, nat>)
    requires k < |loci| && m == ColumnIndices(header, loci[..k])
    ensures ColumnIndices(header, loci[..k + 1])
      == if loci[k] in header then m[loci[k] := FirstColumn(header, loci[k])] else m
  {
    assert loci[..k + 1] == loci[..k] + [loci[k]];
  }

  lemma RowAllelesStep(fields: seq<string>, indices: map<string, nat>, loci: seq<string>, k: nat, m: map<string, string>)
    requires k < |loci| && m == RowAlleles(fields, indices, loci[..k])
    ensures RowAlleles(fields, indices, loci[..k + 1])
      == match Cell(fields, indices, loci[k])
         case Some(v) => m[loci[k] := v]
         case None => m - {loci[k]}
  {
    assert loci[..k + 1] == loci[..k] + [loci[k]];
  }

  /** A step of the row loop over a row with an empty first field. */
  lemma SkipRow(acc: seq<STProfile>, rows: seq<string>, i: nat, indices: map<string, nat>, loci: seq<string>, all: seq<STProfile>)
    requires i < |rows| && !IsDataRow(rows[i])
    requires acc + RowsProfiles(rows[i..], indices, loci) == all
    ensures acc + RowsProfiles(rows[i + 1..], indices, loci) == all
  {
    assert rows[i..][0] == rows[i] && rows[i..][1..] == rows[i + 1..];
    assert acc + [] == acc;
  }

  /** A step of the row loop over a data row. */
  lemma TakeRow(acc: seq<STProfile>, rows: seq<string>, i: nat, indices: map<string, nat>, loci: seq<string>, all: seq<STProfile>)
    requires i < |rows| && IsDataRow(rows[i])
    requires acc + RowsProfiles(rows[i..], indices, loci) == all
    ensures (acc + [RowProfile(Split(rows[i], '\t'), indices, loci)]) + RowsProfiles(rows[i + 1..], indices, loci) == all
  {
    assert rows[i..][0] == rows[i] && rows[i..][1..] == rows[i + 1..];
  }

  /** `parseProfiles(profilePath, loci)`, given the file's text. */
  method ParseProfiles(text: string, loci: seq<string>) returns (profiles: seq<STProfile>)
    ensures profiles == Profiles(text, loci)
  {
    var lines := Split(Trim(Js, text), '\n');
    if |lines| < 2 {
      return [];
    }
    var header := Split(lines[0], '\t');
    var lociIndices := FindColumns(header, loci);
    ProfilesOfLines(text, loci);
    ghost var all := RowsProfiles(lines[1..], lociIndices, loci);
    profiles := [];
    var i := 1;
    while i < |lines|
      invariant 1 <= i <= |lines|
      invariant profiles + RowsProfiles(lines[i..], lociIndices, loci) == all
    {
      var fields := Split(lines[i], '\t');
      if fields[0] != "" {
        var alleles := ReadRow(fields, lociIndices, loci);
        TakeRow(profiles, lines, i, lociIndices, loci, all);
        profiles := profiles + [STProfile(fields[0], alleles)];
      } else {
        SkipRow(profiles, lines, i, lociIndices, loci, all);
      }
      i := i + 1;
    }
  }

  /** The loop of `parseProfiles` that fills `lociIndices`. */
  method FindColumns(header: seq<string>, loci: seq<string>) returns (lociIndices: map<string, nat>)
    ensures lociIndices == ColumnIndices(header, loci)
  {
    lociIndices := map[];
    for k := 0 to |loci|
      invariant lociIndices == ColumnIndices(header, loci[..k])
    {
      ColumnIndicesStep(header, loci, k, lociIndices);
      var idx := IndexOfColumn(header, loci[k]);
      if idx >= 0 {
        lociIndices := lociIndices[loci[k] := idx];
      }
    }
    assert loci[..|loci|] == loci;
  }

  /** The loop of `parseProfiles` that fills one profile's `alleles`. */
  method ReadRow(fields: seq<string>, lociIndices: map<string, nat>, loci: seq<string>)
    returns (alleles: map<string, string>)
    ensures alleles == RowAlleles(fields, lociIndices, loci)
  {
    alleles := map[];
    for k := 0 to |loci|
      invariant alleles == RowAlleles(fields, lociIndices, loci[..k])
    {
      RowAllelesStep(fields, lociIndices, loci, k, alleles);
      var locus := loci[k];
      if locus in lociIndices {
        var idx := lociIndices[locus];
        if idx < |fields| {
          alleles := alleles[locus := fields[idx]];
        } else {
          // `undefined`: no key in the written profile.
          alleles := alleles - {locus};
        }
      } else {
        alleles := alleles[locus := ""];
      }
    }
    assert loci[..|loci|] == loci;
  }

  /**
   * What a profile holds for each requested locus: '' when the header does
   * not name it, else the row's field in the column where the header first
   * names it, and no key at all when the row stops before that column.
   */
  lemma RowProfileCells(header: seq<string>, fields: seq<string>, loci: seq<string>, l: string)
    requires |fields| >= 1
    ensures var p := RowProfile(fields, ColumnIndices(header, loci), loci);
      && p.st == fields[0]
      && (l in p.alleles ==> l in loci)
      && (l in loci && l !in header ==> l in p.alleles && p.alleles[l] == "")
      && (l in loci && l in header && FirstColumn(header, l) < |fields| ==>
            l in p.alleles && p.alleles[l] == fields[FirstColumn(header, l)])
      && (l in header && FirstColumn(header, l) >= |fields| ==> l !in p.alleles)
  {
  }

  /** The data rows, in order: those whose first field is not empty. */
  function DataRows(rows: seq<string>): (r: seq<string>)
    ensures |r| <= |rows|
    ensures forall k :: 0 <= k < |r| ==> IsDataRow(r[k]) && r[k] in rows
    ensures forall row :: row in rows && IsDataRow(row) ==> row in r
  {
    if rows == [] then []
    else (if IsDataRow(rows[0]) then [rows[0]] else []) + DataRows(rows[1..])
  }

  /**
   * The profiles are exactly the data rows read one by one: one profile per
   * row with a non-empty first field, in row order, whose type is that field.
   */
  lemma {:induction false} ProfilesOfDataRows(rows: seq<string>, indices: map<string, nat>, loci: seq<string>)
    ensures var d := DataRows(rows);
      var r := RowsProfiles(rows, indices, loci);
      && |r| == |d|
      && forall k :: 0 <= k < |r| ==> r[k] == RowProfile(Split(d[k], '\t'), indices, loci) && r[k].st != ""
  {
    if rows != [] {
      ProfilesOfDataRows(rows[1..], indices, loci);
    }
  }

  /** Column positions in a header whose entries are all different. */
  lemma {:induction false} FirstColumnDistinct(header: seq<string>, k: nat)
    requires k < |header|
    requires Distinct(header)
    ensures FirstColumn(header, header[k]) == k
  {
  }

  predicate Distinct(xs: seq<string>) {
    forall i, j :: 0 <= i < j < |xs| ==> xs[i] != xs[j]
  }

  lemma DistinctHeader(loci: seq<string>)
    requires Distinct(loci) && "ST" !in loci
    ensures Distinct(["ST"] + loci)
  {
    var hs := ["ST"] + loci;
    forall i, j | 0 <= i < j < |hs|
      ensures hs[i] != hs[j]
    {
      assert hs[j] == loci[j - 1];
      if i > 0 {
        assert hs[i] == loci[i - 1];
      }
    }
  }

  lemma CellOfColumn(loci: seq<string>, fields: seq<string>, k: nat)
    requires Distinct(["ST"] + loci) && k < |loci| && |fields| == |loci| + 1
    ensures Cell(fields, ColumnIndices(["ST"] + loci, loci), loci[k]) == Some(fields[k + 1])
  {
    var hs := ["ST"] + loci;
    assert hs[k + 1] == loci[k];
    FirstColumnDistinct(hs, k + 1);
  }

  /** Each locus mapped to the value in the same position. */
  function Pairing(loci: seq<string>, values: seq<string>): map<string, string>
    requires |values| == |loci| && Distinct(loci)
  {
    map k | 0 <= k < |loci| :: loci[k] := values[k]
  }

  /**
   * A table written with an `ST` column, one column per locus (all
   * different, none named `ST`) and a row holding a type and one value per
   * locus reads back as that type with exactly those values.
   */
  lemma TableRowRoundTrip(loci: seq<string>, st: string, values: seq<string>)
    requires |values| == |loci| && st != ""
    requires Distinct(loci) && "ST" !in loci
    requires '\t' !in st && forall k :: 0 <= k < |loci| ==> '\t' !in loci[k] && '\t' !in values[k]
    ensures var header := Split(Join(["ST"] + loci, "\t"), '\t');
      var fields := Split(Join([st] + values, "\t"), '\t');
      && header == ["ST"] + loci
      && RowProfile(fields, ColumnIndices(header, loci), loci) == STProfile(st, Pairing(loci, values))
  {
    SplitPrefixed("ST", loci);
    SplitPrefixed(st, values);
    DistinctHeader(loci);
    RowAllelesPairing(loci, [st] + values, values);
  }

  /** A tab-joined line of fields without tabs splits back into them. */
  lemma SplitPrefixed(first: string, rest: seq<string>)
    requires '\t' !in first && forall k :: 0 <= k < |rest| ==> '\t' !in rest[k]
    ensures Split(Join([first] + rest, "\t"), '\t') == [first] + rest
  {
    var fs := [first] + rest;
    forall k | 0 <= k < |fs|
      ensures '\t' !in fs[k]
    {
      if k > 0 {
        assert fs[k] == rest[k - 1];
      }
    }
    assert "\t" == ['\t'];
    SplitJoin(fs, '\t');
  }

  lemma RowAllelesPairing(loci: seq<string>, fs: seq<string>, values: seq<string>)
    requires Distinct(loci) && Distinct(["ST"] + loci)
    requires |values| == |loci| && |fs| == |loci| + 1 && fs[1..] == values
    ensures RowAlleles(fs, ColumnIndices(["ST"] + loci, loci), loci) == Pairing(loci, values)
  {
    var got := RowAlleles(fs, ColumnIndices(["ST"] + loci, loci), loci);
    var want := Pairing(loci, values);
    forall l | l in want
      ensures l in got && got[l] == want[l]
    {
      var k :| 0 <= k < |loci| && loci[k] == l;
      PairingAt(loci, fs, values, k);
    }
    forall l | l in got
      ensures l in want
    {
      var k :| 0 <= k < |loci| && loci[k] == l;
      PairingValue(loci, values, k);
    }
    assert got.Keys == want.Keys;
  }

  lemma PairingAt(loci: seq<string>, fs: seq<string>, values: seq<string>, k: nat)
    requires Distinct(loci) && Distinct(["ST"] + loci)
    requires |values| == |loci| && |fs| == |loci| + 1 && fs[1..] == values && k < |loci|
    ensures var got := RowAlleles(fs, ColumnIndices(["ST"] + loci, loci), loci);
      loci[k] in got && got[loci[k]] == values[k] == Pairing(loci, values)[loci[k]]
  {
    var got := RowAlleles(fs, ColumnIndices(["ST"] + loci, loci), loci);
    CellOfColumn(loci, fs, k);
    assert loci[k] in got && got[loci[k]] == fs[k + 1];
    assert fs[k + 1] == values[k];
    PairingValue(loci, values, k);
  }

  lemma PairingValue(loci: seq<string>, values: seq<string>, k: nat)
    requires |values| == |loci| && Distinct(loci) && k < |loci|
    ensures loci[k] in Pairing(loci, values) && Pairing(loci, values)[loci[k]] == values[k]
  {
  }

  // ----- loci of a scheme -----

  /** The filter of `processScheme`: allele files end in `.tfa` or `.fasta`. */
  predicate IsAlleleFile(f: string) {
    EndsWith(f, ".tfa") || EndsWith(f, ".fasta")
  }

  /** `f.replace(/\.(tfa|fasta)$/, '')`: an allele file name less its suffix. */
  function LocusName(f: string): (l: string)
    ensures IsAlleleFile(f) ==> f == l + ".tfa" || f == l + ".fasta"
    ensures !IsAlleleFile(f) ==> l == f
  {
    if EndsWith(f, ".tfa") then f[..|f| - 4]
    else if EndsWith(f, ".fasta") then f[..|f| - 6]
    else f
  }

  /** Naming an allele file after a locus and deriving the locus back gives it again. */
  lemma LocusNameOfFile(l: string)
    ensures IsAlleleFile(l + ".tfa") && LocusName(l + ".tfa") == l
    ensures IsAlleleFile(l + ".fasta") && LocusName(l + ".fasta") == l
  {
    assert (l + ".tfa")[|l| + 4 - 4..] == ".tfa";
    assert (l + ".fasta")[|l| + 6 - 4..] == "asta";
    assert (l + ".fasta")[|l| + 6 - 6..] == ".fasta";
    assert (l + ".tfa")[..|l|] == l;
    assert (l + ".fasta")[..|l|] == l;
  }

  /** The copy written for an allele file is named after its locus, and names that locus again. */
  lemma CopyNamesLocus(f: string)
    requires IsAlleleFile(f)
    ensures LocusName(LocusName(f) + ".fasta") == LocusName(f)
  {
    LocusNameOfFile(LocusName(f));
  }

  /** `files.filter(f => f.endsWith('.tfa') || f.endsWith('.fasta'))`. */
  function AlleleFiles(files: seq<string>): (r: seq<string>)
    ensures |r| <= |files|
    ensures forall f :: f in r <==> f in files && IsAlleleFile(f)
    ensures (forall f :: f in files ==> !IsAlleleFile(f)) ==> r == []
  {
    if files == [] then []
    else (if IsAlleleFile(files[0]) then [files[0]] else []) + AlleleFiles(files[1..])
  }

  /** The loci of a scheme directory: one per allele file, in directory order. */
  function SchemeLoci(files: seq<string>): (loci: seq<string>)
    ensures |loci| == |AlleleFiles(files)|
    ensures (forall f :: f in files ==> !IsAlleleFile(f)) ==> loci == []
    ensures forall k :: 0 <= k < |loci| ==>
      var f := AlleleFiles(files)[k];
      f == loci[k] + ".tfa" || f == loci[k] + ".fasta"
  {
    var fs := AlleleFiles(files);
    seq(|fs|, k requires 0 <= k < |fs| => LocusName(fs[k]))
  }

  // ----- the list of schemes -----

  /** JavaScript's default string comparison: `a` sorts before `b`. */
  predicate Before(a: string, b: string)
    decreases |a|
  {
    |b| > 0 && (|a| == 0 || a[0] < b[0] || (a[0] == b[0] && Before(a[1..], b[1..])))
  }

  lemma {:induction false} BeforeIrreflexive(a: string)
    ensures !Before(a, a)
    decreases |a|
  {
    if |a| > 0 {
      BeforeIrreflexive(a[1..]);
    }
  }

  lemma {:induction false} BeforeTransitive(a: string, b: string, c: string)
    requires Before(a, b) && Before(b, c)
    ensures Before(a, c)
    decreases |a|
  {
    if |a| > 0 && a[0] == b[0] && b[0] == c[0] {
      BeforeTransitive(a[1..], b[1..], c[1..]);
    }
  }

  lemma {:induction false} BeforeTotal(a: string, b: string)
    ensures a == b || Before(a, b) || Before(b, a)
    decreases |a|
  {
    if |a| > 0 && |b| > 0 && a[0] == b[0] {
      BeforeTotal(a[1..], b[1..]);
      if a[1..] == b[1..] {
        assert a == [a[0]] + a[1..] && b == [b[0]] + b[1..];
      }
    }
  }

  /** Sorted, with no name twice. */
  predicate StrictlySorted(r: seq<string>) {
    forall i, j :: 0 <= i < j < |r| ==> Before(r[i], r[j])
  }

  /** Adds a name to a sorted list of names, keeping it sorted and without repeats. */
  function InsertName(r: seq<string>, x: string): (t: seq<string>)
    requires StrictlySorted(r)
    ensures StrictlySorted(t)
    ensures forall y :: y in t <==> y in r || y == x
  {
    if r == [] then [x]
    else if x == r[0] then r
    else if Before(x, r[0]) then
      assert forall j :: 0 <= j < |r| ==> Before(x, r[j]) by {
        forall j | 0 < j < |r|
          ensures Before(x, r[j])
        {
          BeforeTransitive(x, r[0], r[j]);
        }
      }
      [x] + r
    else
      BeforeTotal(x, r[0]);
      var t := InsertName(r[1..], x);
      assert forall y :: y in t ==> Before(r[0], y);
      [r[0]] + t
  }

  /** A strictly sorted list is fixed by its names: there is one way to sort a set. */
  lemma {:induction false} StrictlySortedUnique(r: seq<string>, t: seq<string>)
    requires StrictlySorted(r) && StrictlySorted(t)
    requires forall y :: y in r <==> y in t
    ensures r == t
  {
    if r != [] {
      assert r[0] in r;
    }
    if t != [] {
      assert t[0] in t;
    }
    if r != [] && t != [] {
      if r[0] != t[0] {
        var i :| 0 <= i < |t| && t[i] == r[0];
        var j :| 0 <= j < |r| && r[j] == t[0];
        assert Before(t[0], r[0]) && Before(r[0], t[0]);
        BeforeTransitive(r[0], t[0], r[0]);
        BeforeIrreflexive(r[0]);
      } else {
        forall y
          ensures y in r[1..] <==> y in t[1..]
        {
          if y in r[1..] {
            var j :| 1 <= j < |r| && r[j] == y;
            BeforeIrreflexive(y);
            assert y in r;
            var i :| 0 <= i < |t| && t[i] == y;
            assert i != 0;
            assert t[1..][i - 1] == y;
          }
          if y in t[1..] {
            var j :| 1 <= j < |t| && t[j] == y;
            BeforeIrreflexive(y);
            assert y in t;
            var i :| 0 <= i < |r| && r[i] == y;
            assert i != 0;
            assert r[1..][i - 1] == y;
          }
        }
        StrictlySortedUnique(r[1..], t[1..]);
      }
    }
  }

  /** `[...names].sort()` for a set of names. */
  method SortNames(names: set<string>) returns (sorted: seq<string>)
    ensures StrictlySorted(sorted)
    ensures forall y :: y in sorted <==> y in names
  {
    sorted := [];
    var rest := names;
    while rest != {}
      invariant rest <= names
      invariant StrictlySorted(sorted)
      invariant forall y :: y in sorted <==> y in names && y !in rest
      decreases |rest|
    {
      var x :| x in rest;
      sorted := InsertName(sorted, x);
      rest := rest - {x};
    }
  }

  /**
   * The names `main` processes, in directory order: those the filter lets
   * through (an empty filter lets every name through) and whose processing
   * succeeds.
   */
  function ProcessedNames(names: seq<string>, filter: string, processes: string -> bool): (r: seq<string>)
    ensures |r| <= |names|
  {
    if names == [] then []
    else
      (if Selected(names[0], filter, processes) then [names[0]] else [])
      + ProcessedNames(names[1..], filter, processes)
  }

  predicate Selected(name: string, filter: string, processes: string -> bool) {
    (filter == "" || name == filter) && processes(name)
  }

  /** The processed names are exactly the names let through and processed. */
  lemma {:induction false} ProcessedNamesMembers(names: seq<string>, filter: string, processes: string -> bool)
    ensures forall n :: n in ProcessedNames(names, filter, processes) <==>
      n in names && (filter == "" || n == filter) && processes(n)
  {
    if names != [] {
      ProcessedNamesMembers(names[1..], filter, processes);
      assert names == [names[0]] + names[1..];
    }
  }

  lemma ProcessedNamesStep(acc: seq<string>, names: seq<string>, i: nat, filter: string, processes: string -> bool, all: seq<string>)
    requires i < |names|
    requires acc + ProcessedNames(names[i..], filter, processes) == all
    ensures (if Selected(names[i], filter, processes) then acc + [names[i]] else acc)
      + ProcessedNames(names[i + 1..], filter, processes) == all
  {
    assert names[i..][0] == names[i] && names[i..][1..] == names[i + 1..];
    assert acc + [] == acc;
  }

  /**
   * The scheme loop and list of `main`: `processes` stands for
   * `processScheme` and `existing` for the list already on disk, if any.
   * The list written holds, sorted and once each, the processed names and,
   * when a filter is given, the existing ones.
   */
  method SchemeList(names: seq<string>, filter: string, processes: string -> bool, existing: Option<seq<string>>)
    returns (processed: seq<string>, sortedSchemes: seq<string>)
    ensures processed == ProcessedNames(names, filter, processes)
    ensures StrictlySorted(sortedSchemes)
    ensures forall s :: s in sortedSchemes <==>
      s in processed || (filter != "" && existing.Some? && s in existing.value)
    ensures forall n :: n in processed <==> n in names && (filter == "" || n == filter) && processes(n)
  {
    ProcessedNamesMembers(names, filter, processes);
    processed := ProcessNames(names, filter, processes);
    var allSchemes := set s | s in processed;
    if filter != "" && existing.Some? {
      allSchemes := AddNames(allSchemes, existing.value);
    }
    sortedSchemes := SortNames(allSchemes);
  }

  /** The scheme loop of `main`. */
  method ProcessNames(names: seq<string>, filter: string, processes: string -> bool)
    returns (processed: seq<string>)
    ensures processed == ProcessedNames(names, filter, processes)
  {
    processed := [];
    ghost var all := ProcessedNames(names, filter, processes);
    for i := 0 to |names|
      invariant processed + ProcessedNames(names[i..], filter, processes) == all
    {
      ProcessedNamesStep(processed, names, i, filter, processes, all);
      var name := names[i];
      if filter != "" && name != filter {
        continue;
      }
      if processes(name) {
        processed := processed + [name];
      }
    }
  }

  /** `for (const s of existing) allSchemes.add(s)`. */
  method AddNames(names: set<string>, existing: seq<string>) returns (all: set<string>)
    ensures forall s :: s in all <==> s in names || s in existing
  {
    all := names;
    for k := 0 to |existing|
      invariant forall s :: s in all <==> s in names || s in existing[..k]
    {
      assert existing[..k + 1] == existing[..k] + [existing[k]];
      all := all + {existing[k]};
    }
    assert existing[..|existing|] == existing;
  }
}
