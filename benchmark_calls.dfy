/**
 * The benchmark's own calling (`call_allele`, `call_st` and
 * `run_minimap2_mlst` in scripts/benchmark.py), on Python numbers: real
 * division, no NaN. Over hits the TypeScript reader sees alike, the calls
 * match the pipeline's except in two places: the allele number is the text
 * after the last '_' only (TypeScript also splits on '-'), and the
 * incomplete and novel tests look at the final allele map, where TypeScript
 * looks at every call, a repeated locus included.
 */
module BenchmarkCalls {
  import opened Wrappers
  import opened Text
  import opened Numbers
  import opened Types
  import opened CallAllele
  import opened CallST
  import Align
  import opened BenchmarkPaf

  /** The dictionary `call_allele` returns. */
  datatype PyCall = PyCall(locus: string, allele: string, identity: real, coverage: real)

  // ----- call_allele -----

  /** `allele_lengths.get(hit["target_name"], hit["target_length"])`. */
  function PyAlleleLength(hit: PyHit, lengths: map<string, nat>): int {
    if hit.targetName in lengths then lengths[hit.targetName] else hit.targetLength
  }

  /** The loop skips a hit whose allele length is zero. */
  predicate PyConsidered(hit: PyHit, lengths: map<string, nat>) {
    PyAlleleLength(hit, lengths) != 0
  }

  function PyIdentity(hit: PyHit): real {
    hit.identity / 100.0
  }

  function PyCoverage(hit: PyHit, lengths: map<string, nat>): real
    requires PyConsidered(hit, lengths)
  {
    hit.alignmentLength as real / PyAlleleLength(hit, lengths) as real
  }

  /** The loop's state: `best_hit`, `best_identity`, `best_coverage`. */
  datatype PyBest = PyBest(hit: Option<PyHit>, identity: real, coverage: real)

  const PyInitial := PyBest(None, 0.0, 0.0)

  predicate PyImproves(identity: real, coverage: real, b: PyBest) {
    identity > b.identity || (identity == b.identity && coverage > b.coverage)
  }

  function PyConsider(b: PyBest, hit: PyHit, lengths: map<string, nat>): PyBest {
    if !PyConsidered(hit, lengths) then b
    else
      var identity := PyIdentity(hit);
      var coverage := PyCoverage(hit, lengths);
      if PyImproves(identity, coverage, b) then PyBest(Some(hit), identity, coverage) else b
  }

  function PySelect(b: PyBest, hits: seq<PyHit>, lengths: map<string, nat>): PyBest
    decreases |hits|
  {
    if hits == [] then b else PySelect(PyConsider(b, hits[0], lengths), hits[1..], lengths)
  }

  /** `best_hit["target_name"].split("_")[-1]`. */
  function PyAlleleNumber(targetName: string): string {
    LastToken(targetName, false)
  }

  function PyClassify(locus: string, b: PyBest): PyCall {
    if b.hit.None? then PyCall(locus, NoHitText, 0.0, 0.0)
    else if b.identity < IdentityThreshold || b.coverage < CoverageThreshold then
      PyCall(locus, NoHitText, b.identity, b.coverage)
    else if b.identity == 1.0 && b.coverage >= 1.0 then
      PyCall(locus, PyAlleleNumber(b.hit.value.targetName), b.identity, b.coverage)
    else PyCall(locus, NovelText, b.identity, b.coverage)
  }

  /** What `call_allele(locus, hits, allele_lengths)` returns. */
  function PyCallAlleleSpec(locus: string, hits: seq<PyHit>, lengths: map<string, nat>): PyCall {
    if hits == [] then PyCall(locus, NoHitText, 0.0, 0.0)
    else PyClassify(locus, PySelect(PyInitial, hits, lengths))
  }

  /** `call_allele`, with the source's selection loop. */
  method PyCallAllele(locus: string, hits: seq<PyHit>, lengths: map<string, nat>) returns (r: PyCall)
    ensures r == PyCallAlleleSpec(locus, hits, lengths)
  {
    if hits == [] {
      return PyCall(locus, NoHitText, 0.0, 0.0);
    }
    var bestHit: Option<PyHit> := None;
    var bestIdentity := 0.0;
    var bestCoverage := 0.0;
    for i := 0 to |hits|
      invariant PySelect(PyBest(bestHit, bestIdentity, bestCoverage), hits[i..], lengths)
             == PySelect(PyInitial, hits, lengths)
    {
      assert hits[i..][0] == hits[i] && hits[i..][1..] == hits[i + 1..];
      var hit := hits[i];
      var alleleLen := if hit.targetName in lengths then lengths[hit.targetName] else hit.targetLength;
      if alleleLen == 0 {
        continue;
      }
      var identity := hit.identity / 100.0;
      var coverage := hit.alignmentLength as real / alleleLen as real;
      if identity > bestIdentity || (identity == bestIdentity && coverage > bestCoverage) {
        bestIdentity := identity;
        bestCoverage := coverage;
        bestHit := Some(hit);
      }
    }
    assert hits[|hits|..] == [];
    if bestHit.None? {
      return PyCall(locus, NoHitText, 0.0, 0.0);
    }
    if bestIdentity < IdentityThreshold || bestCoverage < CoverageThreshold {
      return PyCall(locus, NoHitText, bestIdentity, bestCoverage);
    }
    if bestIdentity == 1.0 && bestCoverage >= 1.0 {
      return PyCall(locus, PyAlleleNumber(bestHit.value.targetName), bestIdentity, bestCoverage);
    }
    return PyCall(locus, NovelText, bestIdentity, bestCoverage);
  }

  /** The chosen hit is the starting one or one of the hits. */
  lemma {:induction false} PySelectFrom(b: PyBest, hits: seq<PyHit>, lengths: map<string, nat>)
    ensures var r := PySelect(b, hits, lengths); r.hit == b.hit || (r.hit.Some? && r.hit.value in hits)
    decreases |hits|
  {
    if hits != [] {
      PySelectFrom(PyConsider(b, hits[0], lengths), hits[1..], lengths);
    }
  }

  /**
   * The call is no_hit exactly when there is no considered hit or the best
   * one misses a threshold; otherwise it is the chosen allele's number when
   * identity and coverage are both complete, and novel when they are not.
   */
  lemma PyCallAlleleOutcome(locus: string, hits: seq<PyHit>, lengths: map<string, nat>)
    ensures PyCallAlleleSpec(locus, hits, lengths).locus == locus
    ensures var r := PyCallAlleleSpec(locus, hits, lengths); var b := PySelect(PyInitial, hits, lengths);
      (hits == [] || b.hit.None?) ==> r == PyCall(locus, NoHitText, 0.0, 0.0)
    ensures var r := PyCallAlleleSpec(locus, hits, lengths); var b := PySelect(PyInitial, hits, lengths);
      (hits != [] && b.hit.Some?) ==>
        && r.identity == b.identity && r.coverage == b.coverage
        && (b.identity < IdentityThreshold || b.coverage < CoverageThreshold ==> r.allele == NoHitText)
        && (b.identity == 1.0 && b.coverage >= 1.0 ==> r.allele == PyAlleleNumber(b.hit.value.targetName))
        && ((IdentityThreshold <= b.identity && CoverageThreshold <= b.coverage
             && !(b.identity == 1.0 && b.coverage >= 1.0)) ==> r.allele == NovelText)
  {
  }

  // ----- agreement with callAllele -----

  /** The loop state as the TypeScript loop holds it. */
  function ToJsBest(b: PyBest): Best {
    Best(if b.hit.Some? then Some(ToJs(b.hit.value)) else None, Num(b.identity), Num(b.coverage))
  }

  lemma ConsiderAgrees(b: PyBest, hit: PyHit, lengths: map<string, nat>)
    ensures Consider(ToJsBest(b), ToJs(hit), lengths) == ToJsBest(PyConsider(b, hit, lengths))
  {
    var h := ToJs(hit);
    assert ResolvedLength(h, lengths) == FromInt(PyAlleleLength(hit, lengths));
    assert Considered(h, lengths) <==> PyConsidered(hit, lengths);
    assert HitIdentity(h) == Num(PyIdentity(hit));
    if PyConsidered(hit, lengths) {
      assert HitCoverage(h, lengths) == Num(PyCoverage(hit, lengths));
    }
  }

  /** Run over the converted hits, the TypeScript selection loop ends in the converted Python state. */
  lemma {:induction false} SelectAgrees(b: PyBest, hits: seq<PyHit>, lengths: map<string, nat>)
    ensures SelectBest(ToJsBest(b), ToJsAll(hits), lengths) == ToJsBest(PySelect(b, hits, lengths))
    decreases |hits|
  {
    if hits != [] {
      ConsiderAgrees(b, hits[0], lengths);
      var js := ToJsAll(hits);
      assert js[0] == ToJs(hits[0]);
      assert js[1..] == ToJsAll(hits[1..]);
      SelectAgrees(PyConsider(b, hits[0], lengths), hits[1..], lengths);
    }
  }

  /** Without a '-' in the name, splitting on '_' alone gives the same last part. */
  lemma {:induction false} LastTokenWithoutDash(s: string)
    requires '-' !in s
    ensures LastToken(s, true) == LastToken(s, false)
    decreases |s|
  {
    if |s| > 0 {
      LastTokenWithoutDash(s[..|s| - 1]);
    }
  }

  /** No allele name holds a '-'. */
  predicate NoDashNames(hits: seq<PyHit>) {
    forall h :: h in hits ==> '-' !in h.targetName
  }

  /** The final step of both calls: the same state gives the same report, and the same allele when the chosen name has no '-'. */
  lemma ClassifyAgrees(locus: string, b: PyBest)
    ensures var p := PyClassify(locus, b); var t := Classify(locus, ToJsBest(b));
      && p.locus == t.locus
      && Num(p.identity) == t.identity && Num(p.coverage) == t.coverage
      && ((b.hit.Some? && '-' in b.hit.value.targetName) || p.allele == t.allele.Text())
  {
    var jb := ToJsBest(b);
    if b.hit.None? {
      assert Classify(locus, jb) == LocusResult(locus, NoHit, Num(0.0), Num(0.0), None);
    } else if b.identity < IdentityThreshold || b.coverage < CoverageThreshold {
      assert Lt(jb.identity, Num(IdentityThreshold)) || Lt(jb.coverage, Num(CoverageThreshold));
      assert Classify(locus, jb) == LocusResult(locus, NoHit, jb.identity, jb.coverage, jb.hit);
    } else if b.identity == 1.0 && b.coverage >= 1.0 {
      assert !Lt(jb.identity, Num(IdentityThreshold)) && !Lt(jb.coverage, Num(CoverageThreshold));
      assert StrictEq(jb.identity, Num(1.0)) && Ge(jb.coverage, Num(1.0));
      var name := b.hit.value.targetName;
      assert jb.hit.value.targetName == name;
      assert Classify(locus, jb) == LocusResult(locus, AlleleNumber(ExtractAlleleNumber(name)), jb.identity, jb.coverage, jb.hit);
      if '-' !in name {
        LastTokenWithoutDash(name);
      }
    } else {
      assert !Lt(jb.identity, Num(IdentityThreshold)) && !Lt(jb.coverage, Num(CoverageThreshold));
      assert !(StrictEq(jb.identity, Num(1.0)) && Ge(jb.coverage, Num(1.0)));
      assert Classify(locus, jb) == LocusResult(locus, NovelAllele, jb.identity, jb.coverage, jb.hit);
    }
  }

  /**
   * Over the same hits, `call_allele` reports the identity and coverage
   * `callAllele` reports, and, where no allele name holds a '-', the same
   * call.
   */
  lemma PyCallAlleleAgrees(locus: string, hits: seq<PyHit>, lengths: map<string, nat>)
    ensures var p := PyCallAlleleSpec(locus, hits, lengths);
      var t := CallAlleleSpec(locus, ToJsAll(hits), lengths);
      && p.locus == t.locus
      && Num(p.identity) == t.identity && Num(p.coverage) == t.coverage
      && (NoDashNames(hits) ==> p.allele == t.allele.Text())
  {
    if hits != [] {
      assert ToJsBest(PyInitial) == Initial;
      SelectAgrees(PyInitial, hits, lengths);
      PySelectFrom(PyInitial, hits, lengths);
      var b := PySelect(PyInitial, hits, lengths);
      ClassifyAgrees(locus, b);
    }
  }

  lemma DashedNameTokens()
    ensures LastToken("abc_1-2", false) == "1-2" && LastToken("abc_1-2", true) == "2"
  {
    assert "abc_1-2"[..6] == "abc_1-";
    PrefixTokens();
  }

  /** The tokens of the prefixes of "abc_1-2" ending at '1' and at '-'. */
  lemma PrefixTokens()
    ensures LastToken("abc_1-", false) == "1-" && LastToken("abc_1-", true) == ""
  {
    assert "abc_1-"[..5] == "abc_1";
    FirstDigitToken();
  }

  /** The '_'-token of "abc_1" is "1". */
  lemma FirstDigitToken()
    ensures LastToken("abc_1", false) == "1"
  {
    assert "abc_1"[..4] == "abc_";
    assert LastToken("abc_", false) == "";
  }

  /**
   * A name with a '-' after the last '_': an exact hit gives "1-2" to the
   * benchmark and "2" to the pipeline.
   */
  lemma DashedNameDiverges()
    ensures var hit := PyHit("abc_1-2", "g", 100.0, 10, 0, 10, 0, 10, 10);
      && PyCallAlleleSpec("abc", [hit], map[]).allele == "1-2"
      && CallAlleleSpec("abc", ToJsAll([hit]), map[]).allele == AlleleNumber("2")
  {
    var hit := PyHit("abc_1-2", "g", 100.0, 10, 0, 10, 0, 10, 10);
    var pb := PyBest(Some(hit), 1.0, 1.0);
    DashedNameBest(hit);
    assert PyCallAlleleSpec("abc", [hit], map[]) == PyClassify("abc", pb);
    var jb := SelectBest(Initial, ToJsAll([hit]), map[]);
    assert jb == ToJsBest(pb) by {
      assert ToJsBest(PyInitial) == Initial;
      SelectAgrees(PyInitial, [hit], map[]);
    }
    assert CallAlleleSpec("abc", ToJsAll([hit]), map[]) == Classify("abc", jb);
    assert ToJs(hit).targetName == "abc_1-2";
    DashedNameTokens();
    ExactBestClassified("abc", hit);
  }

  /** An exact, full-length best hit is called by its allele number, on both sides. */
  lemma ExactBestClassified(locus: string, hit: PyHit)
    ensures PyClassify(locus, PyBest(Some(hit), 1.0, 1.0)).allele == PyAlleleNumber(hit.targetName)
    ensures Classify(locus, ToJsBest(PyBest(Some(hit), 1.0, 1.0))).allele
         == AlleleNumber(ExtractAlleleNumber(ToJs(hit).targetName))
  {
    var jb := ToJsBest(PyBest(Some(hit), 1.0, 1.0));
    assert jb == Best(Some(ToJs(hit)), Num(1.0), Num(1.0));
    assert !Lt(Num(1.0), Num(IdentityThreshold)) && !Lt(Num(1.0), Num(CoverageThreshold));
    assert StrictEq(Num(1.0), Num(1.0)) && Ge(Num(1.0), Num(1.0));
  }

  /** The one exact hit is the one Python selects. */
  lemma DashedNameBest(hit: PyHit)
    requires hit == PyHit("abc_1-2", "g", 100.0, 10, 0, 10, 0, 10, 10)
    ensures PySelect(PyInitial, [hit], map[]) == PyBest(Some(hit), 1.0, 1.0)
  {
    assert [hit][1..] == [];
    assert PyAlleleLength(hit, map[]) == 10;
    assert PyIdentity(hit) == 1.0 && PyCoverage(hit, map[]) == 1.0;
    assert PyConsider(PyInitial, hit, map[]) == PyBest(Some(hit), 1.0, 1.0);
    assert PySelect(PyInitial, [hit], map[]) == PySelect(PyConsider(PyInitial, hit, map[]), [], map[]);
  }


  // ----- call_st -----

  /** `{ac["locus"]: ac["allele"] for ac in allele_calls}`: a later call for the same locus overwrites. */
  function PyAllelesOf(calls: seq<PyCall>): map<string, string>
    decreases |calls|
  {
    if calls == [] then map[]
    else
      var last := calls[|calls| - 1];
      PyAllelesOf(calls[..|calls| - 1])[last.locus := last.allele]
  }

  /** `any(a == text for a in alleles.values())`. */
  predicate AnyValue(alleles: map<string, string>, text: string) {
    exists l :: l in alleles && alleles[l] == text
  }

  /**
   * What `call_st(allele_calls, profiles)` returns. Its profile loop,
   * `profile["alleles"].get(locus) != allele` for each called locus, is
   * the pipeline's `Agrees`, and the first agreeing profile's type (or
   * "novel") is `Lookup`'s.
   */
  function PyCallStSpec(calls: seq<PyCall>, profiles: seq<STProfile>): string {
    var alleles := PyAllelesOf(calls);
    if AnyValue(alleles, NoHitText) then IncompleteText
    else if AnyValue(alleles, NovelText) then NovelText
    else Lookup(alleles, profiles).Text()
  }

  /** `call_st`: the map, the two tests over its values, then the profile loop. */
  method PyCallSt(calls: seq<PyCall>, profiles: seq<STProfile>) returns (st: string)
    ensures st == PyCallStSpec(calls, profiles)
  {
    var alleles := PyAllelesOf(calls);
    if AnyValue(alleles, NoHitText) {
      return IncompleteText;
    }
    if AnyValue(alleles, NovelText) {
      return NovelText;
    }
    var t := LookupST(alleles, profiles);
    return t.Text();
  }

  /** The map has a key for each call's locus and no other. */
  lemma {:induction false} PyAllelesOfKeys(calls: seq<PyCall>)
    ensures forall l :: l in PyAllelesOf(calls) <==> exists i :: 0 <= i < |calls| && calls[i].locus == l
    decreases |calls|
  {
    if calls != [] {
      var init := calls[..|calls| - 1];
      PyAllelesOfKeys(init);
      assert forall i :: 0 <= i < |init| ==> init[i] == calls[i];
    }
  }

  /** Calls that carry the loci and allele texts of locus results. */
  predicate SameCalls(calls: seq<PyCall>, lrs: seq<LocusResult>) {
    |calls| == |lrs|
    && forall i :: 0 <= i < |calls| ==> calls[i].locus == lrs[i].locus && calls[i].allele == lrs[i].allele.Text()
  }

  lemma {:induction false} SameAlleles(calls: seq<PyCall>, lrs: seq<LocusResult>)
    requires SameCalls(calls, lrs)
    ensures PyAllelesOf(calls) == AllelesOf(lrs)
    decreases |calls|
  {
    if calls != [] {
      var n := |calls| - 1;
      assert forall i :: 0 <= i < n ==> calls[..n][i] == calls[i] && lrs[..n][i] == lrs[i];
      SameAlleles(calls[..n], lrs[..n]);
    }
  }

  /** Each value of the map is the text of some result. */
  lemma {:induction false} AllelesOfValues(lrs: seq<LocusResult>, l: string)
    requires l in AllelesOf(lrs)
    ensures exists i :: 0 <= i < |lrs| && lrs[i].locus == l && lrs[i].allele.Text() == AllelesOf(lrs)[l]
    decreases |lrs|
  {
    var n := |lrs| - 1;
    var init := lrs[..n];
    if lrs[n].locus != l {
      AllelesOfValues(init, l);
      var i :| 0 <= i < |init| && init[i].locus == l && init[i].allele.Text() == AllelesOf(init)[l];
      assert lrs[i] == init[i];
    }
  }

  /** No locus is called twice. */
  predicate DistinctLoci(lrs: seq<LocusResult>) {
    forall i, j :: 0 <= i < j < |lrs| ==> lrs[i].locus != lrs[j].locus
  }

  /** Over the final map, a text among the values is one some result has; with distinct loci the converse holds too. */
  lemma AnyValueHasText(lrs: seq<LocusResult>, text: string)
    ensures AnyValue(AllelesOf(lrs), text) ==> HasText(lrs, text)
    ensures DistinctLoci(lrs) && HasText(lrs, text) ==> AnyValue(AllelesOf(lrs), text)
  {
    var m := AllelesOf(lrs);
    if AnyValue(m, text) {
      var l :| l in m && m[l] == text;
      AllelesOfValues(lrs, l);
    }
    if DistinctLoci(lrs) && HasText(lrs, text) {
      var i :| 0 <= i < |lrs| && lrs[i].allele.Text() == text;
      AllelesOfLastWins(lrs, i);
      assert m[lrs[i].locus] == text;
    }
  }

  /**
   * Over calls that carry the same texts as the pipeline's locus results,
   * the benchmark's type is the pipeline's when no locus is called twice;
   * in any case a benchmark incomplete is a pipeline incomplete.
   */
  lemma PyCallStAgrees(calls: seq<PyCall>, lrs: seq<LocusResult>, profiles: seq<STProfile>, filename: string, scheme: string)
    requires SameCalls(calls, lrs)
    ensures var t := CallSTSpec(filename, scheme, lrs, profiles);
      && PyAllelesOf(calls) == t.alleles
      && (PyCallStSpec(calls, profiles) == IncompleteText && AnyValue(t.alleles, NoHitText) ==> t.st == IncompleteST)
      && (DistinctLoci(lrs) ==> PyCallStSpec(calls, profiles) == t.st.Text())
  {
    SameAlleles(calls, lrs);
    AnyValueHasText(lrs, NoHitText);
    AnyValueHasText(lrs, NovelText);
  }

  /**
   * A locus called twice, first no_hit and then "1": the benchmark's map
   * keeps only "1" and finds the profile, the pipeline saw the no_hit.
   */
  lemma RepeatedLocusDiverges()
    ensures var lrs := [
        LocusResult("a", NoHit, Num(0.0), Num(0.0), None),
        LocusResult("a", AlleleNumber("1"), Num(1.0), Num(1.0), None)];
      var calls := [PyCall("a", NoHitText, 0.0, 0.0), PyCall("a", "1", 1.0, 1.0)];
      var profiles := [STProfile("7", map["a" := "1"])];
      && SameCalls(calls, lrs)
      && PyCallStSpec(calls, profiles) == "7"
      && CallSTSpec("g", "s", lrs, profiles).st == IncompleteST
  {
    var lrs := [
        LocusResult("a", NoHit, Num(0.0), Num(0.0), None),
        LocusResult("a", AlleleNumber("1"), Num(1.0), Num(1.0), None)];
    var calls := [PyCall("a", NoHitText, 0.0, 0.0), PyCall("a", "1", 1.0, 1.0)];
    var profiles := [STProfile("7", map["a" := "1"])];
    assert calls[..1] == [calls[0]] && calls[..1][..0] == [];
    assert PyAllelesOf(calls[..1]) == map["a" := NoHitText];
    var m := PyAllelesOf(calls);
    assert m == map["a" := NoHitText]["a" := "1"];
    assert m == map["a" := "1"];
    assert !AnyValue(m, NoHitText) && !AnyValue(m, NovelText);
    assert Agrees(m, profiles[0]);
    assert HasText(lrs, NoHitText) by {
      assert lrs[0].allele.Text() == NoHitText;
    }
  }

  // ----- run_minimap2_mlst -----

  /** `[h for h in all_hits if h["target_name"].startswith(f"{locus}_")]`. */
  function PyLocusHits(hits: seq<PyHit>, locus: string): (r: seq<PyHit>)
    ensures forall h :: h in r <==> h in hits && StartsWith(h.targetName, locus + "_")
  {
    if hits == [] then []
    else (if StartsWith(hits[0].targetName, locus + "_") then [hits[0]] else []) + PyLocusHits(hits[1..], locus)
  }

  function PyLocusCall(locus: string, hits: seq<PyHit>, lengths: map<string, nat>): PyCall {
    PyCallAlleleSpec(locus, PyLocusHits(hits, locus), lengths)
  }

  function PyLocusCalls(loci: seq<string>, hits: seq<PyHit>, lengths: map<string, nat>): (r: seq<PyCall>)
    ensures |r| == |loci|
  {
    if loci == [] then [] else [PyLocusCall(loci[0], hits, lengths)] + PyLocusCalls(loci[1..], hits, lengths)
  }

  /** The dictionary `run_minimap2_mlst` returns. */
  datatype PyMlst = PyMlst(scheme: string, st: string, alleles: map<string, string>)

  /** What `run_minimap2_mlst` returns for the aligner's output `pafText`. */
  function PyRunSpec(pafText: string, scheme: string, loci: seq<string>, profiles: seq<STProfile>,
                     lengths: map<string, nat>): PyMlst {
    var calls := PyLocusCalls(loci, PyParsedPaf(pafText), lengths);
    PyMlst(scheme, PyCallStSpec(calls, profiles), PyAllelesOf(calls))
  }

  lemma PyLocusCallsStep(acc: seq<PyCall>, loci: seq<string>, li: nat, hits: seq<PyHit>,
                         lengths: map<string, nat>, all: seq<PyCall>)
    requires li < |loci|
    requires acc + PyLocusCalls(loci[li..], hits, lengths) == all
    ensures (acc + [PyLocusCall(loci[li], hits, lengths)]) + PyLocusCalls(loci[li + 1..], hits, lengths) == all
  {
    assert loci[li..][0] == loci[li] && loci[li..][1..] == loci[li + 1..];
  }

  /** `run_minimap2_mlst`, given the aligner's output: the locus loop, then the type and the map. */
  method PyRunMinimap2Mlst(pafText: string, scheme: string, loci: seq<string>, profiles: seq<STProfile>,
                           lengths: map<string, nat>) returns (r: PyMlst)
    ensures r == PyRunSpec(pafText, scheme, loci, profiles, lengths)
  {
    var allHits := PyParsePaf(pafText);
    var calls: seq<PyCall> := [];
    ghost var all := PyLocusCalls(loci, allHits, lengths);
    for li := 0 to |loci|
      invariant calls + PyLocusCalls(loci[li..], allHits, lengths) == all
    {
      var locusHits := PyLocusHits(allHits, loci[li]);
      var call := PyCallAllele(loci[li], locusHits, lengths);
      PyLocusCallsStep(calls, loci, li, allHits, lengths, all);
      calls := calls + [call];
    }
    assert loci[|loci|..] == [];
    assert calls + [] == calls;
    var st := PyCallSt(calls, profiles);
    r := PyMlst(scheme, st, PyAllelesOf(calls));
  }

  lemma {:induction false} PyLocusCallsAt(loci: seq<string>, hits: seq<PyHit>, lengths: map<string, nat>, li: nat)
    requires li < |loci|
    ensures PyLocusCalls(loci, hits, lengths)[li] == PyLocusCall(loci[li], hits, lengths)
    decreases li
  {
    if li > 0 {
      PyLocusCallsAt(loci[1..], hits, lengths, li - 1);
    }
  }

  /** No locus is listed twice. */
  predicate DistinctNames(loci: seq<string>) {
    forall i, j :: 0 <= i < j < |loci| ==> loci[i] != loci[j]
  }

  /** The calls carry the loci in scheme order. */
  lemma PyLocusCallsLoci(loci: seq<string>, hits: seq<PyHit>, lengths: map<string, nat>)
    ensures forall li :: 0 <= li < |loci| ==> PyLocusCalls(loci, hits, lengths)[li].locus == loci[li]
  {
    forall li | 0 <= li < |loci|
      ensures PyLocusCalls(loci, hits, lengths)[li].locus == loci[li]
    {
      PyLocusCallsAt(loci, hits, lengths, li);
      PyCallAlleleOutcome(loci[li], PyLocusHits(hits, loci[li]), lengths);
    }
  }

  /** The map has exactly the scheme's loci as keys. */
  lemma PyRunKeys(pafText: string, scheme: string, loci: seq<string>, profiles: seq<STProfile>,
                  lengths: map<string, nat>)
    ensures var r := PyRunSpec(pafText, scheme, loci, profiles, lengths);
      r.scheme == scheme && forall l :: l in r.alleles <==> l in loci
  {
    var hits := PyParsedPaf(pafText);
    var calls := PyLocusCalls(loci, hits, lengths);
    PyAllelesOfKeys(calls);
    PyLocusCallsLoci(loci, hits, lengths);
    forall l | l in loci
      ensures exists i :: 0 <= i < |calls| && calls[i].locus == l
    {
      var li :| 0 <= li < |loci| && loci[li] == l;
      assert calls[li].locus == l;
    }
  }

  /** When no locus is listed twice, each locus holds the call on the hits with its prefix. */
  lemma PyRunValues(pafText: string, scheme: string, loci: seq<string>, profiles: seq<STProfile>,
                    lengths: map<string, nat>, li: nat)
    requires DistinctNames(loci) && li < |loci|
    ensures var r := PyRunSpec(pafText, scheme, loci, profiles, lengths);
      loci[li] in r.alleles
      && r.alleles[loci[li]] == PyCallAlleleSpec(loci[li], PyLocusHits(PyParsedPaf(pafText), loci[li]), lengths).allele
  {
    var hits := PyParsedPaf(pafText);
    var calls := PyLocusCalls(loci, hits, lengths);
    PyLocusCallsLoci(loci, hits, lengths);
    PyLocusCallsAt(loci, hits, lengths, li);
    PyAllelesOfLastWins(calls, li);
  }

  lemma {:induction false} PyAllelesOfLastWins(calls: seq<PyCall>, i: nat)
    requires i < |calls|
    requires forall j :: i < j < |calls| ==> calls[j].locus != calls[i].locus
    ensures calls[i].locus in PyAllelesOf(calls) && PyAllelesOf(calls)[calls[i].locus] == calls[i].allele
    decreases |calls|
  {
    if i < |calls| - 1 {
      var init := calls[..|calls| - 1];
      assert init[i] == calls[i];
      assert forall j :: i < j < |init| ==> init[j] == calls[j];
      PyAllelesOfLastWins(init, i);
    }
  }

  // ----- the benchmark against the pipeline -----

  lemma {:induction false} LocusHitsAgree(hits: seq<PyHit>, locus: string)
    ensures Align.LocusHits(ToJsAll(hits), locus) == ToJsAll(PyLocusHits(hits, locus))
    decreases |hits|
  {
    if hits != [] {
      var js := ToJsAll(hits);
      assert js[0] == ToJs(hits[0]) && js[1..] == ToJsAll(hits[1..]);
      LocusHitsAgree(hits[1..], locus);
      var head := if StartsWith(hits[0].targetName, locus + "_") then [hits[0]] else [];
      ToJsAllAppend(head, PyLocusHits(hits[1..], locus));
    }
  }

  /** Over the converted hits, each locus gets the same call texts from both. */
  lemma LocusCallsAgree(loci: seq<string>, hits: seq<PyHit>, lengths: map<string, nat>)
    requires NoDashNames(hits)
    ensures SameCalls(PyLocusCalls(loci, hits, lengths), Align.LocusCalls(loci, ToJsAll(hits), lengths))
  {
    var calls := PyLocusCalls(loci, hits, lengths);
    var lrs := Align.LocusCalls(loci, ToJsAll(hits), lengths);
    forall li | 0 <= li < |loci|
      ensures calls[li].locus == lrs[li].locus && calls[li].allele == lrs[li].allele.Text()
    {
      PyLocusCallsAt(loci, hits, lengths, li);
      Align.LocusCallsAt(loci, ToJsAll(hits), lengths, li);
      var lh := PyLocusHits(hits, loci[li]);
      LocusHitsAgree(hits, loci[li]);
      assert NoDashNames(lh);
      PyCallAlleleAgrees(loci[li], lh, lengths);
    }
  }

  /**
   * On aligner output whose lines both readers split alike and read alike,
   * and whose allele names hold no '-', the benchmark reports the
   * pipeline's allele map for the genome, and, when no locus is listed
   * twice, its sequence type.
   */
  lemma BenchmarkMatchesPipeline(fasta: ParsedFasta, sd: SchemeData, pafText: string, lengths: map<string, nat>)
    requires Align.PafLines(pafText) == PyPafLines(pafText)
    requires forall k :: 0 <= k < |PyPafLines(pafText)| ==> LineAgrees(PyPafLines(pafText)[k])
    requires NoDashNames(PyParsedPaf(pafText))
    ensures var t := Align.AnalysisOf(fasta, sd, pafText, lengths);
      var p := PyRunSpec(pafText, sd.scheme.name, sd.scheme.loci, sd.profiles, lengths);
      && p.scheme == t.scheme && p.alleles == t.alleles
      && (DistinctNames(sd.scheme.loci) ==> p.st == t.st.Text())
  {
    var loci := sd.scheme.loci;
    var hits := PyParsedPaf(pafText);
    PafHitsAgree(PyPafLines(pafText));
    assert Align.ParsedPaf(pafText) == ToJsAll(hits);
    LocusCallsAgree(loci, hits, lengths);
    var lrs := Align.LocusCalls(loci, ToJsAll(hits), lengths);
    var calls := PyLocusCalls(loci, hits, lengths);
    if DistinctNames(loci) {
      forall i, j | 0 <= i < j < |lrs|
        ensures lrs[i].locus != lrs[j].locus
      {
        Align.LocusCallsAt(loci, ToJsAll(hits), lengths, i);
        Align.LocusCallsAt(loci, ToJsAll(hits), lengths, j);
      }
    }
    PyCallStAgrees(calls, lrs, sd.profiles, fasta.filename, sd.scheme.name);
  }
}
