/**
 * Allele calling for one locus (src/mlst/callAllele.ts): among the locus's
 * hits, the best is the one with the highest identity, ties broken by the
 * highest coverage, the first such hit winning; it is then classified
 * against the identity and coverage thresholds.
 */
module CallAllele {
  import opened Wrappers
  import opened Text
  import opened Numbers
  import opened Types

  const IdentityThreshold: real := 0.90
  const CoverageThreshold: real := 0.90

  /** `alleleLengths[hit.targetName] ?? hit.targetLength`. */
  function ResolvedLength(hit: AlignmentHit, lengths: map<string, nat>): Number {
    if hit.targetName in lengths then FromInt(lengths[hit.targetName]) else hit.targetLength
  }

  /** The loop skips a hit whose allele length is zero. */
  predicate Considered(hit: AlignmentHit, lengths: map<string, nat>) {
    !StrictEq(ResolvedLength(hit, lengths), Num(0.0))
  }

  /** Identity as a fraction: the hit's percentage over 100. */
  function HitIdentity(hit: AlignmentHit): Number {
    Div(hit.identity, Num(100.0))
  }

  /** Coverage: the aligned span over the allele length. */
  function HitCoverage(hit: AlignmentHit, lengths: map<string, nat>): Number
    requires Considered(hit, lengths)
  {
    Div(hit.alignmentLength, ResolvedLength(hit, lengths))
  }

  /** The loop's state: the chosen hit and its identity and coverage. */
  datatype Best = Best(hit: Option<AlignmentHit>, identity: Number, coverage: Number)

  const Initial := Best(None, Num(0.0), Num(0.0))

  /** The loop's test: higher identity, or equal identity and higher coverage. */
  predicate Improves(identity: Number, coverage: Number, b: Best) {
    Gt(identity, b.identity) || (StrictEq(identity, b.identity) && Gt(coverage, b.coverage))
  }

  /** One iteration of the selection loop. */
  function Consider(b: Best, hit: AlignmentHit, lengths: map<string, nat>): Best {
    if !Considered(hit, lengths) then b
    else
      var identity := HitIdentity(hit);
      var coverage := HitCoverage(hit, lengths);
      if Improves(identity, coverage, b) then Best(Some(hit), identity, coverage) else b
  }

  /** The state after the selection loop has run over `hits`, starting from `b`. */
  function SelectBest(b: Best, hits: seq<AlignmentHit>, lengths: map<string, nat>): Best
    decreases |hits|
  {
    if hits == [] then b else SelectBest(Consider(b, hits[0], lengths), hits[1..], lengths)
  }

  /**
   * The text after the last '_' or '-' (the last element of
   * `targetName.split(/[_-]/)`): a suffix of the name without either
   * character, preceded by one of them unless it is the whole name.
   */
  function ExtractAlleleNumber(targetName: string): (r: string)
    ensures |r| <= |targetName| && r == targetName[|targetName| - |r|..]
    ensures '_' !in r && '-' !in r
    ensures |r| < |targetName| ==> targetName[|targetName| - |r| - 1] in "_-"
  {
    var r := LastToken(targetName, true);
    assert forall i :: 0 <= i < |r| ==> r[i] != '_' && r[i] != '-';
    r
  }

  /** The result built from the loop's final state. */
  function Classify(locus: string, b: Best): LocusResult {
    if b.hit.None? then LocusResult(locus, NoHit, Num(0.0), Num(0.0), None)
    else if Lt(b.identity, Num(IdentityThreshold)) || Lt(b.coverage, Num(CoverageThreshold)) then
      LocusResult(locus, NoHit, b.identity, b.coverage, b.hit)
    else if StrictEq(b.identity, Num(1.0)) && Ge(b.coverage, Num(1.0)) then
      LocusResult(locus, AlleleNumber(ExtractAlleleNumber(b.hit.value.targetName)), b.identity, b.coverage, b.hit)
    else LocusResult(locus, NovelAllele, b.identity, b.coverage, b.hit)
  }

  /** What `callAllele(locus, hits, alleleLengths)` returns. */
  function CallAlleleSpec(locus: string, hits: seq<AlignmentHit>, lengths: map<string, nat>): LocusResult {
    if |hits| == 0 then LocusResult(locus, NoHit, Num(0.0), Num(0.0), None)
    else Classify(locus, SelectBest(Initial, hits, lengths))
  }

  /** `callAllele`, with the source's selection loop. */
  method CallAllele(locus: string, hits: seq<AlignmentHit>, lengths: map<string, nat>) returns (r: LocusResult)
    ensures r == CallAlleleSpec(locus, hits, lengths)
  {
    if |hits| == 0 {
      return LocusResult(locus, NoHit, Num(0.0), Num(0.0), None);
    }
    var bestHit: Option<AlignmentHit> := None;
    var bestIdentity := Num(0.0);
    var bestCoverage := Num(0.0);
    for i := 0 to |hits|
      invariant SelectBest(Best(bestHit, bestIdentity, bestCoverage), hits[i..], lengths)
             == SelectBest(Initial, hits, lengths)
    {
      assert hits[i..][0] == hits[i] && hits[i..][1..] == hits[i + 1..];
      var hit := hits[i];
      var alleleLen := if hit.targetName in lengths then FromInt(lengths[hit.targetName]) else hit.targetLength;
      if StrictEq(alleleLen, Num(0.0)) {
        continue;
      }
      var identity := Div(hit.identity, Num(100.0));
      var coverage := Div(hit.alignmentLength, alleleLen);
      if Gt(identity, bestIdentity) || (StrictEq(identity, bestIdentity) && Gt(coverage, bestCoverage)) {
        bestIdentity := identity;
        bestCoverage := coverage;
        bestHit := Some(hit);
      }
    }
    assert hits[|hits|..] == [];
    if bestHit.None? {
      return LocusResult(locus, NoHit, Num(0.0), Num(0.0), None);
    }
    if Lt(bestIdentity, Num(IdentityThreshold)) || Lt(bestCoverage, Num(CoverageThreshold)) {
      return LocusResult(locus, NoHit, bestIdentity, bestCoverage, bestHit);
    }
    if StrictEq(bestIdentity, Num(1.0)) && Ge(bestCoverage, Num(1.0)) {
      var alleleNumber := ExtractAlleleNumber(bestHit.value.targetName);
      return LocusResult(locus, AlleleNumber(alleleNumber), bestIdentity, bestCoverage, bestHit);
    }
    return LocusResult(locus, NovelAllele, bestIdentity, bestCoverage, bestHit);
  }

  // ----- The chosen hit -----

  /** The state describes its hit, or is the initial state when there is none. */
  predicate Consistent(b: Best, lengths: map<string, nat>) {
    && (b.hit.None? ==> b == Initial)
    && (b.hit.Some? ==>
          Considered(b.hit.value, lengths)
          && b.identity == HitIdentity(b.hit.value)
          && b.coverage == HitCoverage(b.hit.value, lengths))
  }

  /** No considered hit passes the test against the initial state. */
  predicate NoneImproveInitial(hits: seq<AlignmentHit>, lengths: map<string, nat>) {
    forall j :: 0 <= j < |hits| && Considered(hits[j], lengths) ==>
      !Improves(HitIdentity(hits[j]), HitCoverage(hits[j], lengths), Initial)
  }

  lemma {:induction false} SelectBestConsistent(b: Best, hits: seq<AlignmentHit>, lengths: map<string, nat>)
    requires Consistent(b, lengths)
    ensures var r := SelectBest(b, hits, lengths);
      && Consistent(r, lengths)
      && (r.hit.Some? ==> r.hit == b.hit || r.hit.value in hits)
      && (r.hit.None? <==> b.hit.None? && NoneImproveInitial(hits, lengths))
    decreases |hits|
  {
    if hits != [] {
      var b' := Consider(b, hits[0], lengths);
      SelectBestConsistent(b', hits[1..], lengths);
      assert forall j :: 1 <= j < |hits| ==> hits[j] == hits[1..][j - 1];
      assert NoneImproveInitial(hits, lengths) <==>
        (!Considered(hits[0], lengths) || !Improves(HitIdentity(hits[0]), HitCoverage(hits[0], lengths), Initial))
        && NoneImproveInitial(hits[1..], lengths);
    }
  }

  /**
   * The call's chosen hit is one of the hits, with its identity and
   * coverage; there is none exactly when no considered hit passes the test
   * against the initial identity and coverage of zero, and then the call is
   * no_hit with zero identity and coverage.
   */
  lemma CallAlleleChosenHit(locus: string, hits: seq<AlignmentHit>, lengths: map<string, nat>)
    ensures var r := CallAlleleSpec(locus, hits, lengths);
      && r.locus == locus
      && (r.bestHit.None? <==> NoneImproveInitial(hits, lengths))
      && (r.bestHit.None? ==> r.allele == NoHit && r.identity == Num(0.0) && r.coverage == Num(0.0))
      && (r.bestHit.Some? ==>
            r.bestHit.value in hits && Considered(r.bestHit.value, lengths)
            && r.identity == HitIdentity(r.bestHit.value)
            && r.coverage == HitCoverage(r.bestHit.value, lengths))
  {
    SelectBestConsistent(Initial, hits, lengths);
  }

  /**
   * The classification, stated on the result: no_hit exactly when there is
   * no chosen hit or its identity or coverage is below 0.90 (so 0.90 itself
   * passes); an allele number exactly when identity is 1 and coverage at
   * least 1, and then it is the number in the chosen allele's name; novel
   * otherwise.
   */
  lemma CallAlleleClassification(locus: string, hits: seq<AlignmentHit>, lengths: map<string, nat>)
    ensures var r := CallAlleleSpec(locus, hits, lengths);
      && (r.allele.NoHit? <==>
            r.bestHit.None? || Lt(r.identity, Num(IdentityThreshold)) || Lt(r.coverage, Num(CoverageThreshold)))
      && (r.allele.AlleleNumber? <==>
            r.bestHit.Some? && StrictEq(r.identity, Num(1.0)) && Ge(r.coverage, Num(1.0)))
      && (r.allele.AlleleNumber? ==> r.allele.number == ExtractAlleleNumber(r.bestHit.value.targetName))
      && (r.allele.NovelAllele? <==>
            r.bestHit.Some? && !r.allele.NoHit? && !(StrictEq(r.identity, Num(1.0)) && Ge(r.coverage, Num(1.0))))
  {
  }

  // ----- The selection order -----

  /** A hit whose identity and coverage are both numbers. */
  predicate Numeric(hit: AlignmentHit, lengths: map<string, nat>) {
    Considered(hit, lengths) && HitIdentity(hit).Num? && HitCoverage(hit, lengths).Num?
  }

  predicate AllNumeric(hits: seq<AlignmentHit>, lengths: map<string, nat>) {
    forall j :: 0 <= j < |hits| && Considered(hits[j], lengths) ==> Numeric(hits[j], lengths)
  }

  function Key(hit: AlignmentHit, lengths: map<string, nat>): (real, real)
    requires Numeric(hit, lengths)
  {
    (HitIdentity(hit).value, HitCoverage(hit, lengths).value)
  }

  /** The lexicographic order on (identity, coverage). */
  predicate Beats(a: (real, real), b: (real, real)) {
    a.0 > b.0 || (a.0 == b.0 && a.1 > b.1)
  }

  /** No considered hit beats `k`. */
  predicate NoneBeat(hits: seq<AlignmentHit>, lengths: map<string, nat>, k: (real, real))
    requires AllNumeric(hits, lengths)
  {
    forall j :: 0 <= j < |hits| && Considered(hits[j], lengths) ==> !Beats(Key(hits[j], lengths), k)
  }

  /** Hit `i` is the first considered hit with the greatest key, and that key beats `k`. */
  predicate FirstMaximum(hits: seq<AlignmentHit>, lengths: map<string, nat>, i: nat, k: (real, real))
    requires AllNumeric(hits, lengths)
  {
    && i < |hits| && Considered(hits[i], lengths)
    && Beats(Key(hits[i], lengths), k)
    && NoneBeat(hits, lengths, Key(hits[i], lengths))
    && (forall j :: 0 <= j < i && Considered(hits[j], lengths) ==> Beats(Key(hits[i], lengths), Key(hits[j], lengths)))
  }

  lemma AllNumericTail(hits: seq<AlignmentHit>, lengths: map<string, nat>)
    requires hits != [] && AllNumeric(hits, lengths)
    ensures AllNumeric(hits[1..], lengths)
  {
    assert forall j :: 0 <= j < |hits[1..]| ==> hits[1..][j] == hits[j + 1];
  }

  lemma SkipStep(b: Best, hits: seq<AlignmentHit>, lengths: map<string, nat>, found: bool, i: nat)
    requires hits != [] && AllNumeric(hits, lengths) && b.identity.Num? && b.coverage.Num?
    requires !Considered(hits[0], lengths) || !Beats(Key(hits[0], lengths), (b.identity.value, b.coverage.value))
    requires AllNumeric(hits[1..], lengths)
    requires !found ==> NoneBeat(hits[1..], lengths, (b.identity.value, b.coverage.value))
    requires found ==> FirstMaximum(hits[1..], lengths, i, (b.identity.value, b.coverage.value))
    ensures !found ==> NoneBeat(hits, lengths, (b.identity.value, b.coverage.value))
    ensures found ==> FirstMaximum(hits, lengths, i + 1, (b.identity.value, b.coverage.value))
  {
    assert forall j :: 1 <= j < |hits| ==> hits[j] == hits[1..][j - 1];
  }

  lemma TakeStep(b: Best, hits: seq<AlignmentHit>, lengths: map<string, nat>, found: bool, i: nat)
    requires hits != [] && AllNumeric(hits, lengths) && Considered(hits[0], lengths)
    requires b.identity.Num? && b.coverage.Num?
    requires Beats(Key(hits[0], lengths), (b.identity.value, b.coverage.value))
    requires AllNumeric(hits[1..], lengths)
    requires !found ==> NoneBeat(hits[1..], lengths, Key(hits[0], lengths))
    requires found ==> FirstMaximum(hits[1..], lengths, i, Key(hits[0], lengths))
    ensures !found ==> FirstMaximum(hits, lengths, 0, (b.identity.value, b.coverage.value))
    ensures found ==> FirstMaximum(hits, lengths, i + 1, (b.identity.value, b.coverage.value))
  {
    assert forall j :: 1 <= j < |hits| ==> hits[j] == hits[1..][j - 1];
  }

  lemma {:induction false} SelectBestNumeric(b: Best, hits: seq<AlignmentHit>, lengths: map<string, nat>)
    returns (found: bool, i: nat)
    requires b.identity.Num? && b.coverage.Num? && AllNumeric(hits, lengths)
    ensures var r := SelectBest(b, hits, lengths); var kb := (b.identity.value, b.coverage.value);
      && (!found ==> r == b && NoneBeat(hits, lengths, kb))
      && (found ==> FirstMaximum(hits, lengths, i, kb)
                    && r == Best(Some(hits[i]), HitIdentity(hits[i]), HitCoverage(hits[i], lengths)))
    decreases |hits|
  {
    if hits == [] {
      found, i := false, 0;
    } else {
      var h := hits[0];
      AllNumericTail(hits, lengths);
      var b' := Consider(b, h, lengths);
      var f', i' := SelectBestNumeric(b', hits[1..], lengths);
      if Considered(h, lengths) && Beats(Key(h, lengths), (b.identity.value, b.coverage.value)) {
        TakeStep(b, hits, lengths, f', i');
        found, i := true, if f' then i' + 1 else 0;
        if f' {
          assert hits[1..][i'] == hits[i' + 1];
        }
      } else {
        SkipStep(b, hits, lengths, f', i');
        found, i := f', i' + 1;
        assert f' ==> hits[1..][i'] == hits[i' + 1];
      }
    }
  }

  /**
   * When identities and coverages are numbers, the chosen hit is the first
   * considered hit with the lexicographically greatest (identity, coverage),
   * provided that beats (0, 0); no hit is chosen exactly when none does.
   */
  lemma BestHitIsFirstMaximum(hits: seq<AlignmentHit>, lengths: map<string, nat>)
    requires AllNumeric(hits, lengths)
    ensures var r := SelectBest(Initial, hits, lengths);
      && (r.hit.None? <==> NoneBeat(hits, lengths, (0.0, 0.0)))
      && (r.hit.Some? ==> exists i: nat :: i < |hits| && FirstMaximum(hits, lengths, i, (0.0, 0.0)) && r.hit.value == hits[i])
  {
    var found, i := SelectBestNumeric(Initial, hits, lengths);
    if found {
      assert !NoneBeat(hits, lengths, (0.0, 0.0)) by {
        assert Considered(hits[i], lengths) && Beats(Key(hits[i], lengths), (0.0, 0.0));
      }
    }
  }

  lemma {:induction false} SelectBestIdentityBound(b: Best, hits: seq<AlignmentHit>, lengths: map<string, nat>)
    requires b.identity.Num?
    ensures var r := SelectBest(b, hits, lengths);
      && r.identity.Num? && r.identity.value >= b.identity.value
      && (forall j :: 0 <= j < |hits| && Considered(hits[j], lengths) && HitIdentity(hits[j]).Num? ==>
            HitIdentity(hits[j]).value <= r.identity.value)
    decreases |hits|
  {
    if hits != [] {
      var b' := Consider(b, hits[0], lengths);
      SelectBestIdentityBound(b', hits[1..], lengths);
      assert forall j :: 1 <= j < |hits| ==> hits[j] == hits[1..][j - 1];
    }
  }

  /**
   * Whatever the coverages (NaN included), no considered hit with a numeric
   * identity has a higher identity than the call reports, and the reported
   * identity is never negative.
   */
  lemma IdentityIsMaximal(locus: string, hits: seq<AlignmentHit>, lengths: map<string, nat>)
    ensures var r := CallAlleleSpec(locus, hits, lengths);
      && r.identity.Num? && r.identity.value >= 0.0
      && (forall j :: 0 <= j < |hits| && Considered(hits[j], lengths) && HitIdentity(hits[j]).Num? ==>
            HitIdentity(hits[j]).value <= r.identity.value)
  {
    SelectBestIdentityBound(Initial, hits, lengths);
    SelectBestConsistent(Initial, hits, lengths);
  }

  /**
   * A hit whose identity clears the threshold but whose coverage is NaN (an
   * unparsable span) is called novel: NaN fails both `< 0.90` and `>= 1.0`.
   */
  lemma NaNCoverageIsNovel(locus: string, hit: AlignmentHit, lengths: map<string, nat>)
    requires Considered(hit, lengths)
    requires Ge(HitIdentity(hit), Num(IdentityThreshold)) && HitCoverage(hit, lengths) == NaN
    ensures CallAlleleSpec(locus, [hit], lengths).allele == NovelAllele
  {
    assert [hit][0] == hit && [hit][1..] == [];
    var b := Consider(Initial, hit, lengths);
    assert b == Best(Some(hit), HitIdentity(hit), NaN);
    assert SelectBest(Initial, [hit], lengths) == SelectBest(b, [], lengths);
  }

  /** A hit at exactly 90% identity and 90% coverage clears both thresholds. */
  lemma ThresholdsAreInclusive(locus: string, lengths: map<string, nat>)
    requires "x_1" !in lengths
    ensures var hit := AlignmentHit("g", "x_1", Num(90.0), Num(90.0), NaN, NaN, NaN, NaN, Num(100.0));
      CallAlleleSpec(locus, [hit], lengths).allele == NovelAllele
  {
    var hit := AlignmentHit("g", "x_1", Num(90.0), Num(90.0), NaN, NaN, NaN, NaN, Num(100.0));
    assert [hit][1..] == [];
  }

  /**
   * The locus is no_hit when the hit with the best identity lacks coverage,
   * even if a hit with lower identity clears both thresholds: the
   * thresholds are applied to the chosen hit only.
   */
  lemma ThresholdsApplyToChosenHitOnly(locus: string, lengths: map<string, nat>)
    requires "x_1" !in lengths && "x_2" !in lengths
    ensures var a := AlignmentHit("g", "x_1", Num(95.0), Num(50.0), NaN, NaN, NaN, NaN, Num(100.0));
      var b := AlignmentHit("g", "x_2", Num(92.0), Num(100.0), NaN, NaN, NaN, NaN, Num(100.0));
      && Ge(HitIdentity(b), Num(IdentityThreshold)) && Ge(HitCoverage(b, lengths), Num(CoverageThreshold))
      && CallAlleleSpec(locus, [a, b], lengths).allele == NoHit
  {
    var a := AlignmentHit("g", "x_1", Num(95.0), Num(50.0), NaN, NaN, NaN, NaN, Num(100.0));
    var b := AlignmentHit("g", "x_2", Num(92.0), Num(100.0), NaN, NaN, NaN, NaN, Num(100.0));
    assert [a, b][1..] == [b] && [b][1..] == [];
  }

  lemma ExtractAlleleNumberExamples()
    ensures ExtractAlleleNumber("adk_1") == "1"
    ensures ExtractAlleleNumber("adk-12") == "12"
    ensures ExtractAlleleNumber("7") == "7"
  {
    assert "adk_1"[..4] == "adk_";
    assert "adk-12"[..5] == "adk-1" && "adk-1"[..4] == "adk-";
    assert "7"[..0] == "";
  }
}
