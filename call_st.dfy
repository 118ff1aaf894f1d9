/**
 * Sequence-type calling (src/mlst/callST.ts): the locus calls are gathered
 * into a map; any no_hit makes the type incomplete, otherwise any novel
 * allele makes it novel, otherwise the first profile that agrees with every
 * called locus gives the type, and novel when none does.
 */
module CallST {
  import opened Wrappers
  import opened Numbers
  import opened Types

  /** `alleles[lr.locus] = lr.allele` over the results in order: a later result for the same locus overwrites. */
  function AllelesOf(lrs: seq<LocusResult>): map<string, string>
    decreases |lrs|
  {
    if lrs == [] then map[]
    else
      var last := lrs[|lrs| - 1];
      AllelesOf(lrs[..|lrs| - 1])[last.locus := last.allele.Text()]
  }

  /** Some result's allele text is `text`. */
  predicate HasText(lrs: seq<LocusResult>, text: string) {
    exists i :: 0 <= i < |lrs| && lrs[i].allele.Text() == text
  }

  /** The profile gives every called locus the called allele (loci the profile has beyond these do not matter). */
  predicate Agrees(alleles: map<string, string>, p: STProfile) {
    forall l :: l in alleles ==> l in p.alleles && p.alleles[l] == alleles[l]
  }

  /** The type `lookupST` returns: that of the first agreeing profile. */
  function Lookup(alleles: map<string, string>, profiles: seq<STProfile>): (r: SequenceType)
    ensures r == NovelST || exists i :: 0 <= i < |profiles| && Agrees(alleles, profiles[i]) && r == KnownST(profiles[i].st)
    decreases |profiles|
  {
    if profiles == [] then NovelST
    else if Agrees(alleles, profiles[0]) then KnownST(profiles[0].st)
    else Lookup(alleles, profiles[1..])
  }

  /** What `callST(filename, scheme, locusResults, profiles)` returns. */
  function CallSTSpec(filename: string, scheme: string, lrs: seq<LocusResult>, profiles: seq<STProfile>): MLSTResult {
    var alleles := AllelesOf(lrs);
    var st :=
      if HasText(lrs, NoHitText) then IncompleteST
      else if HasText(lrs, NovelText) then NovelST
      else Lookup(alleles, profiles);
    MLSTResult(filename, scheme, st, alleles)
  }

  /** `lookupST`: for each profile, compare every called locus, stopping at the first mismatch. */
  method LookupST(alleles: map<string, string>, profiles: seq<STProfile>) returns (st: SequenceType)
    ensures st == Lookup(alleles, profiles)
  {
    for p := 0 to |profiles|
      invariant Lookup(alleles, profiles[p..]) == Lookup(alleles, profiles)
    {
      assert profiles[p..][0] == profiles[p] && profiles[p..][1..] == profiles[p + 1..];
      var profile := profiles[p];
      var matched := true;
      var remaining := alleles.Keys;
      ghost var mismatch := "";
      while remaining != {}
        invariant remaining <= alleles.Keys && matched
        invariant forall l :: l in alleles.Keys - remaining ==> l in profile.alleles && profile.alleles[l] == alleles[l]
        decreases |remaining|
      {
        var locus :| locus in remaining;
        if locus !in profile.alleles || profile.alleles[locus] != alleles[locus] {
          matched := false;
          mismatch := locus;
          break;
        }
        remaining := remaining - {locus};
      }
      assert matched ==> Agrees(alleles, profile);
      assert !matched ==> mismatch in alleles && !(mismatch in profile.alleles && profile.alleles[mismatch] == alleles[mismatch]);
      if matched {
        return KnownST(profile.st);
      }
    }
    assert profiles[|profiles|..] == [];
    return NovelST;
  }

  /** One more result: its locus takes its allele, and its text joins those seen. */
  lemma CallsStep(lrs: seq<LocusResult>, i: nat, text: string)
    requires i < |lrs|
    ensures AllelesOf(lrs[..i + 1]) == AllelesOf(lrs[..i])[lrs[i].locus := lrs[i].allele.Text()]
    ensures HasText(lrs[..i + 1], text) <==> HasText(lrs[..i], text) || lrs[i].allele.Text() == text
  {
    assert lrs[..i + 1][..i] == lrs[..i];
    assert forall j :: 0 <= j < i ==> lrs[..i + 1][j] == lrs[..i][j];
    assert lrs[..i + 1][i] == lrs[i];
  }

  /** The loop of `callST` that builds the allele map and the no_hit and novel flags. */
  method CollectCalls(lrs: seq<LocusResult>) returns (alleles: map<string, string>, hasNoHit: bool, hasNovel: bool)
    ensures alleles == AllelesOf(lrs)
    ensures hasNoHit <==> HasText(lrs, NoHitText)
    ensures hasNovel <==> HasText(lrs, NovelText)
  {
    alleles := map[];
    hasNoHit := false;
    hasNovel := false;
    for i := 0 to |lrs|
      invariant alleles == AllelesOf(lrs[..i])
      invariant hasNoHit <==> HasText(lrs[..i], NoHitText)
      invariant hasNovel <==> HasText(lrs[..i], NovelText)
    {
      CallsStep(lrs, i, NoHitText);
      CallsStep(lrs, i, NovelText);
      var lr := lrs[i];
      alleles := alleles[lr.locus := lr.allele.Text()];
      if lr.allele.Text() == NoHitText {
        hasNoHit := true;
      }
      if lr.allele.Text() == NovelText {
        hasNovel := true;
      }
    }
    assert lrs[..|lrs|] == lrs;
  }

  /** `callST`: the calls and flags, then the type. */
  method CallST(filename: string, scheme: string, lrs: seq<LocusResult>, profiles: seq<STProfile>)
    returns (r: MLSTResult)
    ensures r == CallSTSpec(filename, scheme, lrs, profiles)
  {
    var alleles, hasNoHit, hasNovel := CollectCalls(lrs);
    if hasNoHit {
      return MLSTResult(filename, scheme, IncompleteST, alleles);
    }
    if hasNovel {
      return MLSTResult(filename, scheme, NovelST, alleles);
    }
    var st := LookupST(alleles, profiles);
    return MLSTResult(filename, scheme, st, alleles);
  }

  // ----- The allele map -----

  /** The map has exactly the loci of the results as keys. */
  lemma {:induction false} AllelesOfKeys(lrs: seq<LocusResult>)
    ensures forall k :: k in AllelesOf(lrs) <==> exists i :: 0 <= i < |lrs| && lrs[i].locus == k
    decreases |lrs|
  {
    if lrs != [] {
      var init := lrs[..|lrs| - 1];
      AllelesOfKeys(init);
      assert forall i :: 0 <= i < |init| ==> init[i] == lrs[i];
    }
  }

  /** A locus holds the allele text of its last result. */
  lemma {:induction false} AllelesOfLastWins(lrs: seq<LocusResult>, i: nat)
    requires i < |lrs|
    requires forall j :: i < j < |lrs| ==> lrs[j].locus != lrs[i].locus
    ensures lrs[i].locus in AllelesOf(lrs) && AllelesOf(lrs)[lrs[i].locus] == lrs[i].allele.Text()
    decreases |lrs|
  {
    if i < |lrs| - 1 {
      var init := lrs[..|lrs| - 1];
      assert init[i] == lrs[i];
      assert forall j :: i < j < |init| ==> init[j] == lrs[j];
      AllelesOfLastWins(init, i);
    }
  }

  // ----- Profile lookup -----

  /** Lookup finds no type exactly when no profile agrees. */
  lemma {:induction false} LookupNovelIff(alleles: map<string, string>, profiles: seq<STProfile>)
    ensures Lookup(alleles, profiles) == NovelST <==> forall i :: 0 <= i < |profiles| ==> !Agrees(alleles, profiles[i])
    decreases |profiles|
  {
    if profiles != [] {
      LookupNovelIff(alleles, profiles[1..]);
      assert forall i :: 1 <= i < |profiles| ==> profiles[i] == profiles[1..][i - 1];
    }
  }

  /** Lookup returns the type of the first agreeing profile. */
  lemma {:induction false} LookupFirstAgreeing(alleles: map<string, string>, profiles: seq<STProfile>, i: nat)
    requires i < |profiles| && Agrees(alleles, profiles[i])
    requires forall j :: 0 <= j < i ==> !Agrees(alleles, profiles[j])
    ensures Lookup(alleles, profiles) == KnownST(profiles[i].st)
    decreases i
  {
    if i > 0 {
      assert forall j :: 0 <= j < i - 1 ==> profiles[1..][j] == profiles[j + 1];
      LookupFirstAgreeing(alleles, profiles[1..], i - 1);
    }
  }

  // ----- The sequence type -----

  /**
   * The type is incomplete exactly when some locus is no_hit; otherwise
   * novel exactly when some locus is novel or no profile agrees with the
   * calls; otherwise a profile's type.
   */
  lemma CallSTOutcome(filename: string, scheme: string, lrs: seq<LocusResult>, profiles: seq<STProfile>)
    ensures var r := CallSTSpec(filename, scheme, lrs, profiles);
      && r.filename == filename && r.scheme == scheme && r.alleles == AllelesOf(lrs)
      && (r.st == IncompleteST <==> HasText(lrs, NoHitText))
      && (r.st == NovelST <==>
            !HasText(lrs, NoHitText)
            && (HasText(lrs, NovelText) || forall i :: 0 <= i < |profiles| ==> !Agrees(r.alleles, profiles[i])))
      && (r.st.KnownST? ==> !HasText(lrs, NoHitText) && !HasText(lrs, NovelText))
  {
    LookupNovelIff(AllelesOf(lrs), profiles);
  }

  /** With no locus results every profile agrees, so the first profile's type is returned. */
  lemma NoLociGivesFirstProfile(filename: string, scheme: string, profiles: seq<STProfile>)
    requires profiles != []
    ensures CallSTSpec(filename, scheme, [], profiles).st == KnownST(profiles[0].st)
  {
  }

  /** Three exact calls and a matching profile give that profile's type. */
  lemma ExactProfileMatch()
    ensures var lrs := [
        LocusResult("aroC", AlleleNumber("1"), Num(1.0), Num(1.0), None),
        LocusResult("dnaN", AlleleNumber("1"), Num(1.0), Num(1.0), None),
        LocusResult("hemD", AlleleNumber("1"), Num(1.0), Num(1.0), None)];
      var profiles := [
        STProfile("2", map["aroC" := "2", "dnaN" := "1", "hemD" := "1"]),
        STProfile("1", map["aroC" := "1", "dnaN" := "1", "hemD" := "1"])];
      CallSTSpec("g.fasta", "salmonella", lrs, profiles).st == KnownST("1")
  {
    var lrs := [
      LocusResult("aroC", AlleleNumber("1"), Num(1.0), Num(1.0), None),
      LocusResult("dnaN", AlleleNumber("1"), Num(1.0), Num(1.0), None),
      LocusResult("hemD", AlleleNumber("1"), Num(1.0), Num(1.0), None)];
    var p2 := STProfile("2", map["aroC" := "2", "dnaN" := "1", "hemD" := "1"]);
    var p1 := STProfile("1", map["aroC" := "1", "dnaN" := "1", "hemD" := "1"]);
    var alleles := AllelesOf(lrs);
    assert lrs[..2][..1] == lrs[..1];
    assert lrs[..1][..0] == [];
    assert AllelesOf(lrs[..1]) == map["aroC" := "1"];
    assert lrs[..2] == lrs[..2][..1] + [lrs[1]];
    assert AllelesOf(lrs[..2]) == map["aroC" := "1", "dnaN" := "1"];
    assert lrs[..3][..2] == lrs[..2];
    assert alleles == map["aroC" := "1", "dnaN" := "1", "hemD" := "1"];
    assert !HasText(lrs, NoHitText) && !HasText(lrs, NovelText);
    assert !Agrees(alleles, p2) by {
      assert "aroC" in alleles;
    }
    LookupFirstAgreeing(alleles, [p2, p1], 1);
  }
}
