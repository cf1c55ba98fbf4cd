/** A repaired parent passes every fidelity check exactly when it is the original with permitted handles filled in
    and its retained texts untouched. */
module FidelityMeaning {
  import opened Options
  import opened Json
  import opened Text
  import opened TraceGuard
  import opened ParentPaths
  import opened ErasedClaims
  import opened RepairReferences
  import opened PatchComparison
  import opened RepairFidelity

  /** The handle may differ, but then the mapping names a fact, so its claims keep their number. */
  ghost predicate HandleAside(m: Fields, m': Fields) {
    EraseFields(m) == EraseFields(m') && (ChunkId(m') == ChunkId(m) || SupportedFactIds(m) != [])
  }

  lemma MappingClaimTexts(m: Fields, m': Fields, surface: string)
    requires HandleAside(m, m')
    ensures SameClaimTexts(ClaimsFromMapping(m, surface), ClaimsFromMapping(m', surface))
  {
    ClaimPartsErased(m);
    ClaimPartsErased(m');
  }

  lemma ClaimTextsConcat(a: seq<Claim>, a': seq<Claim>, b: seq<Claim>, b': seq<Claim>)
    requires SameClaimTexts(a, a') && SameClaimTexts(b, b')
    ensures SameClaimTexts(a + b, a' + b')
  {
  }

  lemma {:induction false} AllClaimTexts(cs: seq<Candidate>, cs': seq<Candidate>)
    requires SamePlaces(cs, cs')
    requires forall i :: 0 <= i < |cs| ==> HandleAside(cs[i].mapping, cs'[i].mapping)
    ensures SameClaimTexts(AllClaims(cs), AllClaims(cs'))
  {
    if cs != [] {
      var n := |cs| - 1;
      AllClaimTexts(cs[..n], cs'[..n]);
      MappingClaimTexts(cs[n].mapping, cs'[n].mapping, cs[n].surface);
      ClaimTextsConcat(AllClaims(cs[..n]), AllClaims(cs'[..n]), ClaimsOf(cs[n]), ClaimsOf(cs'[n]));
    }
  }

  lemma KeptHandleKeepsChunk(m: Fields, m': Fields)
    requires EraseFields(m) == EraseFields(m') && HandleKept(m, m')
    ensures ChunkId(m') == ChunkId(m)
  {
    GetErased(m, "chunk_id");
    GetErased(m', "chunk_id");
    GetErased(m, "source_chunk_id");
    GetErased(m', "source_chunk_id");
  }

  /** At a candidate, a pure repair kept the handle or filled it under that candidate's own path. */
  lemma RepairAtCandidate(original: Fields, repaired: Fields, rules: Rules, i: nat)
    requires OnlyRepairs(Obj(original), Obj(repaired), "$", rules)
    requires i < |Candidates(original)|
    ensures SamePlaces(Candidates(original), Candidates(repaired))
    ensures var c, c' := Candidates(original)[i], Candidates(repaired)[i];
            HandleKept(c.mapping, c'.mapping)
            || HandleRepaired(c.mapping, c'.mapping, HandlePath("$" + PrintSteps(Steps(c.loc))), rules)
  {
    SameErasureSamePlaces(original, repaired);
    var c, c' := Candidates(original)[i], Candidates(repaired)[i];
    CandidateIsSound(original, c);
    CandidateIsSound(repaired, c');
    assert NodeKeptOrRepaired(Obj(original), Obj(repaired), Steps(c.loc), "$", rules);
  }

  lemma RepairsKeepClaimTexts(original: Fields, repaired: Fields, rules: Rules)
    requires OnlyRepairs(Obj(original), Obj(repaired), "$", rules)
    ensures SameClaimTexts(ParentClaims(original), ParentClaims(repaired))
  {
    var cs, cs' := Candidates(original), Candidates(repaired);
    SameErasureSamePlaces(original, repaired);
    forall i | 0 <= i < |cs| ensures HandleAside(cs[i].mapping, cs'[i].mapping) {
      RepairAtCandidate(original, repaired, rules, i);
      if HandleKept(cs[i].mapping, cs'[i].mapping) {
        KeptHandleKeepsChunk(cs[i].mapping, cs'[i].mapping);
      }
    }
    AllClaimTexts(cs, cs');
    ClaimsComeFromCandidates(original);
    ClaimsComeFromCandidates(repaired);
  }

  lemma FidelityIsExact(original: Fields, repaired: Fields, rules: Rules)
    ensures Fidelity(original, repaired, rules).Clean()
      <==> OnlyRepairs(Obj(original), Obj(repaired), "$", rules) && RetainedTextsKept(original, repaired)
  {
    ComparisonIsExact(Obj(original), Obj(repaired), "$", rules);
    ClaimFindingsEmpty(ParentClaims(original), ParentClaims(repaired));
    if OnlyRepairs(Obj(original), Obj(repaired), "$", rules) {
      RetainedFindingsWhenErasedEqual(original, repaired);
      RepairsKeepClaimTexts(original, repaired, rules);
    }
  }

  /** The path text of a located mapping is its reference path under the root. */
  lemma {:induction false} PrintIndexSteps(indices: seq<nat>, rest: Path)
    ensures PrintSteps(IndexSteps(indices) + rest) == PrintIndices(indices) + PrintSteps(rest)
  {
    if indices == [] {
      assert IndexSteps(indices) + rest == rest;
    } else {
      PrintIndexSteps(indices[1..], rest);
      PrintFirstIndex(indices, rest);
      ConcatAssociates("[" + Decimal(indices[0]) + "]", PrintIndices(indices[1..]), PrintSteps(rest));
    }
  }

  lemma PrintFirstIndex(indices: seq<nat>, rest: Path)
    requires indices != []
    ensures PrintSteps(IndexSteps(indices) + rest)
         == "[" + Decimal(indices[0]) + "]" + PrintSteps(IndexSteps(indices[1..]) + rest)
  {
    IndexStepsFirst(indices, rest);
  }

  lemma PrintFirstSegment(p: RefPath)
    requires p != []
    ensures PrintRefPath(p) == PrintSegment(p[0]) + if |p| == 1 then "" else "." + PrintRefPath(p[1..])
  {
    assert PrintSegments(p)[1..] == PrintSegments(p[1..]);
    if |p| > 1 {
      assert ['.'] + PrintRefPath(p[1..]) == "." + PrintRefPath(p[1..]);
    }
  }

  lemma PrintFirstSteps(p: RefPath)
    requires p != []
    ensures PrintSteps(Steps(p)) == "." + PrintSegment(p[0]) + PrintSteps(Steps(p[1..]))
  {
    var tail := IndexSteps(p[0].indices) + Steps(p[1..]);
    assert Steps(p) == [Key(p[0].key)] + tail;
    assert Steps(p)[1..] == tail;
    PrintIndexSteps(p[0].indices, Steps(p[1..]));
  }

  lemma {:induction false} PrintStepsOfRefPath(p: RefPath)
    requires p != []
    ensures PrintSteps(Steps(p)) == "." + PrintRefPath(p)
  {
    var rest := if |p| == 1 then "" else "." + PrintRefPath(p[1..]);
    assert PrintSteps(Steps(p[1..])) == rest by {
      if |p| > 1 {
        PrintStepsOfRefPath(p[1..]);
      }
    }
    PrintFirstSegment(p);
    PrintFirstSteps(p);
    ConcatAssociates(".", PrintSegment(p[0]), rest);
  }
}
