/** Whatever a model answers to a repair request, the patched parent claims what it claimed before. */
module RepairSafety {
  import opened Options
  import opened Json
  import opened Text
  import opened TraceGuard
  import opened ParentPaths
  import opened ErasedClaims
  import opened RepairReferences
  import opened RepairResolution
  import opened RepairPatch

  /** The references the repair loop derives for a parent. */
  function References(parent: Fields, manifest: seq<Evidence>, handles: ChildHandles): seq<Reference> {
    Identify(parent, Validate(manifest, parent), manifest, handles)
  }

  lemma ReferencePointsInto(parent: Fields, manifest: seq<Evidence>, handles: ChildHandles, r: Reference)
    requires r in References(parent, manifest, handles)
    ensures PointsInto(r, parent)
  {
    var c := ReferenceDescribesCandidate(parent, manifest, handles, r);
    CandidateIsSound(parent, c);
  }

  /** The candidate at a reference's location is the one the reference describes. */
  lemma CandidateAtReference(parent: Fields, manifest: seq<Evidence>, handles: ChildHandles, r: Reference, i: nat)
    requires r in References(parent, manifest, handles) && i < |Candidates(parent)|
    requires Steps(r.loc) == Steps(Candidates(parent)[i].loc)
    ensures Describes(r, Candidates(parent)[i], manifest, handles)
  {
    var c := ReferenceDescribesCandidate(parent, manifest, handles, r);
    StepsInjective(r.loc, Candidates(parent)[i].loc);
    CandidatesAreDistinct(parent);
    LocationDeterminesCandidate(Candidates(parent), i, c);
  }

  lemma LocationDeterminesCandidate(cs: seq<Candidate>, i: nat, c: Candidate)
    requires Distinct(cs) && i < |cs| && c in cs && cs[i].loc == c.loc
    ensures cs[i] == c
  {
  }

  /** Every fill sits at a reference, with that reference's own handle. */
  ghost predicate FillsReferences(fills: Fills, refs: seq<Reference>) {
    forall p :: p in fills ==> exists r :: r in refs && Steps(r.loc) == p && r.handle == Some(fills[p])
  }

  lemma FilledFieldStrings(m: Fields, f: Fills, p: Path, key: string)
    requires key != HANDLE_KEY
    ensures NonEmptyString(Fill(Obj(m), f, p).fields, key) == NonEmptyString(m, key)
  {
    EraseFill(Obj(m), f, p);
    GetErased(m, key);
    GetErased(Fill(Obj(m), f, p).fields, key);
  }

  /** A mapping's chunk changed, if at all, only where there was none, in a mapping that names a fact. */
  lemma SameOutsideHandle(m: Fields, m': Fields)
    requires EraseFields(m) == EraseFields(m')
    requires NonEmptyString(m', HANDLE_KEY) == NonEmptyString(m, HANDLE_KEY)
             || (ChunkId(m).None? && SupportedFactIds(m) != [])
    ensures OnlyHandleFilled(m, m')
  {
    GetErased(m, "chunk_id");
    GetErased(m', "chunk_id");
    GetErased(m, "source_chunk_id");
    GetErased(m', "source_chunk_id");
  }

  lemma FilledCandidateIsHandleless(parent: Fields, manifest: seq<Evidence>, handles: ChildHandles, f: Fills, i: nat)
    requires FillsReferences(f, References(parent, manifest, handles))
    requires i < |Candidates(parent)| && Steps(Candidates(parent)[i].loc) in f
    ensures var m := Candidates(parent)[i].mapping; ChunkId(m).None? && SupportedFactIds(m) != []
  {
    var p := Steps(Candidates(parent)[i].loc);
    var r :| r in References(parent, manifest, handles) && Steps(r.loc) == p && r.handle == Some(f[p]);
    CandidateAtReference(parent, manifest, handles, r, i);
  }

  lemma FilledMappingOnlyHandle(parent: Fields, manifest: seq<Evidence>, handles: ChildHandles, f: Fills, i: nat)
    requires FillsReferences(f, References(parent, manifest, handles)) && i < |Candidates(parent)|
    ensures var c := Candidates(parent)[i];
            && At(Obj(FillFields(parent, f)), Steps(c.loc)) == Some(Fill(Obj(c.mapping), f, Steps(c.loc)))
            && OnlyHandleFilled(c.mapping, Fill(Obj(c.mapping), f, Steps(c.loc)).fields)
  {
    var c := Candidates(parent)[i];
    var p := Steps(c.loc);
    CandidateIsSound(parent, c);
    FilledMapping(parent, f, p);
    EraseFill(Obj(c.mapping), f, p);
    if p in f {
      FilledCandidateIsHandleless(parent, manifest, handles, f, i);
    }
    SameOutsideHandle(c.mapping, Fill(Obj(c.mapping), f, p).fields);
  }

  lemma FilledCandidates(parent: Fields, manifest: seq<Evidence>, handles: ChildHandles, f: Fills)
    requires FillsReferences(f, References(parent, manifest, handles))
    ensures var cs, cs' := Candidates(parent), Candidates(FillFields(parent, f));
            && SamePlaces(cs, cs')
            && forall i :: 0 <= i < |cs| ==>
                 && cs'[i].mapping == Fill(Obj(cs[i].mapping), f, Steps(cs[i].loc)).fields
                 && OnlyHandleFilled(cs[i].mapping, cs'[i].mapping)
  {
    var filled := FillFields(parent, f);
    var cs, cs' := Candidates(parent), Candidates(filled);
    EraseFill(Obj(parent), f, []);
    SameErasureSamePlaces(parent, filled);
    forall i | 0 <= i < |cs|
      ensures cs'[i].mapping == Fill(Obj(cs[i].mapping), f, Steps(cs[i].loc)).fields
      ensures OnlyHandleFilled(cs[i].mapping, cs'[i].mapping)
    {
      FilledMappingOnlyHandle(parent, manifest, handles, f, i);
      CandidateIsSound(filled, cs'[i]);
    }
  }

  lemma FilledClaims(parent: Fields, manifest: seq<Evidence>, handles: ChildHandles, f: Fills)
    requires FillsReferences(f, References(parent, manifest, handles))
    ensures SameClaimsButFilled(ParentClaims(parent), ParentClaims(FillFields(parent, f)))
  {
    FilledCandidates(parent, manifest, handles, f);
    AllClaimsFilled(Candidates(parent), Candidates(FillFields(parent, f)));
    ClaimsComeFromCandidates(parent);
    ClaimsComeFromCandidates(FillFields(parent, f));
  }

  lemma RateMonotone(v: Verdict, v': Verdict)
    requires |v'.rejectedClaims| <= |v.rejectedClaims|
    requires |v.acceptedClaims| + |v.rejectedClaims| == |v'.acceptedClaims| + |v'.rejectedClaims|
    ensures v'.UnsupportedClaimRate() <= v.UnsupportedClaimRate()
  {
  }

  lemma VerdictCounts(manifest: seq<Evidence>, parent: Fields)
    requires ParentClaims(parent) != []
    ensures var v := Validate(manifest, parent);
            && |v.acceptedClaims| + |v.rejectedClaims| == |ParentClaims(parent)|
            && v.rejectedClaims == RejectedOf(ParentClaims(parent), ByFact(manifest))
  {
    PartitionOfClaims(ParentClaims(parent), ByFact(manifest));
  }

  lemma FillingNeverWorsens(manifest: seq<Evidence>, parent: Fields, filled: Fields)
    requires SameClaimsButFilled(ParentClaims(parent), ParentClaims(filled))
    ensures var v, v' := Validate(manifest, parent), Validate(manifest, filled);
            && |v'.rejectedClaims| <= |v.rejectedClaims|
            && v'.UnsupportedClaimRate() <= v.UnsupportedClaimRate()
  {
    var claims, claims' := ParentClaims(parent), ParentClaims(filled);
    if claims == [] {
      assert claims' == [];
    } else {
      FillingKeepsSupport(claims, claims', ByFact(manifest));
      VerdictCounts(manifest, parent);
      VerdictCounts(manifest, filled);
      RateMonotone(Validate(manifest, parent), Validate(manifest, filled));
    }
  }

  /** For every response: the patch fills a subset of the references, each with one of its own handles; the claims
      keep their number, order, surface, fact and text; supported claims stay supported; rejections and the
      unsupported rate never rise. */
  lemma RepairIsSafe(parent: Fields, response: Fields, manifest: seq<Evidence>, handles: ChildHandles)
    ensures var refs := References(parent, manifest, handles);
            var fills := Chosen(response, refs);
            var patched := ApplyAll(parent, response, refs);
            var claims, claims' := ParentClaims(parent), ParentClaims(patched);
            var v, v' := Validate(manifest, parent), Validate(manifest, patched);
            && patched == FillFields(parent, fills)
            && FillsReferences(fills, refs)
            && EraseFields(patched) == EraseFields(parent)
            && SameClaimsButFilled(claims, claims')
            && (forall i :: 0 <= i < |claims| && Supported(claims[i], ByFact(manifest)) ==>
                  Supported(claims'[i], ByFact(manifest)))
            && |v'.rejectedClaims| <= |v.rejectedClaims|
            && v'.UnsupportedClaimRate() <= v.UnsupportedClaimRate()
  {
    var refs := References(parent, manifest, handles);
    var fills := Chosen(response, refs);
    forall r | r in refs ensures PointsInto(r, parent) {
      ReferencePointsInto(parent, manifest, handles, r);
    }
    ApplyIsFill(parent, response, refs);
    forall p | p in fills ensures exists r :: r in refs && Steps(r.loc) == p && r.handle == Some(fills[p]) {
      ChosenAreAnswers(response, refs, p);
    }
    FilledClaims(parent, manifest, handles, fills);
    EraseFill(Obj(parent), fills, []);
    FillingNeverWorsens(manifest, parent, FillFields(parent, fills));
    FillingKeepsSupport(ParentClaims(parent), ParentClaims(FillFields(parent, fills)), ByFact(manifest));
  }
}
