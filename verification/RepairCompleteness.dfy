/** When a response gives every reference its handle, the repair succeeds, provided the handles agree with the gate. */
module RepairCompleteness {
  import opened Options
  import opened Json
  import opened Text
  import opened TraceGuard
  import opened ParentPaths
  import opened ErasedClaims
  import opened RepairReferences
  import opened RepairResolution
  import opened RepairPatch
  import opened RepairSafety
  import opened PatchComparison
  import opened RepairFidelity
  import opened FidelityMeaning

  // ---------- Handles a response proposes outside the allowed set ----------

  function ResponseErrors(response: Fields, refs: seq<Reference>): seq<Reference> {
    if refs == [] then []
    else
      var last := refs[|refs| - 1];
      ResponseErrors(response, refs[..|refs| - 1]) + (if ProposesOther(response, last) then [last] else [])
  }

  /** The response holds a non-empty handle at the reference, but not the reference's own. */
  predicate ProposesOther(response: Fields, r: Reference) {
    && !r.state.Invalid?
    && var source := MappingAt(response, r.ParentPath());
    && source.Some?
    && NonEmptyString(source.value.value.fields, HANDLE_KEY).Some?
    && NonEmptyString(source.value.value.fields, HANDLE_KEY) != r.handle
  }

  method RepairResponseHandleErrors(response: Fields, refs: seq<Reference>) returns (errors: seq<Reference>)
    ensures errors == ResponseErrors(response, refs)
  {
    errors := [];
    for n := 0 to |refs|
      invariant errors == ResponseErrors(response, refs[..n])
    {
      assert refs[..n + 1][..n] == refs[..n];
      if ProposesOther(response, refs[n]) {
        errors := errors + [refs[n]];
      }
    }
    assert refs[..|refs|] == refs;
  }

  lemma {:induction false} ResponseErrorsEmpty(response: Fields, refs: seq<Reference>)
    ensures ResponseErrors(response, refs) == [] <==> forall r :: r in refs ==> !ProposesOther(response, r)
  {
    if refs != [] {
      ResponseErrorsEmpty(response, refs[..|refs| - 1]);
      assert refs == refs[..|refs| - 1] + [refs[|refs| - 1]];
    }
  }

  // ---------- Eligibility ----------

  predicate OnlyMissingHandles(v: Verdict) {
    !v.accepted && v.rejectedClaims != [] && forall r :: r in v.rejectedClaims ==> r.reason == MissingEvidenceHandle
  }

  /** Every rejection is for a missing handle, and every one of them is resolved by a reference. */
  predicate Eligible(parent: Fields, manifest: seq<Evidence>, handles: ChildHandles) {
    var v := Validate(manifest, parent);
    OnlyMissingHandles(v)
    && ResolutionPass(|MissingClaims(v.rejectedClaims)|, References(parent, manifest, handles))
  }

  predicate AllAnswered(response: Fields, refs: seq<Reference>) {
    forall r :: r in refs ==> Answered(response, r)
  }

  /** For every reference, the handle a repair may write is the one the gate demands. */
  predicate HandlesAgree(refs: seq<Reference>) {
    forall r :: r in refs ==> r.handle == r.allowedManifest
  }

  /** The patch writes, where the reference points, the handle the gate demands for the reference's fact. */
  predicate Delivered(response: Fields, refs: seq<Reference>, r: Reference) {
    Steps(r.loc) in Chosen(response, refs) && r.allowedManifest == Some(Chosen(response, refs)[Steps(r.loc)])
  }

  predicate AllDelivered(response: Fields, refs: seq<Reference>) {
    forall r :: r in refs ==> Delivered(response, refs, r)
  }

  lemma AgreementDelivers(response: Fields, refs: seq<Reference>)
    requires AllAnswered(response, refs) && HandlesAgree(refs)
    ensures AllDelivered(response, refs)
  {
    forall r | r in refs ensures Delivered(response, refs, r) {
      assert Answered(response, r) && r.handle == r.allowedManifest;
      ChosenAreAnswers(response, refs, Steps(r.loc));
    }
  }

  // ---------- One candidate of an eligible parent ----------

  lemma ClaimObjection(parent: Fields, manifest: seq<Evidence>, c: Candidate, claim: Claim)
    requires OnlyMissingHandles(Validate(manifest, parent))
    requires c in Candidates(parent) && claim in ClaimsOf(c)
    ensures Supported(claim, ByFact(manifest)) || Objection(claim, ByFact(manifest)) == Some(MissingEvidenceHandle)
  {
    var allowed := ByFact(manifest);
    ClaimsComeFromCandidates(parent);
    ClaimOfCandidate(Candidates(parent), c, claim);
    match Objection(claim, allowed)
    case None =>
    case Some(reason) =>
      RejectedIffObjected(ParentClaims(parent), allowed, Rejection(reason, claim));
      assert Rejection(reason, claim) in Validate(manifest, parent).rejectedClaims;
  }

  /** A handleless candidate of an eligible parent is repairable, and each of its facts is known to the manifest. */
  lemma HandlelessIsRepairable(parent: Fields, manifest: seq<Evidence>, handles: ChildHandles, c: Candidate, f: string)
    requires Eligible(parent, manifest, handles)
    requires c in Candidates(parent) && ChunkId(c.mapping).None? && f in SupportedFactIds(c.mapping)
    ensures f in ByFact(manifest) && Repairable(c)
  {
    var facts := SupportedFactIds(c.mapping);
    var n :| 0 <= n < |facts| && facts[n] == f;
    assert ClaimsOf(c)[n] == AsClaim(f, c.surface, ClaimText(c.mapping));
    ClaimObjection(parent, manifest, c, ClaimsOf(c)[n]);
    CountCheckExact(parent, manifest, handles);
    MissingAmongNonEmpty(c, facts, ByFact(manifest), f);
  }

  lemma {:induction false} MissingAmongNonEmpty(c: Candidate, facts: seq<string>, allowed: map<string, Evidence>, f: string)
    requires f in facts && f in allowed
    ensures MissingAmong(c, facts, allowed) != []
  {
    if f != facts[|facts| - 1] {
      MissingAmongNonEmpty(c, facts[..|facts| - 1], allowed, f);
    }
  }

  /** After a fully answered repair, a handleless candidate with facts cites the handle of each of its references. */
  lemma FilledCandidateCites(parent: Fields, response: Fields, manifest: seq<Evidence>, handles: ChildHandles,
                             i: nat, f: string)
    requires Eligible(parent, manifest, handles)
    requires AllAnswered(response, References(parent, manifest, handles))
    requires i < |Candidates(parent)|
    requires ChunkId(Candidates(parent)[i].mapping).None? && f in SupportedFactIds(Candidates(parent)[i].mapping)
    ensures var c, fills := Candidates(parent)[i], Chosen(response, References(parent, manifest, handles));
            var r := ReferenceTo(c, f, manifest, handles);
            && f in ByFact(manifest)
            && r in References(parent, manifest, handles)
            && r.allowedManifest == Some(ByFact(manifest)[f].chunkId)
            && Steps(c.loc) in fills
            && r.handle == Some(fills[Steps(c.loc)])
            && fills[Steps(c.loc)] != ""
  {
    var c, refs := Candidates(parent)[i], References(parent, manifest, handles);
    HandlelessIsRepairable(parent, manifest, handles, c, f);
    CandidateHasReference(parent, manifest, handles, c, f);
    assert Answered(response, ReferenceTo(c, f, manifest, handles));
    ChosenAreAnswers(response, refs, Steps(c.loc));
  }

  lemma ClaimsOfFilled(c: Candidate, c': Candidate, n: nat)
    requires EraseFields(c.mapping) == EraseFields(c'.mapping) && c'.surface == c.surface
    requires n < |SupportedFactIds(c.mapping)|
    ensures n < |ClaimsOf(c')|
         && ClaimsOf(c')[n] == Claim(Some(SupportedFactIds(c.mapping)[n]), ChunkId(c'.mapping), c.surface, ClaimText(c.mapping))
    ensures |ClaimsOf(c')| == |SupportedFactIds(c.mapping)|
  {
    ClaimPartsErased(c.mapping);
    ClaimPartsErased(c'.mapping);
  }

  lemma FilledMappingChunk(parent: Fields, fills: Fills, c: Candidate)
    requires c in Candidates(parent)
    requires Steps(c.loc) in fills ==> ChunkId(c.mapping).None? && fills[Steps(c.loc)] != ""
    ensures ChunkId(Fill(Obj(c.mapping), fills, Steps(c.loc)).fields)
         == if Steps(c.loc) in fills then Some(fills[Steps(c.loc)]) else ChunkId(c.mapping)
  {
    CandidateIsSound(parent, c);
    FilledMapping(parent, fills, Steps(c.loc));
    FilledFieldStrings(c.mapping, fills, Steps(c.loc), "chunk_id");
    FilledFieldStrings(c.mapping, fills, Steps(c.loc), "source_chunk_id");
  }

  /** Only handleless candidates that name a fact are filled. */
  lemma FilledIsHandleless(parent: Fields, manifest: seq<Evidence>, handles: ChildHandles, fills: Fills, i: nat)
    requires FillsReferences(fills, References(parent, manifest, handles)) && i < |Candidates(parent)|
    requires Steps(Candidates(parent)[i].loc) in fills
    ensures Repairable(Candidates(parent)[i]) && SupportedFactIds(Candidates(parent)[i].mapping) != []
  {
    var p := Steps(Candidates(parent)[i].loc);
    var r :| r in References(parent, manifest, handles) && Steps(r.loc) == p && r.handle == Some(fills[p]);
    CandidateAtReference(parent, manifest, handles, r, i);
  }

  lemma FilledChunk(parent: Fields, manifest: seq<Evidence>, handles: ChildHandles, fills: Fills, i: nat)
    requires FillsReferences(fills, References(parent, manifest, handles))
    requires i < |Candidates(parent)| && |Candidates(FillFields(parent, fills))| == |Candidates(parent)|
    requires forall p :: p in fills ==> fills[p] != ""
    ensures var c, c' := Candidates(parent)[i], Candidates(FillFields(parent, fills))[i];
            ChunkId(c'.mapping) == if Steps(c.loc) in fills then Some(fills[Steps(c.loc)]) else ChunkId(c.mapping)
  {
    FilledCandidates(parent, manifest, handles, fills);
    if Steps(Candidates(parent)[i].loc) in fills {
      FilledIsHandleless(parent, manifest, handles, fills, i);
    }
    FilledMappingChunk(parent, fills, Candidates(parent)[i]);
  }

  lemma {:induction false} ClaimHasCandidate(cs: seq<Candidate>, claim: Claim) returns (i: nat)
    requires claim in AllClaims(cs)
    ensures i < |cs| && claim in ClaimsOf(cs[i])
  {
    if claim in ClaimsOf(cs[|cs| - 1]) {
      i := |cs| - 1;
    } else {
      i := ClaimHasCandidate(cs[..|cs| - 1], claim);
    }
  }

  lemma ResolvedHandlesNonEmpty(parent: Fields, response: Fields, manifest: seq<Evidence>, handles: ChildHandles)
    ensures var fills := Chosen(response, References(parent, manifest, handles));
            forall p :: p in fills ==> fills[p] != ""
  {
    var refs := References(parent, manifest, handles);
    forall p | p in Chosen(response, refs) ensures Chosen(response, refs)[p] != "" {
      ChosenAreAnswers(response, refs, p);
    }
  }

  /** After a patch that delivers every handle, a handleless candidate cites the gate's chunk for each of its facts. */
  lemma DeliveredCandidateCites(parent: Fields, response: Fields, manifest: seq<Evidence>, handles: ChildHandles,
                                i: nat, f: string)
    requires Eligible(parent, manifest, handles)
    requires AllDelivered(response, References(parent, manifest, handles))
    requires i < |Candidates(parent)|
    requires ChunkId(Candidates(parent)[i].mapping).None? && f in SupportedFactIds(Candidates(parent)[i].mapping)
    ensures var c, fills := Candidates(parent)[i], Chosen(response, References(parent, manifest, handles));
            && f in ByFact(manifest) && Steps(c.loc) in fills
            && fills[Steps(c.loc)] == ByFact(manifest)[f].chunkId
  {
    var c, refs := Candidates(parent)[i], References(parent, manifest, handles);
    HandlelessIsRepairable(parent, manifest, handles, c, f);
    CandidateHasReference(parent, manifest, handles, c, f);
    assert Delivered(response, refs, ReferenceTo(c, f, manifest, handles));
  }

  /** The candidate after filling: the same but for its handle, which is filled where it is the candidate's turn. */
  ghost predicate IsPatched(c: Candidate, c': Candidate, fills: Fills) {
    && c'.surface == c.surface
    && EraseFields(c.mapping) == EraseFields(c'.mapping)
    && (Steps(c.loc) in fills ==> Repairable(c) && SupportedFactIds(c.mapping) != [])
    && ChunkId(c'.mapping) == if Steps(c.loc) in fills then Some(fills[Steps(c.loc)]) else ChunkId(c.mapping)
  }

  lemma HandlelessSupported(parent: Fields, response: Fields, manifest: seq<Evidence>, handles: ChildHandles,
                            i: nat, c': Candidate, n: nat)
    requires Eligible(parent, manifest, handles)
    requires AllDelivered(response, References(parent, manifest, handles))
    requires i < |Candidates(parent)| && ChunkId(Candidates(parent)[i].mapping).None?
    requires IsPatched(Candidates(parent)[i], c', Chosen(response, References(parent, manifest, handles)))
    requires n < |SupportedFactIds(Candidates(parent)[i].mapping)|
    ensures n < |ClaimsOf(c')| && Supported(ClaimsOf(c')[n], ByFact(manifest))
  {
    var c := Candidates(parent)[i];
    ClaimsOfFilled(c, c', n);
    DeliveredCandidateCites(parent, response, manifest, handles, i, SupportedFactIds(c.mapping)[n]);
  }

  /** After a patch that delivers every handle, every claim of a candidate is supported. */
  lemma CandidateSupported(parent: Fields, response: Fields, manifest: seq<Evidence>, handles: ChildHandles,
                           i: nat, c': Candidate, claim: Claim)
    requires Eligible(parent, manifest, handles)
    requires AllDelivered(response, References(parent, manifest, handles))
    requires i < |Candidates(parent)|
    requires IsPatched(Candidates(parent)[i], c', Chosen(response, References(parent, manifest, handles)))
    requires claim in ClaimsOf(c')
    ensures Supported(claim, ByFact(manifest))
  {
    var c := Candidates(parent)[i];
    ClaimPartsErased(c.mapping);
    ClaimPartsErased(c'.mapping);
    if ChunkId(c.mapping).Some? {
      assert ClaimsOf(c') == ClaimsOf(c);
      ClaimObjection(parent, manifest, c, claim);
    } else {
      var n :| 0 <= n < |ClaimsOf(c')| && ClaimsOf(c')[n] == claim;
      HandlelessSupported(parent, response, manifest, handles, i, c', n);
    }
  }

  lemma PatchedClaimsExist(parent: Fields, response: Fields, manifest: seq<Evidence>, handles: ChildHandles)
    requires Eligible(parent, manifest, handles)
    ensures ParentClaims(ApplyAll(parent, response, References(parent, manifest, handles))) != []
  {
    var v := Validate(manifest, parent);
    assert v.rejectedClaims[0] in v.rejectedClaims && v.rejectedClaims[0].reason == MissingEvidenceHandle;
    RepairIsSafe(parent, response, manifest, handles);
  }

  /** What a patch did to the `i`-th candidate. */
  lemma PatchedCandidate(parent: Fields, response: Fields, manifest: seq<Evidence>, handles: ChildHandles, i: nat)
    requires i < |Candidates(parent)|
    ensures var refs := References(parent, manifest, handles);
            var after := Candidates(ApplyAll(parent, response, refs));
            |after| == |Candidates(parent)| && IsPatched(Candidates(parent)[i], after[i], Chosen(response, refs))
  {
    var refs := References(parent, manifest, handles);
    RepairIsSafe(parent, response, manifest, handles);
    FilledCandidates(parent, manifest, handles, Chosen(response, refs));
    ResolvedHandlesNonEmpty(parent, response, manifest, handles);
    FilledChunk(parent, manifest, handles, Chosen(response, refs), i);
    if Steps(Candidates(parent)[i].loc) in Chosen(response, refs) {
      FilledIsHandleless(parent, manifest, handles, Chosen(response, refs), i);
    }
  }

  lemma DeliveryIsAccepted(parent: Fields, response: Fields, manifest: seq<Evidence>, handles: ChildHandles)
    requires Eligible(parent, manifest, handles)
    requires AllDelivered(response, References(parent, manifest, handles))
    ensures Validate(manifest, ApplyAll(parent, response, References(parent, manifest, handles))).accepted
  {
    var refs := References(parent, manifest, handles);
    var patched := ApplyAll(parent, response, refs);
    RepairIsSafe(parent, response, manifest, handles);
    FilledCandidates(parent, manifest, handles, Chosen(response, refs));
    ClaimsComeFromCandidates(patched);
    forall claim | claim in ParentClaims(patched) ensures Supported(claim, ByFact(manifest)) {
      var i := ClaimHasCandidate(Candidates(patched), claim);
      PatchedCandidate(parent, response, manifest, handles, i);
      CandidateSupported(parent, response, manifest, handles, i, Candidates(patched)[i], claim);
    }
    PatchedClaimsExist(parent, response, manifest, handles);
    AcceptanceIsSupport(manifest, patched);
  }

  lemma AgreementIsAccepted(parent: Fields, response: Fields, manifest: seq<Evidence>, handles: ChildHandles)
    requires Eligible(parent, manifest, handles)
    requires AllAnswered(response, References(parent, manifest, handles))
    requires HandlesAgree(References(parent, manifest, handles))
    ensures Validate(manifest, ApplyAll(parent, response, References(parent, manifest, handles))).accepted
  {
    AgreementDelivers(response, References(parent, manifest, handles));
    DeliveryIsAccepted(parent, response, manifest, handles);
  }

  /** In an accepted patch every reference's place was filled, with the handle the gate demands. */
  lemma AcceptanceAgrees(parent: Fields, response: Fields, manifest: seq<Evidence>, handles: ChildHandles, r: Reference)
    requires Eligible(parent, manifest, handles)
    requires r in References(parent, manifest, handles)
    requires Validate(manifest, ApplyAll(parent, response, References(parent, manifest, handles))).accepted
    ensures var p, fills := Steps(r.loc), Chosen(response, References(parent, manifest, handles));
            && p in fills && ResponseHandle(response, p) == r.allowedManifest == Some(fills[p])
  {
    var refs := References(parent, manifest, handles);
    var patched, fills := ApplyAll(parent, response, refs), Chosen(response, refs);
    RepairIsSafe(parent, response, manifest, handles);
    ResolvedHandlesNonEmpty(parent, response, manifest, handles);
    FilledCandidates(parent, manifest, handles, fills);
    var c := ReferenceDescribesCandidate(parent, manifest, handles, r);
    var i :| 0 <= i < |Candidates(parent)| && Candidates(parent)[i] == c;
    var c' := Candidates(patched)[i];
    FilledChunk(parent, manifest, handles, fills, i);
    var n :| 0 <= n < |SupportedFactIds(c.mapping)| && SupportedFactIds(c.mapping)[n] == r.factId;
    ClaimsOfFilled(c, c', n);
    ClaimsComeFromCandidates(patched);
    ClaimOfCandidate(Candidates(patched), c', ClaimsOf(c')[n]);
    AcceptanceIsSupport(manifest, patched);
    assert Supported(ClaimsOf(c')[n], ByFact(manifest));
    ChosenAreAnswers(response, refs, Steps(r.loc));
  }
}
