/** References correspond one to one, in order, with the repairable missing-handle rejections. */
module RepairResolution {
  import opened Options
  import opened Json
  import opened Text
  import opened TraceGuard
  import opened ParentPaths
  import opened RepairReferences

  // ---------- Missing-handle claims, candidate by candidate ----------

  function AsClaim(factId: string, surface: string, text: string): Claim {
    Claim(Some(factId), None, surface, text)
  }

  /** The claims of the mapping that the gate rejects for want of a handle. */
  function MissingAmong(c: Candidate, facts: seq<string>, allowed: map<string, Evidence>): seq<Claim> {
    if facts == [] then []
    else
      var f := facts[|facts| - 1];
      MissingAmong(c, facts[..|facts| - 1], allowed)
      + (if f in allowed then [AsClaim(f, c.surface, ClaimText(c.mapping))] else [])
  }

  function MissingOf(c: Candidate, allowed: map<string, Evidence>): seq<Claim> {
    if ChunkId(c.mapping).Some? then [] else MissingAmong(c, SupportedFactIds(c.mapping), allowed)
  }

  function AllMissing(cs: seq<Candidate>, allowed: map<string, Evidence>): seq<Claim> {
    if cs == [] then [] else AllMissing(cs[..|cs| - 1], allowed) + MissingOf(cs[|cs| - 1], allowed)
  }

  /** Only the candidates whose `evidence_chunk_id` is absent or null. */
  function RepairableMissing(cs: seq<Candidate>, allowed: map<string, Evidence>): seq<Claim> {
    if cs == [] then []
    else RepairableMissing(cs[..|cs| - 1], allowed)
         + (if StateOf(cs[|cs| - 1].mapping).Invalid? then [] else MissingOf(cs[|cs| - 1], allowed))
  }

  function ReferencedClaims(refs: seq<Reference>): seq<Claim> {
    seq(|refs|, i requires 0 <= i < |refs| => AsClaim(refs[i].factId, refs[i].surface, refs[i].claimText))
  }

  /** Every missing-handle rejection is repairable, and by a non-empty handle. */
  predicate ResolutionPass(missingCount: nat, refs: seq<Reference>) {
    && missingCount != 0
    && |refs| == missingCount
    && forall r :: r in refs ==> r.handle.Some? && r.handle.value != ""
  }

  // ---------- Rejections of a concatenation ----------

  lemma {:induction false} RejectedOfAppend(a: seq<Claim>, b: seq<Claim>, allowed: map<string, Evidence>)
    ensures RejectedOf(a + b, allowed) == RejectedOf(a, allowed) + RejectedOf(b, allowed)
  {
    if b == [] {
      assert a + b == a;
    } else {
      assert (a + b)[..|a + b| - 1] == a + b[..|b| - 1];
      RejectedOfAppend(a, b[..|b| - 1], allowed);
    }
  }

  lemma {:induction false} MissingClaimsAppend(a: seq<Rejection>, b: seq<Rejection>)
    ensures MissingClaims(a + b) == MissingClaims(a) + MissingClaims(b)
  {
    if b == [] {
      assert a + b == a;
    } else {
      assert (a + b)[..|a + b| - 1] == a + b[..|b| - 1];
      MissingClaimsAppend(a, b[..|b| - 1]);
    }
  }

  function HandlelessClaims(c: Candidate, facts: seq<string>): seq<Claim> {
    seq(|facts|, i requires 0 <= i < |facts| => AsClaim(facts[i], c.surface, ClaimText(c.mapping)))
  }

  lemma {:induction false} MissingOfHandleless(c: Candidate, facts: seq<string>, allowed: map<string, Evidence>)
    ensures MissingClaims(RejectedOf(HandlelessClaims(c, facts), allowed)) == MissingAmong(c, facts, allowed)
  {
    if facts != [] {
      var front := facts[..|facts| - 1];
      var last := AsClaim(facts[|facts| - 1], c.surface, ClaimText(c.mapping));
      MissingOfHandleless(c, front, allowed);
      assert HandlelessClaims(c, facts)[..|facts| - 1] == HandlelessClaims(c, front);
      var tail := match Objection(last, allowed) case Some(r) => [Rejection(r, last)] case None => [];
      assert RejectedOf(HandlelessClaims(c, facts), allowed) == RejectedOf(HandlelessClaims(c, front), allowed) + tail;
      MissingClaimsAppend(RejectedOf(HandlelessClaims(c, front), allowed), tail);
      assert tail[..0] == [];
    }
  }

  lemma {:induction false} HandledClaimsNeverMissing(claims: seq<Claim>, allowed: map<string, Evidence>)
    requires forall c :: c in claims ==> c.chunkId.Some?
    ensures MissingClaims(RejectedOf(claims, allowed)) == []
  {
    if claims != [] {
      var front, last := claims[..|claims| - 1], claims[|claims| - 1];
      HandledClaimsNeverMissing(front, allowed);
      var tail := match Objection(last, allowed) case Some(r) => [Rejection(r, last)] case None => [];
      MissingClaimsAppend(RejectedOf(front, allowed), tail);
      assert tail[..0] == [];
    }
  }

  lemma MissingOfCandidate(c: Candidate, allowed: map<string, Evidence>)
    ensures MissingClaims(RejectedOf(ClaimsOf(c), allowed)) == MissingOf(c, allowed)
  {
    if ChunkId(c.mapping).Some? {
      HandledClaimsNeverMissing(ClaimsOf(c), allowed);
    } else {
      assert ClaimsOf(c) == HandlelessClaims(c, SupportedFactIds(c.mapping));
      MissingOfHandleless(c, SupportedFactIds(c.mapping), allowed);
    }
  }

  lemma {:induction false} MissingOfAll(cs: seq<Candidate>, allowed: map<string, Evidence>)
    ensures MissingClaims(RejectedOf(AllClaims(cs), allowed)) == AllMissing(cs, allowed)
  {
    if cs != [] {
      var front, c := cs[..|cs| - 1], cs[|cs| - 1];
      MissingOfAll(front, allowed);
      MissingOfCandidate(c, allowed);
      RejectedOfAppend(AllClaims(front), ClaimsOf(c), allowed);
      MissingClaimsAppend(RejectedOf(AllClaims(front), allowed), RejectedOf(ClaimsOf(c), allowed));
    }
  }

  // ---------- The keys of the rejections select exactly the allowed facts ----------

  lemma {:induction false} ClaimOfCandidate(cs: seq<Candidate>, c: Candidate, claim: Claim)
    requires c in cs && claim in ClaimsOf(c)
    ensures claim in AllClaims(cs)
  {
    if c != cs[|cs| - 1] {
      ClaimOfCandidate(cs[..|cs| - 1], c, claim);
    }
  }

  lemma KeyOfMissingClaim(claims: seq<Claim>, allowed: map<string, Evidence>, f: string, surface: string, text: string)
    requires AsClaim(f, surface, text) in claims
    ensures ClaimKey(f, surface, text) in MissingKeys(RejectedOf(claims, allowed)) <==> f in allowed
  {
    var rejected, claim := RejectedOf(claims, allowed), AsClaim(f, surface, text);
    RejectedIffObjected(claims, allowed, Rejection(MissingEvidenceHandle, claim));
    forall r | r in rejected && r.reason == MissingEvidenceHandle && r.claim.factId == Some(f) ensures f in allowed {
      RejectedIffObjected(claims, allowed, r);
    }
  }

  lemma HandlelessClaimListed(c: Candidate, f: string)
    requires ChunkId(c.mapping).None? && f in SupportedFactIds(c.mapping)
    ensures AsClaim(f, c.surface, ClaimText(c.mapping)) in ClaimsOf(c)
  {
    var i :| 0 <= i < |SupportedFactIds(c.mapping)| && SupportedFactIds(c.mapping)[i] == f;
    assert ClaimsOf(c)[i] == AsClaim(f, c.surface, ClaimText(c.mapping));
  }

  lemma KeySelectsAllowedFacts(parent: Fields, manifest: seq<Evidence>, c: Candidate, f: string)
    requires c in Candidates(parent) && ChunkId(c.mapping).None? && f in SupportedFactIds(c.mapping)
    ensures ClaimKey(f, c.surface, ClaimText(c.mapping)) in MissingKeys(Validate(manifest, parent).rejectedClaims)
      <==> f in ByFact(manifest)
  {
    ClaimsComeFromCandidates(parent);
    HandlelessClaimListed(c, f);
    ClaimOfCandidate(Candidates(parent), c, AsClaim(f, c.surface, ClaimText(c.mapping)));
    KeyOfMissingClaim(ParentClaims(parent), ByFact(manifest), f, c.surface, ClaimText(c.mapping));
  }

  // ---------- The correspondence ----------

  lemma {:induction false} FactReferencesAreMissing(c: Candidate, facts: seq<string>, keys: set<ClaimKey>,
                                                    manifest: seq<Evidence>, handles: ChildHandles)
    requires forall f :: f in facts ==>
      (ClaimKey(f, c.surface, ClaimText(c.mapping)) in keys <==> f in ByFact(manifest))
    ensures ReferencedClaims(FactReferences(c, facts, keys, manifest, handles)) == MissingAmong(c, facts, ByFact(manifest))
  {
    if facts != [] {
      assert facts[|facts| - 1] in facts;
      FactReferencesAreMissing(c, facts[..|facts| - 1], keys, manifest, handles);
    }
  }

  /** The keys select, for every handleless candidate, exactly the facts the manifest knows. */
  ghost predicate KeysSelect(cs: seq<Candidate>, keys: set<ClaimKey>, manifest: seq<Evidence>) {
    forall c, f :: c in cs && ChunkId(c.mapping).None? && f in SupportedFactIds(c.mapping) ==>
      (ClaimKey(f, c.surface, ClaimText(c.mapping)) in keys <==> f in ByFact(manifest))
  }

  lemma ReferencedClaimsAppend(a: seq<Reference>, b: seq<Reference>)
    ensures ReferencedClaims(a + b) == ReferencedClaims(a) + ReferencedClaims(b)
  {
  }

  lemma {:induction false} ReferencesAreMissing(cs: seq<Candidate>, keys: set<ClaimKey>,
                                                manifest: seq<Evidence>, handles: ChildHandles)
    requires KeysSelect(cs, keys, manifest)
    ensures ReferencedClaims(ReferencesOf(cs, keys, manifest, handles)) == RepairableMissing(cs, ByFact(manifest))
  {
    if cs != [] {
      var front, c := cs[..|cs| - 1], cs[|cs| - 1];
      assert c in cs;
      ReferencesAreMissing(front, keys, manifest, handles);
      if Repairable(c) {
        var found := FactReferences(c, SupportedFactIds(c.mapping), keys, manifest, handles);
        FactReferencesAreMissing(c, SupportedFactIds(c.mapping), keys, manifest, handles);
        ReferencedClaimsAppend(ReferencesOf(front, keys, manifest, handles), found);
      } else {
        assert ReferencesOf(cs, keys, manifest, handles) == ReferencesOf(front, keys, manifest, handles);
        assert StateOf(c.mapping).Invalid? || MissingOf(c, ByFact(manifest)) == [];
      }
    }
  }

  /** In order, the rejections for a missing handle are those of all candidates, and the references are those of the
      candidates whose field is absent or null. */
  lemma ReferencesMatchRejections(parent: Fields, manifest: seq<Evidence>, handles: ChildHandles)
    ensures var v := Validate(manifest, parent);
            && MissingClaims(v.rejectedClaims) == AllMissing(Candidates(parent), ByFact(manifest))
            && ReferencedClaims(Identify(parent, v, manifest, handles))
               == RepairableMissing(Candidates(parent), ByFact(manifest))
  {
    var cs, v := Candidates(parent), Validate(manifest, parent);
    ClaimsComeFromCandidates(parent);
    MissingOfAll(cs, ByFact(manifest));
    if ParentClaims(parent) == [] {
      assert v.rejectedClaims[..0] == [];
      assert RejectedOf([], ByFact(manifest)) == [];
    }
    forall c, f | c in cs && ChunkId(c.mapping).None? && f in SupportedFactIds(c.mapping)
      ensures ClaimKey(f, c.surface, ClaimText(c.mapping)) in MissingKeys(v.rejectedClaims) <==> f in ByFact(manifest)
    {
      KeySelectsAllowedFacts(parent, manifest, c, f);
    }
    ReferencesAreMissing(cs, MissingKeys(v.rejectedClaims), manifest, handles);
  }

  lemma {:induction false} RepairableCountExact(cs: seq<Candidate>, allowed: map<string, Evidence>)
    ensures |RepairableMissing(cs, allowed)| <= |AllMissing(cs, allowed)|
    ensures |RepairableMissing(cs, allowed)| == |AllMissing(cs, allowed)|
      <==> forall c :: c in cs && MissingOf(c, allowed) != [] ==> !StateOf(c.mapping).Invalid?
  {
    if cs != [] {
      RepairableCountExact(cs[..|cs| - 1], allowed);
      assert cs == cs[..|cs| - 1] + [cs[|cs| - 1]];
    }
  }

  /** The count check passes exactly when no missing-handle rejection comes from a mapping whose field is present
      and not null. */
  lemma CountCheckExact(parent: Fields, manifest: seq<Evidence>, handles: ChildHandles)
    ensures var v := Validate(manifest, parent);
            |Identify(parent, v, manifest, handles)| == |MissingClaims(v.rejectedClaims)|
            <==> forall c :: c in Candidates(parent) && MissingOf(c, ByFact(manifest)) != [] ==> !StateOf(c.mapping).Invalid?
  {
    var refs := Identify(parent, Validate(manifest, parent), manifest, handles);
    ReferencesMatchRejections(parent, manifest, handles);
    RepairableCountExact(Candidates(parent), ByFact(manifest));
    assert |ReferencedClaims(refs)| == |refs|;
  }

  // ---------- What a single reference says ----------

  /** The reference describes fact `r.factId` of candidate `c`. */
  ghost predicate Describes(r: Reference, c: Candidate, manifest: seq<Evidence>, handles: ChildHandles) {
    && r == ReferenceTo(c, r.factId, manifest, handles)
    && Repairable(c)
    && r.factId in SupportedFactIds(c.mapping)
    && r.factId in ByFact(manifest)
  }

  lemma {:induction false} FactReferenceMembership(c: Candidate, facts: seq<string>, keys: set<ClaimKey>,
                                                   manifest: seq<Evidence>, handles: ChildHandles, r: Reference)
    ensures r in FactReferences(c, facts, keys, manifest, handles)
      <==> r == ReferenceTo(c, r.factId, manifest, handles) && r.factId in facts
           && ClaimKey(r.factId, c.surface, ClaimText(c.mapping)) in keys
  {
    if facts != [] {
      FactReferenceMembership(c, facts[..|facts| - 1], keys, manifest, handles, r);
    }
  }

  lemma {:induction false} ReferenceMembership(cs: seq<Candidate>, keys: set<ClaimKey>,
                                               manifest: seq<Evidence>, handles: ChildHandles, r: Reference)
    ensures r in ReferencesOf(cs, keys, manifest, handles)
      <==> exists c :: c in cs && Repairable(c)
             && r in FactReferences(c, SupportedFactIds(c.mapping), keys, manifest, handles)
  {
    if cs != [] {
      ReferenceMembership(cs[..|cs| - 1], keys, manifest, handles, r);
      assert cs == cs[..|cs| - 1] + [cs[|cs| - 1]];
    }
  }

  lemma ReferenceDescribesCandidate(parent: Fields, manifest: seq<Evidence>, handles: ChildHandles, r: Reference)
    returns (c: Candidate)
    requires r in Identify(parent, Validate(manifest, parent), manifest, handles)
    ensures c in Candidates(parent) && Describes(r, c, manifest, handles)
  {
    var keys := MissingKeys(Validate(manifest, parent).rejectedClaims);
    ReferenceMembership(Candidates(parent), keys, manifest, handles, r);
    c :| c in Candidates(parent) && Repairable(c)
         && r in FactReferences(c, SupportedFactIds(c.mapping), keys, manifest, handles);
    FactReferenceMembership(c, SupportedFactIds(c.mapping), keys, manifest, handles, r);
    KeySelectsAllowedFacts(parent, manifest, c, r.factId);
  }

  lemma CandidateHasReference(parent: Fields, manifest: seq<Evidence>, handles: ChildHandles, c: Candidate, f: string)
    requires c in Candidates(parent) && Repairable(c) && f in SupportedFactIds(c.mapping) && f in ByFact(manifest)
    ensures ReferenceTo(c, f, manifest, handles) in Identify(parent, Validate(manifest, parent), manifest, handles)
  {
    var keys := MissingKeys(Validate(manifest, parent).rejectedClaims);
    var r := ReferenceTo(c, f, manifest, handles);
    KeySelectsAllowedFacts(parent, manifest, c, f);
    FactReferenceMembership(c, SupportedFactIds(c.mapping), keys, manifest, handles, r);
    ReferenceMembership(Candidates(parent), keys, manifest, handles, r);
  }
}
