/** When a parent can be repaired, and what a patch writes where, in terms of the trees. */
module PatchMeaning {
  import opened Options
  import opened Json
  import opened Text
  import opened TraceGuard
  import opened ParentPaths
  import opened RepairReferences
  import opened RepairResolution
  import opened RepairPatch
  import opened RepairSafety
  import opened RepairCompleteness
  import opened ClaimMeaning
  import opened ProtocolFidelity
  import opened HandleMeaning

  // ---------- The patch ----------

  /** Some reference points here, and the response has at this place the handle it may take. */
  ghost predicate AnsweredAt(refs: seq<Reference>, response: Fields, p: Path, h: string) {
    && (exists r :: r in refs && Steps(r.loc) == p && r.handle == Some(h))
    && At(Obj(response), p).Some? && At(Obj(response), p).value.Obj?
    && Holds(At(Obj(response), p).value.fields, "evidence_chunk_id", h)
  }

  lemma AnsweredAtIff(refs: seq<Reference>, response: Fields, p: Path, h: string)
    ensures AnsweredAt(refs, response, p, h) <==> p in Chosen(response, refs) && Chosen(response, refs)[p] == h
  {
    ChosenAreAnswers(response, refs, p);
    if At(Obj(response), p).Some? && At(Obj(response), p).value.Obj? {
      HoldsIff(At(Obj(response), p).value.fields, "evidence_chunk_id", h);
    }
    if AnsweredAt(refs, response, p, h) {
      var r :| r in refs && Steps(r.loc) == p && r.handle == Some(h);
      assert Answered(response, r);
    }
    if p in Chosen(response, refs) && Chosen(response, refs)[p] == h {
      var r :| r in refs && Answered(response, r) && Steps(r.loc) == p;
    }
  }

  /** A reference is answered when the response has its handle, a non-empty string, in the mapping at its place. */
  lemma AnsweredMeans(response: Fields, r: Reference)
    ensures Answered(response, r)
       <==> && r.handle.Some? && At(Obj(response), Steps(r.loc)).Some? && At(Obj(response), Steps(r.loc)).value.Obj?
            && Holds(At(Obj(response), Steps(r.loc)).value.fields, "evidence_chunk_id", r.handle.value)
  {
    if r.handle.Some? && At(Obj(response), Steps(r.loc)).Some? && At(Obj(response), Steps(r.loc)).value.Obj? {
      HoldsIff(At(Obj(response), Steps(r.loc)).value.fields, "evidence_chunk_id", r.handle.value);
    }
  }

  /** A mapping with an answered reference gets that handle; any other keeps what it had. */
  ghost predicate Patched(m: Fields, m': Fields, refs: seq<Reference>, response: Fields, p: Path) {
    && (forall h :: AnsweredAt(refs, response, p, h) ==> "evidence_chunk_id" in m' && m'["evidence_chunk_id"] == Str(h))
    && ((forall h :: !AnsweredAt(refs, response, p, h)) ==>
          && ("evidence_chunk_id" in m' <==> "evidence_chunk_id" in m)
          && ("evidence_chunk_id" in m ==> m'["evidence_chunk_id"] == m["evidence_chunk_id"]))
  }

  /** A fill that sits elsewhere leaves the handle of a mapping as it is. */
  lemma UnfilledHandle(m: Fields, f: Fills, p: Path)
    requires p !in f && forall q :: q in f ==> HandleFree(q)
    ensures var m' := Fill(Obj(m), f, p).fields;
            && (HANDLE_KEY in m' <==> HANDLE_KEY in m) && (HANDLE_KEY in m ==> m'[HANDLE_KEY] == m[HANDLE_KEY])
  {
    FillObject(m, f, p);
    if HANDLE_KEY in m {
      forall q | q in f ensures !(p + [Key(HANDLE_KEY)] <= q) {
        NotBelowHandle(p, q);
      }
      FillElsewhere(m[HANDLE_KEY], f, p + [Key(HANDLE_KEY)]);
    }
  }

  lemma NotBelowHandle(p: Path, q: Path)
    requires HandleFree(q)
    ensures !(p + [Key(HANDLE_KEY)] <= q)
  {
    var here := p + [Key(HANDLE_KEY)];
    assert here[|p|] == Key(HANDLE_KEY);
    assert forall i :: 0 <= i < |q| ==> q[i] in q;
  }

  /** A patched parent is built as before, and each of its mappings is patched by the answered references. */
  lemma PatchMeans(parent: Fields, response: Fields, manifest: seq<Evidence>, handles: ChildHandles, p: Path)
    ensures var refs := References(parent, manifest, handles); var patched := ApplyAll(parent, response, refs);
            && BuiltAlike(Obj(parent), Obj(patched))
            && (OutsideHandles(p) && At(Obj(parent), p).Some? && At(Obj(parent), p).value.Obj? ==>
                  && At(Obj(patched), p).Some? && At(Obj(patched), p).value.Obj?
                  && Patched(At(Obj(parent), p).value.fields, At(Obj(patched), p).value.fields, refs, response, p))
  {
    var refs := References(parent, manifest, handles);
    var f := Chosen(response, refs);
    forall r | r in refs ensures PointsInto(r, parent) {
      ReferencePointsInto(parent, manifest, handles, r);
    }
    ApplyIsFill(parent, response, refs);
    EraseFill(Obj(parent), f, []);
    ErasedIffBuiltAlike(Obj(parent), Obj(FillFields(parent, f)));
    if OutsideHandles(p) && At(Obj(parent), p).Some? && At(Obj(parent), p).value.Obj? {
      OutsideIsHandleFree(p);
      FilledMapping(parent, f, p);
      forall q | q in f ensures HandleFree(q) {
        ChosenAreAnswers(response, refs, q);
      }
      MappingPatched(At(Obj(parent), p).value.fields, refs, response, p);
    }
  }

  lemma MappingPatched(m: Fields, refs: seq<Reference>, response: Fields, p: Path)
    requires forall q :: q in Chosen(response, refs) ==> HandleFree(q)
    ensures Patched(m, Fill(Obj(m), Chosen(response, refs), p).fields, refs, response, p)
  {
    var f := Chosen(response, refs);
    FillObject(m, f, p);
    forall h ensures AnsweredAt(refs, response, p, h) <==> p in f && f[p] == h {
      AnsweredAtIff(refs, response, p, h);
    }
    if p !in f {
      UnfilledHandle(m, f, p);
    } else {
      assert AnsweredAt(refs, response, p, f[p]);
    }
  }

  // ---------- Eligibility ----------

  /** The gate's objection to the claim is a missing handle. */
  ghost predicate WantsHandle(c: Claim, manifest: seq<Evidence>) {
    c.factId.Some? && Known(manifest, c.factId.value) && c.chunkId == None
  }

  /** The mapping can take a handle for every known fact it names: its own is absent or null, and one is on offer. */
  ghost predicate CanTakeHandle(c: Candidate, manifest: seq<Evidence>, handles: ChildHandles) {
    forall f :: NamesFact(c.mapping, f) && Known(manifest, f) && StatesChunk(c.mapping, None) ==>
      && NoHandle(c.mapping)
      && exists i: nat :: LastCited(manifest, handles, f, i) && manifest[i].chunkId != ""
  }

  lemma OnlyMissingMeans(parent: Fields, manifest: seq<Evidence>)
    ensures OnlyMissingHandles(Validate(manifest, parent))
       <==> && (exists c :: Makes(parent, c) && WantsHandle(c, manifest))
            && (forall c :: Makes(parent, c) ==> Cites(c, manifest) || WantsHandle(c, manifest))
  {
    var v, claims, allowed := Validate(manifest, parent), ParentClaims(parent), ByFact(manifest);
    forall c ensures (c in claims <==> Makes(parent, c)) && (Cites(c, manifest) <==> Supported(c, allowed))
                     && (WantsHandle(c, manifest) <==> Objection(c, allowed) == Some(MissingEvidenceHandle)) {
      MadeByParent(parent, c);
      CitesIff(c, manifest);
      ObjectionMeans(c, manifest, MissingEvidenceHandle);
    }
    OnlyMissingOf(claims, allowed, v);
  }

  lemma OnlyMissingOf(claims: seq<Claim>, allowed: map<string, Evidence>, v: Verdict)
    requires v.rejectedClaims == AllRejections(claims, allowed) && (v.accepted <==> v.rejectedClaims == [])
    ensures OnlyMissingHandles(v)
       <==> && (exists c :: c in claims && Objection(c, allowed) == Some(MissingEvidenceHandle))
            && (forall c :: c in claims ==> Supported(c, allowed) || Objection(c, allowed) == Some(MissingEvidenceHandle))
  {
    var rejected := RejectedOf(claims, allowed);
    forall r ensures r in rejected <==> r.claim in claims && Objection(r.claim, allowed) == Some(r.reason) {
      RejectedIffObjected(claims, allowed, r);
    }
    if claims != [] {
      if OnlyMissingHandles(v) {
        var r := rejected[0];
        assert r in rejected && r.claim in claims;
        forall c | c in claims ensures Supported(c, allowed) || Objection(c, allowed) == Some(MissingEvidenceHandle) {
          if Objection(c, allowed).Some? {
            assert Rejection(Objection(c, allowed).value, c) in rejected;
          }
        }
      }
      if c :| c in claims && Objection(c, allowed) == Some(MissingEvidenceHandle) {
        assert Rejection(MissingEvidenceHandle, c) in rejected;
      }
    }
  }

  lemma {:induction false} MissingAmongIff(c: Candidate, facts: seq<string>, allowed: map<string, Evidence>)
    ensures MissingAmong(c, facts, allowed) != [] <==> exists f :: f in facts && f in allowed
  {
    if facts != [] {
      MissingAmongIff(c, facts[..|facts| - 1], allowed);
    }
  }

  /** The mapping makes a claim that wants a handle. */
  lemma MissingOfIff(c: Candidate, manifest: seq<Evidence>)
    ensures MissingOf(c, ByFact(manifest)) != []
       <==> StatesChunk(c.mapping, None) && exists f :: NamesFact(c.mapping, f) && Known(manifest, f)
  {
    StatedChunkIsUnique(c.mapping, None);
    MissingAmongIff(c, SupportedFactIds(c.mapping), ByFact(manifest));
    forall f ensures (NamesFact(c.mapping, f) <==> f in SupportedFactIds(c.mapping)) && (Known(manifest, f) <==> f in ByFact(manifest)) {
      NamedIff(c.mapping, f);
      KnownIff(manifest, f);
    }
  }

  lemma HandleOnOffer(manifest: seq<Evidence>, handles: ChildHandles, f: string)
    ensures (exists h :: RepairHandle(manifest, handles, f) == Some(h) && h != "")
       <==> exists i: nat :: LastCited(manifest, handles, f, i) && manifest[i].chunkId != ""
  {
    if i: nat :| LastCited(manifest, handles, f, i) && manifest[i].chunkId != "" {
      RepairHandleIsLast(manifest, handles, f, i);
    }
    if RepairHandle(manifest, handles, f).Some? {
      var i := LastCitedExists(manifest, handles, f);
      RepairHandleIsLast(manifest, handles, f, i);
    }
  }

  lemma EligibleTakesHandles(parent: Fields, manifest: seq<Evidence>, handles: ChildHandles, c: Candidate, f: string)
    requires Eligible(parent, manifest, handles) && c in Candidates(parent)
    requires NamesFact(c.mapping, f) && Known(manifest, f) && StatesChunk(c.mapping, None)
    ensures NoHandle(c.mapping) && exists i: nat :: LastCited(manifest, handles, f, i) && manifest[i].chunkId != ""
  {
    CountCheckExact(parent, manifest, handles);
    MissingOfIff(c, manifest);
    assert !StateOf(c.mapping).Invalid?;
    StatedChunkIsUnique(c.mapping, None);
    NamedIff(c.mapping, f);
    KnownIff(manifest, f);
    CandidateHasReference(parent, manifest, handles, c, f);
    HandleOnOffer(manifest, handles, f);
    assert RepairHandle(manifest, handles, f).Some?;
  }

  lemma TakingHandlesResolves(parent: Fields, manifest: seq<Evidence>, handles: ChildHandles)
    requires forall c :: c in Candidates(parent) ==> CanTakeHandle(c, manifest, handles)
    ensures var v := Validate(manifest, parent);
            |References(parent, manifest, handles)| == |MissingClaims(v.rejectedClaims)|
    ensures forall r :: r in References(parent, manifest, handles) ==> r.handle.Some? && r.handle.value != ""
  {
    CountCheckExact(parent, manifest, handles);
    forall c | c in Candidates(parent) && MissingOf(c, ByFact(manifest)) != [] ensures !StateOf(c.mapping).Invalid? {
      MissingOfIff(c, manifest);
      var f :| NamesFact(c.mapping, f) && Known(manifest, f);
      assert CanTakeHandle(c, manifest, handles);
    }
    forall r | r in References(parent, manifest, handles) ensures r.handle.Some? && r.handle.value != "" {
      ReferenceHandle(parent, manifest, handles, r);
    }
  }

  lemma ReferenceHandle(parent: Fields, manifest: seq<Evidence>, handles: ChildHandles, r: Reference)
    requires forall c :: c in Candidates(parent) ==> CanTakeHandle(c, manifest, handles)
    requires r in References(parent, manifest, handles)
    ensures r.handle.Some? && r.handle.value != ""
  {
    var c := ReferenceDescribesCandidate(parent, manifest, handles, r);
    RecordsIff(r, c, manifest, handles);
    assert CanTakeHandle(c, manifest, handles);
    HandleOnOffer(manifest, handles, r.factId);
  }

  lemma MissingCount(rejected: seq<Rejection>)
    ensures (forall r :: r in rejected ==> r.reason == MissingEvidenceHandle) ==> |MissingClaims(rejected)| == |rejected|
  {
    if rejected != [] {
      MissingCount(rejected[..|rejected| - 1]);
      assert rejected[|rejected| - 1] in rejected;
      assert forall r :: r in rejected[..|rejected| - 1] ==> r in rejected;
    }
  }

  /**
    * A parent can be repaired exactly when some claim wants a handle, every other claim cites its fact's entry, and
    * each mapping behind a claim that wants one has its handle absent or null and a chunk on offer for the fact.
    */
  lemma EligibleMeans(parent: Fields, manifest: seq<Evidence>, handles: ChildHandles)
    ensures Eligible(parent, manifest, handles)
       <==> && (exists c :: Makes(parent, c) && WantsHandle(c, manifest))
            && (forall c :: Makes(parent, c) ==> Cites(c, manifest) || WantsHandle(c, manifest))
            && (forall c :: c in Candidates(parent) ==> CanTakeHandle(c, manifest, handles))
  {
    OnlyMissingMeans(parent, manifest);
    MissingCount(Validate(manifest, parent).rejectedClaims);
    if Eligible(parent, manifest, handles) {
      forall c | c in Candidates(parent) ensures CanTakeHandle(c, manifest, handles) {
        forall f | NamesFact(c.mapping, f) && Known(manifest, f) && StatesChunk(c.mapping, None)
          ensures NoHandle(c.mapping) && exists i: nat :: LastCited(manifest, handles, f, i) && manifest[i].chunkId != ""
        {
          EligibleTakesHandles(parent, manifest, handles, c, f);
        }
      }
    }
    if forall c :: c in Candidates(parent) ==> CanTakeHandle(c, manifest, handles) {
      TakingHandlesResolves(parent, manifest, handles);
    }
  }
}
