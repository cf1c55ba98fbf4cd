/** What a passing cell guarantees, for every script of runtime answers. */
module CommitSoundness {
  import opened Options
  import opened Json
  import opened Text
  import opened TraceGuard
  import opened ParentPaths
  import opened ErasedClaims
  import opened RepairReferences
  import opened RepairPatch
  import opened RepairSafety
  import opened PatchComparison
  import opened RepairFidelity
  import opened FidelityMeaning
  import opened RepairCompleteness
  import opened RepairOutcome
  import opened RepairBlocks
  import opened FreshEvidence
  import opened LiveCell
  import opened EvidenceText
  import opened ProtocolFidelity

  // ---------- Evidence ----------

  /** The claim cites a retained fixture fact with its exact chunk, and a child of this run stated that fact's text. */
  ghost predicate Grounded(claim: Claim, fixture: Fixture, records: seq<ChildRecord>) {
    exists d :: LastOfKey(FixtureManifest(fixture), d)
      && claim.factId == Some(d.factId)
      && claim.chunkId == Some(d.chunkId)
      && exists r :: r in records && StatesEntry(r, d)
  }

  lemma SupportedIsGrounded(fixture: Fixture, records: seq<ChildRecord>, c: Claim)
    requires Supported(c, ByFact(FreshManifest(FixtureManifest(fixture), records)))
    ensures Grounded(c, fixture, records)
  {
    var expected := FixtureManifest(fixture);
    var manifest := FreshManifest(expected, records);
    var e := ByFact(manifest)[c.factId.value];
    FreshManifestExact(expected, records);
    assert KeyOf(e) in Keys(manifest);
    var d := ByKey(expected)[KeyOf(e)];
    ByKeyIsLast(expected, d);
    StatedEntryIsThere(expected, records, d);
  }

  lemma AcceptedClaimsAreGrounded(fixture: Fixture, records: seq<ChildRecord>, parent: Fields)
    requires Validate(FreshManifest(FixtureManifest(fixture), records), parent).accepted
    ensures ParentClaims(parent) != []
    ensures forall c :: c in ParentClaims(parent) ==> Grounded(c, fixture, records)
  {
    var manifest := FreshManifest(FixtureManifest(fixture), records);
    AcceptanceIsSupport(manifest, parent);
    forall c | c in ParentClaims(parent) ensures Grounded(c, fixture, records) {
      SupportedIsGrounded(fixture, records, c);
    }
  }

  // ---------- Repairs ----------

  /** The handle of the mapping at `p` (null when it has none), if there is a mapping at `p`. */
  function HandleAt(parent: Fields, p: Path): Option<Value> {
    match MappingIn(Obj(parent), p)
    case Some(m) => Some(Get(m, HANDLE_KEY))
    case None => None
  }

  /** Every handle that was present and not null is still there, unchanged. */
  ghost predicate HandlesPreserved(before: Fields, after: Fields) {
    forall p: Path | HandleFree(p) && HandleAt(before, p).Some? && !HandleAt(before, p).value.Null? ::
      HandleAt(after, p) == HandleAt(before, p)
  }

  lemma CleanRepairPreserves(before: Fields, after: Fields, rules: Rules)
    requires Fidelity(before, after, rules).Clean()
    ensures EraseFields(after) == EraseFields(before)
    ensures HandlesPreserved(before, after)
    ensures SameClaimTexts(ParentClaims(before), ParentClaims(after))
  {
    FidelityIsExact(before, after, rules);
    ClaimFindingsEmpty(ParentClaims(before), ParentClaims(after));
    forall p: Path | HandleFree(p) && HandleAt(before, p).Some? && !HandleAt(before, p).value.Null?
      ensures HandleAt(after, p) == HandleAt(before, p)
    {
      assert NodeKeptOrRepaired(Obj(before), Obj(after), p, "$", rules);
    }
  }

  /** Two accepted parents with the same claim texts make the same claims. */
  lemma AcceptedTextsDetermineClaims(manifest: seq<Evidence>, a: Fields, b: Fields, original: Fields)
    requires Validate(manifest, a).accepted && Validate(manifest, b).accepted
    requires SameClaimTexts(ParentClaims(original), ParentClaims(a))
    requires SameClaimTexts(ParentClaims(original), ParentClaims(b))
    ensures ParentClaims(a) == ParentClaims(b)
  {
    AcceptanceIsSupport(manifest, a);
    AcceptanceIsSupport(manifest, b);
    var x, y := ParentClaims(a), ParentClaims(b);
    SameTextsCompose(ParentClaims(original), x, y);
    SupportedTextsDetermine(x, y, ByFact(manifest));
  }

  lemma SupportedTextsDetermine(x: seq<Claim>, y: seq<Claim>, allowed: map<string, Evidence>)
    requires SameClaimTexts(x, y)
    requires (forall c :: c in x ==> Supported(c, allowed)) && (forall c :: c in y ==> Supported(c, allowed))
    ensures x == y
  {
    forall i | 0 <= i < |x| ensures x[i] == y[i] {
      assert x[i] in x && y[i] in y;
    }
  }

  lemma SameTextsCompose(o: seq<Claim>, x: seq<Claim>, y: seq<Claim>)
    requires SameClaimTexts(o, x) && SameClaimTexts(o, y)
    ensures SameClaimTexts(x, y)
  {
    forall i | 0 <= i < |x|
      ensures x[i].surface == y[i].surface && x[i].factId == y[i].factId && x[i].text == y[i].text
    {
      assert o[i].surface == x[i].surface && o[i].surface == y[i].surface;
    }
  }

  // ---------- Soundness of the verdict ----------

  /** What the artifact must satisfy for its verdict to be sound. */
  ghost predicate SoundPass(a: Artifact, fixture: Fixture, repairs: nat) {
    && ParentClaims(a.effectiveParent) != []
    && (forall c :: c in ParentClaims(a.effectiveParent) ==> Grounded(c, fixture, a.records))
    && a.coveragePass
    && (repairs > 0 ==>
          && EraseFields(a.effectiveParent) == EraseFields(a.parent)
          && HandlesPreserved(a.parent, a.effectiveParent)
          && FilledWhereReferenced(a.parent, a.effectiveParent, a.block.references)
          && a.repaired.Some? && a.retried == Some(a.effectiveParent)
          && ParentClaims(a.repaired.value) == ParentClaims(a.effectiveParent))
    && (repairs == 0 ==> a.effectiveParent == a.parent)
  }

  lemma RetriedPassIsSound(e: Evidenced, response: Fields, again: Fields)
    requires e.Attempted(response).repairAccept == Some(true) && e.Retried(response, again).retryAccept == Some(true)
    ensures EraseFields(again) == EraseFields(e.parent)
    ensures HandlesPreserved(e.parent, again)
    ensures FilledWhereReferenced(e.parent, again, e.Refs())
    ensures ParentClaims(e.Patched(response)) == ParentClaims(again)
  {
    var rules := RulesFor(e.manifest, e.handles, e.Refs());
    CleanRepairPreserves(e.parent, again, rules);
    CleanFillsReferences(e.parent, again, e.manifest, e.handles, e.Refs());
    CleanRepairPreserves(e.parent, e.Patched(response), rules);
    AcceptedTextsDetermineClaims(e.manifest, e.Patched(response), again, e.parent);
  }

  /** A pass after scheduling a repair means both answers came, both were accepted, and the retry is what counts. */
  lemma PassAfterRepair(e: Evidenced, repair: Answer, retry: Answer, n: nat)
    requires e.Initial().eligible && e.Conclude(repair, retry, n).artifact.mandatoryPass
    ensures repair.Output? && retry.Output?
    ensures e.Attempted(repair.fields).repairAccept == Some(true)
    ensures e.Retried(repair.fields, retry.fields).retryAccept == Some(true)
    ensures e.Conclude(repair, retry, n)
         == Completed(e.Finish(retry.fields, Some(e.Patched(repair.fields)), Some(retry.fields),
                               e.Retried(repair.fields, retry.fields)), n + 2, 1)
  {
  }

  lemma ConclusionIsSound(e: Evidenced, fixture: Fixture, repair: Answer, retry: Answer, n: nat)
    requires e.manifest == FreshManifest(FixtureManifest(fixture), e.records)
    ensures var o := e.Conclude(repair, retry, n);
            && n <= o.calls <= n + 2
            && o.repairs <= 1
            && (o.artifact.mandatoryPass ==> SoundPass(o.artifact, fixture, o.repairs))
  {
    var o := e.Conclude(repair, retry, n);
    if o.artifact.mandatoryPass {
      assert Validate(e.manifest, o.artifact.effectiveParent).accepted;
      AcceptedClaimsAreGrounded(fixture, e.records, o.artifact.effectiveParent);
      if e.Initial().eligible {
        PassAfterRepair(e, repair, retry, n);
        RetriedPassIsSound(e, repair.fields, retry.fields);
      }
    }
  }

  /** For every script: at most selected chunks + 3 calls, at most one repair, and a passing cell is sound. */
  lemma CommitIsSound(fixture: Fixture, familyId: string, script: Script, str: Rendering)
    ensures var o := RunCell(fixture, familyId, script, str);
            && o.calls <= |SelectedChunks(fixture)| + 3
            && (o.Completed? ==> o.repairs <= 1)
            && (o.Completed? && o.artifact.mandatoryPass ==> SoundPass(o.artifact, fixture, o.repairs))
  {
    var n := |SelectedChunks(fixture)|;
    if Uninterrupted(script, n) == n && script(n).Output? {
      var e := Gather(fixture, Records(fixture, familyId, script, n), script(n).fields, str);
      ConclusionIsSound(e, fixture, script(n + 1), script(n + 2), n + 1);
    }
  }

  // ---------- Exactly when a cell passes ----------

  /** The retry repeats the first answer with permitted handles filled in and retained texts untouched. */
  ghost predicate FaithfulRetry(e: Evidenced, again: Fields) {
    && BuiltAlike(Obj(e.parent), Obj(again))
    && (forall p: Path :: KeptOrFilled(e.parent, again, p, e.manifest, e.handles, e.Refs()))
    && TextsKept(e.parent, again)
  }

  /** A cell passes iff its evidence is complete and either the first parent is accepted, or only repairable handles were
      missing, each handle on offer is the one the gate demands, the repair answers every reference, and a faithful retry
      is accepted. */
  lemma PassExact(e: Evidenced, repair: Answer, retry: Answer, n: nat)
    ensures e.Conclude(repair, retry, n).artifact.mandatoryPass
      <==> e.coverage && e.observed
           && (Validate(e.manifest, e.parent).accepted
               || (&& Eligible(e.parent, e.manifest, e.handles) && HandlesAgree(e.Refs())
                   && repair.Output? && AllAnswered(repair.fields, e.Refs())
                   && retry.Output? && Validate(e.manifest, retry.fields).accepted
                   && FaithfulRetry(e, retry.fields)))
  {
    PassOfConclusion(e, repair, retry, n);
    if e.Initial().eligible && repair.Output? {
      RepairAcceptance(e, repair.fields);
      if retry.Output? {
        RetryAcceptance(e, repair.fields, retry.fields);
      }
    }
  }

  /** The verdict in terms of the block's two acceptances. */
  lemma PassOfConclusion(e: Evidenced, repair: Answer, retry: Answer, n: nat)
    ensures e.Conclude(repair, retry, n).artifact.mandatoryPass
      <==> e.coverage && e.observed
           && if !e.Initial().eligible then Validate(e.manifest, e.parent).accepted
              else && repair.Output? && e.Attempted(repair.fields).repairAccept == Some(true)
                   && retry.Output? && e.Retried(repair.fields, retry.fields).retryAccept == Some(true)
                   && Validate(e.manifest, retry.fields).accepted
  {
    if !e.Initial().eligible {
      FinishPass(e, e.parent, None, None, e.Initial());
    } else {
      var end := e.RepairEnding(repair, retry);
      FinishPass(e, end.effective, end.repaired, end.retried, end.block);
      EndingPass(e, repair, retry);
    }
  }

  lemma FinishPass(e: Evidenced, effective: Fields, repaired: Option<Fields>, retried: Option<Fields>, block: Block)
    ensures e.Finish(effective, repaired, retried, block).mandatoryPass
      <==> Validate(e.manifest, effective).accepted && e.coverage && e.observed && BlockPass(block)
  {
  }

  lemma EndingPass(e: Evidenced, repair: Answer, retry: Answer)
    ensures BlockPass(e.RepairEnding(repair, retry).block)
      <==> && repair.Output? && e.Attempted(repair.fields).repairAccept == Some(true)
           && retry.Output? && e.Retried(repair.fields, retry.fields).retryAccept == Some(true)
    ensures BlockPass(e.RepairEnding(repair, retry).block) ==> e.RepairEnding(repair, retry).effective == retry.fields
  {
  }

  lemma RepairAcceptance(e: Evidenced, response: Fields)
    requires Eligible(e.parent, e.manifest, e.handles)
    ensures e.Attempted(response).repairAccept == Some(HandlesAgree(e.Refs()) && AllAnswered(response, e.Refs()))
  {
    RepairAcceptedIff(e.parent, response, e.manifest, e.handles);
  }

  lemma RetryAcceptance(e: Evidenced, response: Fields, again: Fields)
    ensures e.Retried(response, again).retryAccept
         == Some(Validate(e.manifest, again).accepted && e.FidelityOf(again).Clean())
    ensures e.Retried(response, again).repairAccept == e.Attempted(response).repairAccept
    ensures e.FidelityOf(again).Clean() <==> FaithfulRetry(e, again)
  {
    ProtocolFidelityIsExact(e.parent, again, e.manifest, e.handles, e.Refs());
  }

  /** A fixture with one chunk per fact never produces disagreeing handles, so its cells need no such condition. */
  lemma OneChunkPerFactAgrees(fixture: Fixture, records: seq<ChildRecord>, parent: Fields, str: Rendering)
    requires forall d, e :: d in FixtureManifest(fixture) && e in FixtureManifest(fixture) && d.factId == e.factId ==>
      d.chunkId == e.chunkId
    ensures var e := Gather(fixture, records, parent, str);
            Eligible(e.parent, e.manifest, e.handles) ==> HandlesAgree(e.Refs())
  {
    var e := Gather(fixture, records, parent, str);
    FreshFactsUnique(FixtureManifest(fixture), records);
    if Eligible(e.parent, e.manifest, e.handles) {
      UniqueFactsAgree(e.parent, e.manifest, e.handles);
    }
  }
}
