/** Exactly when an applied repair passes the gate, the response check and the fidelity checks. */
module RepairOutcome {
  import opened Options
  import opened Json
  import opened Text
  import opened TraceGuard
  import opened ParentPaths
  import opened ErasedClaims
  import opened RepairReferences
  import opened RepairResolution
  import opened RepairPatch
  import opened RepairSafety
  import opened PatchComparison
  import opened RepairFidelity
  import opened FidelityMeaning
  import opened RepairCompleteness

  // ---------- Fills reach claim mappings only ----------

  lemma CandidateDepth(parent: Fields, c: Candidate)
    requires c in Candidates(parent)
    ensures |Steps(c.loc)| <= 3
  {
    var result, references := Get(parent, "result"), Get(parent, "evidence_references");
    SurfaceDepth(references, "evidence_references", [], "evidence_references");
    if result.Obj? {
      KeyDepth(result.fields, SURFACE_KEYS);
    }
    StepsOfSegments(Segment("result", []), Segment("result", []));
  }

  lemma {:induction false} ItemDepth(items: seq<Value>, surface: string, prefix: RefPath, key: string)
    requires prefix == [] || prefix == RESULT
    ensures forall c :: c in ItemCandidates(items, surface, prefix, key) ==> |Steps(c.loc)| <= 3
  {
    if items != [] {
      var n := |items| - 1;
      ItemDepth(items[..n], surface, prefix, key);
      StepsOfSegments(Segment("result", []), Segment(key, [n]));
      StepsOfSegments(Segment(key, [n]), Segment(key, [n]));
      assert [Segment("result", []), Segment(key, [n])] == RESULT + [Segment(key, [n])];
      assert [] + [Segment(key, [n])] == [Segment(key, [n])];
    }
  }

  lemma SurfaceDepth(v: Value, surface: string, prefix: RefPath, key: string)
    requires prefix == [] || prefix == RESULT
    ensures forall c :: c in SurfaceCandidates(v, surface, prefix, key) ==> |Steps(c.loc)| <= 3
  {
    if v.Arr? {
      ItemDepth(v.items, surface, prefix, key);
    }
    StepsOfSegments(Segment("result", []), Segment(key, []));
    StepsOfSegments(Segment(key, []), Segment(key, []));
    assert [Segment("result", []), Segment(key, [])] == RESULT + [Segment(key, [])];
    assert [] + [Segment(key, [])] == [Segment(key, [])];
  }

  lemma {:induction false} KeyDepth(result: Fields, keys: seq<string>)
    ensures forall c :: c in KeyCandidates(result, keys) ==> |Steps(c.loc)| <= 3
  {
    if keys != [] {
      var last := keys[|keys| - 1];
      KeyDepth(result, keys[..|keys| - 1]);
      SurfaceDepth(Get(result, last), "result." + last, RESULT, last);
    }
  }

  lemma FillPathShape(parent: Fields, manifest: seq<Evidence>, handles: ChildHandles, fills: Fills, p: Path)
    requires FillsReferences(fills, References(parent, manifest, handles)) && p in fills
    ensures HandleFree(p) && |p| <= 3
  {
    var r :| r in References(parent, manifest, handles) && Steps(r.loc) == p && r.handle == Some(fills[p]);
    ReferencePointsInto(parent, manifest, handles, r);
    var c := ReferenceDescribesCandidate(parent, manifest, handles, r);
    CandidateDepth(parent, c);
  }

  // ---------- Retained texts ----------

  function RetainedPath(i: nat): Path {
    [Key("result"), Key("retained_facts"), Index(i)]
  }

  lemma RetainedFactAt(parent: Fields, i: nat)
    requires RetainedFacts(parent).Some? && i < |RetainedFacts(parent).value|
    ensures At(Obj(parent), RetainedPath(i)) == Some(RetainedFacts(parent).value[i])
  {
    var result := parent["result"];
    var tail: Path := [Key("retained_facts"), Index(i)];
    assert RetainedPath(i)[1..] == tail && tail[1..] == [Index(i)] && tail[1..][1..] == [];
    assert At(result.fields["retained_facts"], tail[1..]) == Some(RetainedFacts(parent).value[i]);
    assert At(result, tail) == Some(RetainedFacts(parent).value[i]);
  }

  lemma FilledTextKept(fact: Value, fills: Fills, p: Path)
    requires forall q :: q in fills ==> |q| <= |p|
    ensures TextKept(fact, Fill(fact, fills, p))
  {
    if fact.Obj? && "text" in fact.fields {
      FillElsewhere(fact.fields["text"], fills, p + [Key("text")]);
    }
  }

  lemma SameLengthErased(a: seq<Value>, b: seq<Value>)
    requires Erase(Arr(a)) == Erase(Arr(b))
    ensures |a| == |b|
  {
    assert |a| == |Erase(Arr(a)).items| && |b| == |Erase(Arr(b)).items|;
  }

  lemma RetainedFactFilled(parent: Fields, fills: Fills, i: nat)
    requires RetainedFacts(parent).Some? && i < |RetainedFacts(parent).value|
    ensures RetainedFacts(FillFields(parent, fills)).Some?
    ensures i < |RetainedFacts(FillFields(parent, fills)).value|
    ensures RetainedFacts(FillFields(parent, fills)).value[i] == Fill(RetainedFacts(parent).value[i], fills, RetainedPath(i))
  {
    var filled := FillFields(parent, fills);
    EraseFill(Obj(parent), fills, []);
    RetainedFactsErased(parent, filled);
    SameLengthErased(RetainedFacts(parent).value, RetainedFacts(filled).value);
    RetainedFactAt(parent, i);
    RetainedFactAt(filled, i);
    AtFill(Obj(parent), fills, [], RetainedPath(i));
    assert [] + RetainedPath(i) == RetainedPath(i);
  }

  lemma RetainedTextUntouched(parent: Fields, manifest: seq<Evidence>, handles: ChildHandles, fills: Fills, i: nat)
    requires FillsReferences(fills, References(parent, manifest, handles))
    requires RetainedFacts(parent).Some? && i < |RetainedFacts(parent).value|
    ensures RetainedFacts(FillFields(parent, fills)).Some?
    ensures i < |RetainedFacts(FillFields(parent, fills)).value|
    ensures TextKept(RetainedFacts(parent).value[i], RetainedFacts(FillFields(parent, fills)).value[i])
  {
    RetainedFactFilled(parent, fills, i);
    forall q | q in fills ensures |q| <= |RetainedPath(i)| {
      FillPathShape(parent, manifest, handles, fills, q);
    }
    FilledTextKept(RetainedFacts(parent).value[i], fills, RetainedPath(i));
  }

  lemma FilledTextsKept(parent: Fields, manifest: seq<Evidence>, handles: ChildHandles, fills: Fills)
    requires FillsReferences(fills, References(parent, manifest, handles))
    ensures RetainedTextsKept(parent, FillFields(parent, fills))
  {
    if RetainedFacts(parent).Some? {
      forall i | 0 <= i < |RetainedFacts(parent).value| && RetainedFacts(FillFields(parent, fills)).Some?
        ensures i < |RetainedFacts(FillFields(parent, fills)).value|
             && TextKept(RetainedFacts(parent).value[i], RetainedFacts(FillFields(parent, fills)).value[i])
      {
        RetainedTextUntouched(parent, manifest, handles, fills, i);
      }
    }
  }

  // ---------- Fidelity of a filled parent ----------

  predicate PermittedBy(manifest: seq<Evidence>, handles: ChildHandles, factId: string, handle: string) {
    factId in ByFact(manifest) && ByFact(manifest)[factId].chunkId == handle && (factId, handle) in handles
  }

  /** Every filled handle is permitted for every fact of the mapping it fills. */
  ghost predicate FillsPermitted(parent: Fields, manifest: seq<Evidence>, handles: ChildHandles, fills: Fills) {
    forall i, f :: 0 <= i < |Candidates(parent)| && Steps(Candidates(parent)[i].loc) in fills
                   && f in SupportedFactIds(Candidates(parent)[i].mapping) ==>
      PermittedBy(manifest, handles, f, fills[Steps(Candidates(parent)[i].loc)])
  }

  lemma PrefixMembers(a: Path, b: Path, x: Step)
    ensures a <= b && x in a ==> x in b
  {
    if a <= b && x in a {
      var i :| 0 <= i < |a| && a[i] == x;
      assert b[i] == x;
    }
  }

  /** No fill sits at or below a handle. */
  lemma NoFillUnderHandle(parent: Fields, manifest: seq<Evidence>, handles: ChildHandles, fills: Fills, there: Path)
    requires FillsReferences(fills, References(parent, manifest, handles)) && Key(HANDLE_KEY) in there
    ensures forall q :: q in fills ==> !(there <= q)
  {
    forall q | q in fills ensures !(there <= q) {
      FillPathShape(parent, manifest, handles, fills, q);
      PrefixMembers(there, q, Key(HANDLE_KEY));
    }
  }

  lemma UnfilledHandleKept(parent: Fields, manifest: seq<Evidence>, handles: ChildHandles, fills: Fills, p: Path, m: Fields)
    requires FillsReferences(fills, References(parent, manifest, handles)) && p !in fills
    ensures HandleKept(m, Fill(Obj(m), fills, p).fields)
  {
    if HANDLE_KEY in m {
      var there := p + [Key(HANDLE_KEY)];
      assert there[|p|] == Key(HANDLE_KEY);
      NoFillUnderHandle(parent, manifest, handles, fills, there);
      FillElsewhere(m[HANDLE_KEY], fills, there);
    }
  }

  lemma ReferenceMayChange(manifest: seq<Evidence>, handles: ChildHandles, refs: seq<Reference>, r: Reference)
    requires r in refs && !r.state.Invalid? && r.loc != []
    ensures MayChange(RulesFor(manifest, handles, refs), HandlePath("$" + PrintSteps(Steps(r.loc))))
  {
    PrintStepsOfRefPath(r.loc);
    assert "$" + ("." + r.ParentPath()) == "$." + r.ParentPath();
    assert HandlePath("$." + r.ParentPath()) in PatchPaths(refs);
  }

  lemma WrittenHandleRepaired(m: Fields, m': Fields, handlePath: string, rules: Rules, h: string)
    requires !StateOf(m).Invalid? && SupportedFactIds(m) != [] && h != ""
    requires HANDLE_KEY in m' && m'[HANDLE_KEY] == Str(h)
    requires MayChange(rules, handlePath)
    ensures !HandleKept(m, m')
    ensures HandleRepaired(m, m', handlePath, rules) <==> forall f :: f in SupportedFactIds(m) ==> Permits(rules, f, h)
  {
  }

  lemma FilledHandleRepaired(parent: Fields, manifest: seq<Evidence>, handles: ChildHandles, fills: Fills, i: nat)
    requires FillsReferences(fills, References(parent, manifest, handles))
    requires i < |Candidates(parent)| && Steps(Candidates(parent)[i].loc) in fills
    requires fills[Steps(Candidates(parent)[i].loc)] != ""
    ensures var c := Candidates(parent)[i];
            var p, refs := Steps(c.loc), References(parent, manifest, handles);
            var m' := Fill(Obj(c.mapping), fills, p).fields;
            && !HandleKept(c.mapping, m')
            && (HandleRepaired(c.mapping, m', HandlePath("$" + PrintSteps(p)), RulesFor(manifest, handles, refs))
                <==> forall f :: f in SupportedFactIds(c.mapping) ==> Permits(RulesFor(manifest, handles, refs), f, fills[p]))
  {
    var c := Candidates(parent)[i];
    var p, refs := Steps(c.loc), References(parent, manifest, handles);
    var r :| r in refs && Steps(r.loc) == p && r.handle == Some(fills[p]);
    CandidateIsSound(parent, c);
    ReferencePointsInto(parent, manifest, handles, r);
    ReferenceMayChange(manifest, handles, refs, r);
    FilledIsHandleless(parent, manifest, handles, fills, i);
    FilledMapping(parent, fills, p);
    WrittenHandleRepaired(c.mapping, Fill(Obj(c.mapping), fills, p).fields, HandlePath("$" + PrintSteps(p)),
                          RulesFor(manifest, handles, refs), fills[p]);
  }

  lemma FilledNode(parent: Fields, manifest: seq<Evidence>, handles: ChildHandles, fills: Fills, p: Path)
    requires FillsReferences(fills, References(parent, manifest, handles))
    requires HandleFree(p) && MappingIn(Obj(parent), p).Some?
    ensures MappingIn(Obj(FillFields(parent, fills)), p)
         == Some(Fill(Obj(MappingIn(Obj(parent), p).value), fills, p).fields)
  {
    FilledMapping(parent, fills, p);
  }

  lemma FidelityForcesPermission(parent: Fields, manifest: seq<Evidence>, handles: ChildHandles, fills: Fills, i: nat)
    requires FillsReferences(fills, References(parent, manifest, handles))
    requires i < |Candidates(parent)| && Steps(Candidates(parent)[i].loc) in fills
    requires fills[Steps(Candidates(parent)[i].loc)] != ""
    requires OnlyRepairs(Obj(parent), Obj(FillFields(parent, fills)), "$",
                         RulesFor(manifest, handles, References(parent, manifest, handles)))
    ensures forall f :: f in SupportedFactIds(Candidates(parent)[i].mapping) ==>
      PermittedBy(manifest, handles, f, fills[Steps(Candidates(parent)[i].loc)])
  {
    var rules := RulesFor(manifest, handles, References(parent, manifest, handles));
    FilledHandleRepaired(parent, manifest, handles, fills, i);
    RepairedAtCandidate(parent, manifest, handles, fills, i, rules);
  }

  lemma RepairedAtCandidate(parent: Fields, manifest: seq<Evidence>, handles: ChildHandles, fills: Fills, i: nat,
                            rules: Rules)
    requires FillsReferences(fills, References(parent, manifest, handles)) && i < |Candidates(parent)|
    requires OnlyRepairs(Obj(parent), Obj(FillFields(parent, fills)), "$", rules)
    ensures var c := Candidates(parent)[i];
            var p := Steps(c.loc);
            var m' := Fill(Obj(c.mapping), fills, p).fields;
            HandleKept(c.mapping, m') || HandleRepaired(c.mapping, m', HandlePath("$" + PrintSteps(p)), rules)
  {
    var p := Steps(Candidates(parent)[i].loc);
    CandidateIsSound(parent, Candidates(parent)[i]);
    FilledNode(parent, manifest, handles, fills, p);
    RepairedAtNode(Obj(parent), Obj(FillFields(parent, fills)), rules, p);
  }

  /** A pure repair keeps or repairs the handle of every mapping. */
  lemma RepairedAtNode(a: Value, b: Value, rules: Rules, p: Path)
    requires OnlyRepairs(a, b, "$", rules)
    requires HandleFree(p) && MappingIn(a, p).Some? && MappingIn(b, p).Some?
    ensures HandleKept(MappingIn(a, p).value, MappingIn(b, p).value)
            || HandleRepaired(MappingIn(a, p).value, MappingIn(b, p).value, HandlePath("$" + PrintSteps(p)), rules)
  {
    assert NodeKeptOrRepaired(a, b, p, "$", rules);
  }

  lemma PermissionGivesNode(parent: Fields, manifest: seq<Evidence>, handles: ChildHandles, fills: Fills, p: Path)
    requires FillsReferences(fills, References(parent, manifest, handles))
    requires forall q :: q in fills ==> fills[q] != ""
    requires FillsPermitted(parent, manifest, handles, fills)
    ensures NodeKeptOrRepaired(Obj(parent), Obj(FillFields(parent, fills)), p, "$",
                               RulesFor(manifest, handles, References(parent, manifest, handles)))
  {
    if HandleFree(p) && MappingIn(Obj(parent), p).Some? {
      FilledNode(parent, manifest, handles, fills, p);
      if p in fills {
        var i := FillIsAtCandidate(parent, manifest, handles, fills, p);
        CandidateIsSound(parent, Candidates(parent)[i]);
        FilledHandleRepaired(parent, manifest, handles, fills, i);
      } else {
        UnfilledHandleKept(parent, manifest, handles, fills, p, MappingIn(Obj(parent), p).value);
      }
    }
  }

  /** Filling references passes the fidelity checks exactly when each handle is permitted where it was filled. */
  lemma FilledFidelity(parent: Fields, manifest: seq<Evidence>, handles: ChildHandles, fills: Fills)
    requires FillsReferences(fills, References(parent, manifest, handles))
    requires forall p :: p in fills ==> fills[p] != ""
    ensures Fidelity(parent, FillFields(parent, fills), RulesFor(manifest, handles, References(parent, manifest, handles))).Clean()
      <==> FillsPermitted(parent, manifest, handles, fills)
  {
    var filled := FillFields(parent, fills);
    var rules := RulesFor(manifest, handles, References(parent, manifest, handles));
    FidelityIsExact(parent, filled, rules);
    FilledTextsKept(parent, manifest, handles, fills);
    EraseFill(Obj(parent), fills, []);
    if OnlyRepairs(Obj(parent), Obj(filled), "$", rules) {
      forall i, f | 0 <= i < |Candidates(parent)| && Steps(Candidates(parent)[i].loc) in fills
                    && f in SupportedFactIds(Candidates(parent)[i].mapping)
        ensures PermittedBy(manifest, handles, f, fills[Steps(Candidates(parent)[i].loc)])
      {
        FidelityForcesPermission(parent, manifest, handles, fills, i);
      }
    }
    if FillsPermitted(parent, manifest, handles, fills) {
      forall p: Path ensures NodeKeptOrRepaired(Obj(parent), Obj(filled), p, "$", rules) {
        PermissionGivesNode(parent, manifest, handles, fills, p);
      }
    }
  }

  lemma FillIsAtCandidate(parent: Fields, manifest: seq<Evidence>, handles: ChildHandles, fills: Fills, p: Path) returns (i: nat)
    requires FillsReferences(fills, References(parent, manifest, handles)) && p in fills
    ensures i < |Candidates(parent)| && Steps(Candidates(parent)[i].loc) == p
  {
    var r :| r in References(parent, manifest, handles) && Steps(r.loc) == p && r.handle == Some(fills[p]);
    var c := ReferenceDescribesCandidate(parent, manifest, handles, r);
    i :| 0 <= i < |Candidates(parent)| && Candidates(parent)[i] == c;
  }

  // ---------- The outcome of applying a response ----------

  lemma AgreementIsPermission(parent: Fields, response: Fields, manifest: seq<Evidence>, handles: ChildHandles)
    requires Eligible(parent, manifest, handles)
    requires AllAnswered(response, References(parent, manifest, handles))
    ensures FillsPermitted(parent, manifest, handles, Chosen(response, References(parent, manifest, handles)))
      <==> HandlesAgree(References(parent, manifest, handles))
  {
    var refs := References(parent, manifest, handles);
    var fills := Chosen(response, refs);
    RepairIsSafe(parent, response, manifest, handles);
    if HandlesAgree(refs) {
      forall i, f | 0 <= i < |Candidates(parent)| && Steps(Candidates(parent)[i].loc) in fills
                    && f in SupportedFactIds(Candidates(parent)[i].mapping)
        ensures PermittedBy(manifest, handles, f, fills[Steps(Candidates(parent)[i].loc)])
      {
        FilledIsHandleless(parent, manifest, handles, fills, i);
        FilledCandidateCites(parent, response, manifest, handles, i, f);
      }
    }
    if FillsPermitted(parent, manifest, handles, fills) {
      forall r | r in refs ensures r.handle == r.allowedManifest {
        var c := ReferenceDescribesCandidate(parent, manifest, handles, r);
        var i :| 0 <= i < |Candidates(parent)| && Candidates(parent)[i] == c;
        FilledCandidateCites(parent, response, manifest, handles, i, r.factId);
        assert PermittedBy(manifest, handles, r.factId, fills[Steps(c.loc)]);
      }
    }
  }

  /** Repair completeness. An eligible block whose response answers every reference leaves no response error, and both
      the gate and the fidelity checks accept the patched parent exactly when the handles agree with the gate. */
  lemma AnsweredRepairOutcome(parent: Fields, response: Fields, manifest: seq<Evidence>, handles: ChildHandles)
    requires Eligible(parent, manifest, handles)
    requires AllAnswered(response, References(parent, manifest, handles))
    ensures var refs := References(parent, manifest, handles);
            var patched := ApplyAll(parent, response, refs);
            && ResponseErrors(response, refs) == []
            && (Validate(manifest, patched).accepted <==> HandlesAgree(refs))
            && (Fidelity(parent, patched, RulesFor(manifest, handles, refs)).Clean() <==> HandlesAgree(refs))
  {
    var refs := References(parent, manifest, handles);
    var patched := ApplyAll(parent, response, refs);
    forall r | r in refs ensures !ProposesOther(response, r) {
      ReferencePointsInto(parent, manifest, handles, r);
      PrintedPathRoundTrip(response, r.loc);
    }
    ResponseErrorsEmpty(response, refs);
    if HandlesAgree(refs) {
      AgreementIsAccepted(parent, response, manifest, handles);
    }
    if Validate(manifest, patched).accepted {
      forall r | r in refs ensures r.handle == r.allowedManifest {
        AcceptanceAgrees(parent, response, manifest, handles, r);
      }
    }
    PatchPermitted(parent, response, manifest, handles);
    AgreementIsPermission(parent, response, manifest, handles);
  }

  /** The gate accepts the patched parent exactly when the patch delivers the gate's handle for every reference; where
      repair handles and gate agree, that is when every reference is answered. */
  lemma AcceptedIffAnswered(parent: Fields, response: Fields, manifest: seq<Evidence>, handles: ChildHandles)
    requires Eligible(parent, manifest, handles)
    ensures var refs := References(parent, manifest, handles);
            && (Validate(manifest, ApplyAll(parent, response, refs)).accepted <==> AllDelivered(response, refs))
            && (HandlesAgree(refs) ==> (AllDelivered(response, refs) <==> AllAnswered(response, refs)))
  {
    var refs := References(parent, manifest, handles);
    if AllDelivered(response, refs) {
      DeliveryIsAccepted(parent, response, manifest, handles);
    }
    if Validate(manifest, ApplyAll(parent, response, refs)).accepted {
      forall r | r in refs ensures Delivered(response, refs, r) {
        AcceptanceAgrees(parent, response, manifest, handles, r);
      }
    }
    if HandlesAgree(refs) {
      AgreeingDelivery(parent, response, manifest, handles);
    }
  }

  lemma AgreeingDelivery(parent: Fields, response: Fields, manifest: seq<Evidence>, handles: ChildHandles)
    requires HandlesAgree(References(parent, manifest, handles))
    ensures var refs := References(parent, manifest, handles); AllDelivered(response, refs) <==> AllAnswered(response, refs)
  {
    var refs := References(parent, manifest, handles);
    if AllAnswered(response, refs) {
      AgreementDelivers(response, refs);
    }
    if AllDelivered(response, refs) {
      forall r | r in refs ensures Answered(response, r) {
        assert Delivered(response, refs, r);
        ChosenAreAnswers(response, refs, Steps(r.loc));
        ReferencePointsInto(parent, manifest, handles, r);
      }
    }
  }

  /** A chunk that the gate demands and a child cites is the chunk a repair may write. */
  lemma PermittedIsRepairHandle(manifest: seq<Evidence>, handles: ChildHandles, f: string)
    requires f in ByFact(manifest) && (f, ByFact(manifest)[f].chunkId) in handles
    ensures RepairHandle(manifest, handles, f) == Some(ByFact(manifest)[f].chunkId)
  {
    if manifest[|manifest| - 1].factId != f {
      PermittedIsRepairHandle(manifest[..|manifest| - 1], handles, f);
    }
  }

  /** Delivered and permitted: the reference's own handle is the gate's, and the response answers with it. */
  lemma CleanDeliveryAnswers(parent: Fields, response: Fields, manifest: seq<Evidence>, handles: ChildHandles, r: Reference)
    requires var refs := References(parent, manifest, handles);
             r in refs && Delivered(response, refs, r) && FillsPermitted(parent, manifest, handles, Chosen(response, refs))
    ensures r.handle == r.allowedManifest && Answered(response, r)
  {
    var refs := References(parent, manifest, handles);
    var c := ReferenceDescribesCandidate(parent, manifest, handles, r);
    var i :| 0 <= i < |Candidates(parent)| && Candidates(parent)[i] == c;
    assert PermittedBy(manifest, handles, r.factId, Chosen(response, refs)[Steps(c.loc)]);
    PermittedIsRepairHandle(manifest, handles, r.factId);
    ChosenAreAnswers(response, refs, Steps(r.loc));
    ReferencePointsInto(parent, manifest, handles, r);
  }

  /** For every response to an eligible parent: the patch passes gate, response and fidelity checks exactly when the
      handles agree with the gate and every reference is answered. */
  lemma RepairAcceptedIff(parent: Fields, response: Fields, manifest: seq<Evidence>, handles: ChildHandles)
    requires Eligible(parent, manifest, handles)
    ensures var refs := References(parent, manifest, handles);
            var patched := ApplyAll(parent, response, refs);
            (&& Validate(manifest, patched).accepted && ResponseErrors(response, refs) == []
             && Fidelity(parent, patched, RulesFor(manifest, handles, refs)).Clean())
            <==> HandlesAgree(refs) && AllAnswered(response, refs)
  {
    var refs := References(parent, manifest, handles);
    var patched := ApplyAll(parent, response, refs);
    if AllAnswered(response, refs) {
      AnsweredRepairOutcome(parent, response, manifest, handles);
    }
    if Validate(manifest, patched).accepted && Fidelity(parent, patched, RulesFor(manifest, handles, refs)).Clean() {
      AcceptedIffAnswered(parent, response, manifest, handles);
      PatchPermitted(parent, response, manifest, handles);
      forall r | r in refs ensures r.handle == r.allowedManifest && Answered(response, r) {
        CleanDeliveryAnswers(parent, response, manifest, handles, r);
      }
    }
  }

  lemma PatchPermitted(parent: Fields, response: Fields, manifest: seq<Evidence>, handles: ChildHandles)
    ensures var refs := References(parent, manifest, handles);
            Fidelity(parent, ApplyAll(parent, response, refs), RulesFor(manifest, handles, refs)).Clean()
            <==> FillsPermitted(parent, manifest, handles, Chosen(response, refs))
  {
    RepairIsSafe(parent, response, manifest, handles);
    ResolvedHandlesNonEmpty(parent, response, manifest, handles);
    FilledFidelity(parent, manifest, handles, Chosen(response, References(parent, manifest, handles)));
  }

  /** One manifest entry per fact is enough for the handles to agree. */
  lemma UniqueFactsAgree(parent: Fields, manifest: seq<Evidence>, handles: ChildHandles)
    requires Eligible(parent, manifest, handles) && UniqueFacts(manifest)
    ensures HandlesAgree(References(parent, manifest, handles))
  {
    forall r | r in References(parent, manifest, handles) ensures r.handle == r.allowedManifest {
      var c := ReferenceDescribesCandidate(parent, manifest, handles, r);
      var e :| e in manifest && e.factId == r.factId && e.chunkId == r.handle.value;
      UniqueFactsByFact(manifest, e);
    }
  }

  // ---------- Two entries for one fact can defeat a fully answered repair ----------

  /** A parent making one handleless claim: it references fact `f` and nothing else. */
  ghost predicate Bare(parent: Fields, c: Candidate, f: string) {
    && f != ""
    && c == Candidate("evidence_references", [Segment("evidence_references", [])], map["fact_id" := Str(f)])
    && parent == map["evidence_references" := Obj(c.mapping)]
  }

  /** The manifest lists chunk `a`, then chunk `b`, for `f`; only `a` is cited by a child. */
  ghost predicate Conflicting(manifest: seq<Evidence>, handles: ChildHandles, f: string, a: string, b: string) {
    && |manifest| == 2
    && manifest[0].factId == manifest[1].factId == f
    && manifest[0].chunkId == a && manifest[1].chunkId == b
    && a != b && a != ""
    && handles == {(f, a)}
  }

  lemma ConflictingManifest(manifest: seq<Evidence>, handles: ChildHandles, f: string, a: string, b: string)
    requires Conflicting(manifest, handles, f, a, b)
    ensures f in ByFact(manifest) && ByFact(manifest)[f].chunkId == b
    ensures RepairHandle(manifest, handles, f) == Some(a)
  {
    assert manifest[..1][0] == manifest[0];
    assert RepairHandle(manifest[..1], handles, f) == Some(a);
  }

  lemma BareFacts(m: Fields, f: string)
    requires m == map["fact_id" := Str(f)] && f != ""
    ensures SupportedFactIds(m) == [f] && ChunkId(m) == None && StateOf(m) == Absent
  {
    SingleFactId(m);
  }

  lemma BareClaims(parent: Fields, c: Candidate, f: string)
    requires Bare(parent, c, f)
    ensures Candidates(parent) == [c]
    ensures ParentClaims(parent) == [AsClaim(f, c.surface, ClaimText(c.mapping))]
  {
    assert Get(parent, "result") == Null;
    assert [] + [Segment("evidence_references", [])] == [Segment("evidence_references", [])];
    BareFacts(c.mapping, f);
    ClaimsComeFromCandidates(parent);
    AllClaimsOne(c);
    assert ClaimsOf(c) == [AsClaim(f, c.surface, ClaimText(c.mapping))];
  }

  lemma RejectedForHandle(claim: Claim, allowed: map<string, Evidence>)
    requires Objection(claim, allowed) == Some(MissingEvidenceHandle)
    ensures RejectedOf([claim], allowed) == [Rejection(MissingEvidenceHandle, claim)]
    ensures |MissingClaims(RejectedOf([claim], allowed))| == 1
  {
    var rejection := Rejection(MissingEvidenceHandle, claim);
    assert [claim][..0] == [];
    assert RejectedOf([], allowed) == [];
    assert RejectedOf([claim], allowed) == [] + [rejection];
    assert [rejection][..0] == [];
    assert MissingClaims([]) == [];
    assert MissingClaims([rejection]) == [] + [claim];
  }

  lemma BareRejection(parent: Fields, c: Candidate, manifest: seq<Evidence>, handles: ChildHandles,
                      f: string, a: string, b: string)
    requires Bare(parent, c, f) && Conflicting(manifest, handles, f, a, b)
    ensures var v := Validate(manifest, parent);
            && OnlyMissingHandles(v)
            && |MissingClaims(v.rejectedClaims)| == 1
  {
    BareClaims(parent, c, f);
    ConflictingManifest(manifest, handles, f, a, b);
    RejectedForHandle(AsClaim(f, c.surface, ClaimText(c.mapping)), ByFact(manifest));
  }

  lemma SingleReference(parent: Fields, c: Candidate, manifest: seq<Evidence>, handles: ChildHandles, f: string)
    requires forall d :: d in Candidates(parent) ==> d == c
    requires forall g :: g in SupportedFactIds(c.mapping) ==> g == f
    requires !StateOf(c.mapping).Invalid?
    ensures |References(parent, manifest, handles)| == |MissingClaims(Validate(manifest, parent).rejectedClaims)|
    ensures forall r :: r in References(parent, manifest, handles) ==> r == ReferenceTo(c, f, manifest, handles)
  {
    CountCheckExact(parent, manifest, handles);
    forall r | r in References(parent, manifest, handles) ensures r == ReferenceTo(c, f, manifest, handles) {
      var d := ReferenceDescribesCandidate(parent, manifest, handles, r);
    }
  }

  lemma BareReferences(parent: Fields, c: Candidate, manifest: seq<Evidence>, handles: ChildHandles, f: string)
    requires Bare(parent, c, f)
    ensures |References(parent, manifest, handles)| == |MissingClaims(Validate(manifest, parent).rejectedClaims)|
    ensures forall r :: r in References(parent, manifest, handles) ==> r == ReferenceTo(c, f, manifest, handles)
  {
    BareClaims(parent, c, f);
    BareFacts(c.mapping, f);
    SingleReference(parent, c, manifest, handles, f);
  }

  lemma EligibleByOne(parent: Fields, manifest: seq<Evidence>, handles: ChildHandles, r: Reference)
    requires OnlyMissingHandles(Validate(manifest, parent))
    requires |MissingClaims(Validate(manifest, parent).rejectedClaims)| == 1 == |References(parent, manifest, handles)|
    requires forall s :: s in References(parent, manifest, handles) ==> s == r
    requires r.handle.Some? && r.handle.value != ""
    ensures Eligible(parent, manifest, handles)
    ensures r in References(parent, manifest, handles)
  {
    assert References(parent, manifest, handles)[0] in References(parent, manifest, handles);
  }

  lemma AnswerByOne(response: Fields, r: Reference, p: Path, m: Fields)
    requires Steps(r.loc) == p && At(Obj(response), p) == Some(Obj(m)) && NonEmptyString(m, HANDLE_KEY) == r.handle
    requires r.handle.Some?
    ensures Answered(response, r)
  {
  }

  /** The only reference asks for the chunk a child cites, while the gate demands the other. */
  lemma BareEligible(parent: Fields, c: Candidate, manifest: seq<Evidence>, handles: ChildHandles,
                     f: string, a: string, b: string)
    requires Bare(parent, c, f) && Conflicting(manifest, handles, f, a, b)
    ensures var r := ReferenceTo(c, f, manifest, handles);
            && Eligible(parent, manifest, handles)
            && r in References(parent, manifest, handles)
            && (forall s :: s in References(parent, manifest, handles) ==> s == r)
            && r.handle == Some(a) && r.allowedManifest == Some(b)
  {
    BareRejection(parent, c, manifest, handles, f, a, b);
    ConflictingManifest(manifest, handles, f, a, b);
    BareReferences(parent, c, manifest, handles, f);
    EligibleByOne(parent, manifest, handles, ReferenceTo(c, f, manifest, handles));
  }

  lemma BareAnswered(response: Fields, r: Reference, m: Fields, a: string)
    requires response == map["evidence_references" := Obj(m)]
    requires r.loc == [Segment("evidence_references", [])] && r.handle == Some(a)
    requires HANDLE_KEY in m && m[HANDLE_KEY] == Str(a) && a != ""
    ensures Answered(response, r)
  {
    BareSteps(r.loc[0]);
    BareAnswer(response, m);
    AnswerByOne(response, r, [Key("evidence_references")], m);
  }

  /** With two entries for a fact, an eligible parent and a fully answered repair are still rejected. */
  lemma ConflictingEntriesDefeatRepair(parent: Fields, c: Candidate, response: Fields, manifest: seq<Evidence>,
                                       handles: ChildHandles, f: string, a: string, b: string)
    requires Bare(parent, c, f) && Conflicting(manifest, handles, f, a, b)
    requires response == map["evidence_references" := Obj(c.mapping[HANDLE_KEY := Str(a)])]
    ensures Eligible(parent, manifest, handles)
    ensures AllAnswered(response, References(parent, manifest, handles))
    ensures !Validate(manifest, ApplyAll(parent, response, References(parent, manifest, handles))).accepted
  {
    var r := ReferenceTo(c, f, manifest, handles);
    BareEligible(parent, c, manifest, handles, f, a, b);
    BareAnswered(response, r, c.mapping[HANDLE_KEY := Str(a)], a);
    DisagreementIsRejected(parent, response, manifest, handles, r);
  }

  lemma BareAnswer(response: Fields, m: Fields)
    requires response == map["evidence_references" := Obj(m)]
    ensures At(Obj(response), [Key("evidence_references")]) == Some(Obj(m))
  {
    var p: Path := [Key("evidence_references")];
    assert p[1..] == [];
  }

  lemma DisagreementIsRejected(parent: Fields, response: Fields, manifest: seq<Evidence>, handles: ChildHandles, r: Reference)
    requires Eligible(parent, manifest, handles) && AllAnswered(response, References(parent, manifest, handles))
    requires r in References(parent, manifest, handles) && r.handle != r.allowedManifest
    ensures !Validate(manifest, ApplyAll(parent, response, References(parent, manifest, handles))).accepted
  {
    AnsweredRepairOutcome(parent, response, manifest, handles);
  }

  lemma BareSteps(s: Segment)
    requires s.indices == []
    ensures Steps([s]) == [Key(s.key)]
  {
    StepsOfSegments(s, s);
    assert IndexSteps([]) == [];
  }
}
