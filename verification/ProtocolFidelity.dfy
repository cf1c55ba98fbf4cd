/** The fidelity checks of a repair in terms of the two trees, the manifest, the children's handles and the references. */
module ProtocolFidelity {
  import opened Options
  import opened Json
  import opened Text
  import opened TraceGuard
  import opened ParentPaths
  import opened ErasedClaims
  import opened RepairReferences
  import opened PatchComparison
  import opened RepairFidelity
  import opened FidelityMeaning
  import opened ClaimMeaning

  /** Some reference with an absent or null handle points at the mapping with this path. */
  ghost predicate Referenced(refs: seq<Reference>, p: Path) {
    exists r :: r in refs && (r.state == Absent || r.state == Nulled) && "$" + PrintSteps(p) == "$." + r.ParentPath()
  }

  ghost predicate OutsideHandles(p: Path) {
    forall i :: 0 <= i < |p| ==> p[i] != Key("evidence_chunk_id")
  }

  /** The mapping had no handle, or null. */
  predicate NoHandle(m: Fields) {
    "evidence_chunk_id" !in m || m["evidence_chunk_id"] == Null
  }

  /** The handle is as it was; an absent one may have become null. */
  predicate SameHandle(m: Fields, m': Fields) {
    if "evidence_chunk_id" in m then "evidence_chunk_id" in m' && m'["evidence_chunk_id"] == m["evidence_chunk_id"]
    else NoHandle(m')
  }

  /** The chunk is that of the fact's last manifest entry, and some child cites it for the fact. */
  ghost predicate OnOffer(manifest: seq<Evidence>, handles: ChildHandles, f: string, chunk: string) {
    && (f, chunk) in handles
    && exists e :: LastOfFact(manifest, e) && e.factId == f && e.chunkId == chunk
  }

  /** An absent or null handle became a chunk on offer for every fact, at least one, that the mapping names. */
  ghost predicate Filled(m: Fields, m': Fields, manifest: seq<Evidence>, handles: ChildHandles) {
    && NoHandle(m)
    && exists h :: Holds(m', "evidence_chunk_id", h)
         && (exists f :: NamesFact(m, f)) && forall f :: NamesFact(m, f) ==> OnOffer(manifest, handles, f, h)
  }

  /** The mapping at the path, if there is one, is still there with its handle kept, or filled where a reference points. */
  ghost predicate KeptOrFilled(original: Fields, repaired: Fields, p: Path, manifest: seq<Evidence>, handles: ChildHandles,
                               refs: seq<Reference>) {
    OutsideHandles(p) && At(Obj(original), p).Some? && At(Obj(original), p).value.Obj? ==>
      var m := At(Obj(original), p).value.fields;
      && At(Obj(repaired), p).Some? && At(Obj(repaired), p).value.Obj?
      && var m' := At(Obj(repaired), p).value.fields;
         SameHandle(m, m') || (Referenced(refs, p) && Filled(m, m', manifest, handles))
  }

  /** The two values are built alike once handles are left aside: the same keys, lengths and scalars everywhere. */
  ghost predicate BuiltAlike(a: Value, b: Value) {
    forall p: Path :: OutsideHandles(p) ==> NodesAlike(At(a, p), At(b, p))
  }

  ghost predicate NodesAlike(a: Option<Value>, b: Option<Value>) {
    match a
    case None => b == None
    case Some(Obj(_)) => b.Some? && b.value.Obj?
    case Some(Arr(s)) => b.Some? && b.value.Arr? && |b.value.items| == |s|
    case Some(v) => b == Some(v)
  }

  /** Each text of a retained fact is what it was. */
  ghost predicate TextsKept(original: Fields, repaired: Fields) {
    forall i: nat :: RetainedText(original, i).Some? ==> RetainedText(repaired, i) == RetainedText(original, i)
  }

  function RetainedText(parent: Fields, i: nat): Option<Value> {
    At(Obj(parent), [Key("result"), Key("retained_facts"), Index(i), Key("text")])
  }

  // ---------- Erasure ----------

  lemma OutsideIsHandleFree(p: Path)
    ensures OutsideHandles(p) <==> HandleFree(p)
  {
  }

  lemma AtKey(m: Fields, k: string, p: Path)
    ensures At(Obj(m), [Key(k)] + p) == if k in m then At(m[k], p) else None
  {
    assert ([Key(k)] + p)[1..] == p;
  }

  lemma AlikeKeys(a: Fields, b: Fields, k: string)
    requires BuiltAlike(Obj(a), Obj(b)) && k != "evidence_chunk_id"
    ensures k in a <==> k in b
  {
    AtKey(a, k, []);
    AtKey(b, k, []);
    assert OutsideHandles([Key(k)] + []);
    assert NodesAlike(At(Obj(a), [Key(k)] + []), At(Obj(b), [Key(k)] + []));
  }

  lemma AlikeBelowKey(a: Fields, b: Fields, k: string)
    requires BuiltAlike(Obj(a), Obj(b)) && k != "evidence_chunk_id" && k in a && k in b
    ensures BuiltAlike(a[k], b[k])
  {
    forall p: Path | OutsideHandles(p) ensures NodesAlike(At(a[k], p), At(b[k], p)) {
      AtKey(a, k, p);
      AtKey(b, k, p);
      assert OutsideHandles([Key(k)] + p);
      assert NodesAlike(At(Obj(a), [Key(k)] + p), At(Obj(b), [Key(k)] + p));
    }
  }

  lemma AlikeBelowIndex(a: seq<Value>, b: seq<Value>, i: nat)
    requires BuiltAlike(Arr(a), Arr(b)) && i < |a| == |b|
    ensures BuiltAlike(a[i], b[i])
  {
    forall p: Path | OutsideHandles(p) ensures NodesAlike(At(a[i], p), At(b[i], p)) {
      var q := [Index(i)] + p;
      assert q[1..] == p && OutsideHandles(q);
      assert NodesAlike(At(Arr(a), q), At(Arr(b), q));
    }
  }

  /** Trees built alike are equal once handles are erased. */
  lemma {:induction false} AlikeErasesAlike(a: Value, b: Value)
    requires BuiltAlike(a, b)
    ensures Erase(a) == Erase(b)
    decreases a
  {
    assert NodesAlike(At(a, []), At(b, []));
    match a
    case Obj(m) =>
      forall k | k != "evidence_chunk_id" ensures k in m <==> k in b.fields {
        AlikeKeys(m, b.fields, k);
      }
      forall k | k in m && k != "evidence_chunk_id" ensures Erase(m[k]) == Erase(b.fields[k]) {
        AlikeBelowKey(m, b.fields, k);
        AlikeErasesAlike(m[k], b.fields[k]);
      }
      assert Erase(a).fields == Erase(b).fields;
    case Arr(s) =>
      forall i | 0 <= i < |s| ensures Erase(s[i]) == Erase(b.items[i]) {
        AlikeBelowIndex(s, b.items, i);
        AlikeErasesAlike(s[i], b.items[i]);
      }
    case _ =>
  }

  lemma {:induction false} ErasedAlikeAt(a: Value, b: Value, p: Path)
    requires Erase(a) == Erase(b) && OutsideHandles(p)
    ensures NodesAlike(At(a, p), At(b, p))
    decreases |p|
  {
    if p == [] {
      ErasedNodes(a, b);
    } else {
      assert OutsideHandles(p[1..]) by {
        forall i | 0 <= i < |p[1..]| ensures p[1..][i] != Key("evidence_chunk_id") {
          assert p[1..][i] == p[i + 1];
        }
      }
      ErasedNodes(a, b);
      match p[0]
      case Key(k) =>
        if a.Obj? {
          ErasedBelowKey(a.fields, b.fields, k);
          if k in a.fields {
            ErasedAlikeAt(a.fields[k], b.fields[k], p[1..]);
          }
        }
      case Index(i) =>
        if a.Arr? && i < |a.items| {
          assert Erase(a).items[i] == Erase(a.items[i]) && Erase(b).items[i] == Erase(b.items[i]);
          ErasedAlikeAt(a.items[i], b.items[i], p[1..]);
        }
    }
  }

  lemma ErasedNodes(a: Value, b: Value)
    requires Erase(a) == Erase(b)
    ensures NodesAlike(Some(a), Some(b))
  {
    if a.Arr? {
      assert |Erase(a).items| == |a.items| && |Erase(b).items| == |b.items|;
    }
  }

  lemma ErasedBelowKey(a: Fields, b: Fields, k: string)
    requires Erase(Obj(a)) == Erase(Obj(b)) && k != "evidence_chunk_id"
    ensures k in a <==> k in b
    ensures k in a ==> Erase(a[k]) == Erase(b[k])
  {
    var x, y := Erase(Obj(a)).fields, Erase(Obj(b)).fields;
    assert k in a <==> k in x;
    assert k in b <==> k in y;
    if k in a {
      assert x[k] == Erase(a[k]) && y[k] == Erase(b[k]);
    }
  }

  /** Erasing handles forgets exactly the handles. */
  lemma ErasedIffBuiltAlike(a: Value, b: Value)
    ensures Erase(a) == Erase(b) <==> BuiltAlike(a, b)
  {
    if Erase(a) == Erase(b) {
      forall p: Path | OutsideHandles(p) ensures NodesAlike(At(a, p), At(b, p)) {
        ErasedAlikeAt(a, b, p);
      }
    }
    if BuiltAlike(a, b) {
      AlikeErasesAlike(a, b);
    }
  }

  // ---------- The rules of the protocol ----------

  lemma SameHandleIff(m: Fields, m': Fields)
    ensures HandleKept(m, m') <==> SameHandle(m, m')
  {
  }

  lemma HandlePathInjective(a: string, b: string)
    ensures HandlePath(a) == HandlePath(b) <==> a == b
  {
    var tail := "." + HANDLE_KEY;
    ConcatAssociates(a, ".", HANDLE_KEY);
    ConcatAssociates(b, ".", HANDLE_KEY);
    if HandlePath(a) == HandlePath(b) {
      assert |a| == |b|;
      assert a == (a + tail)[..|a|] && b == (b + tail)[..|b|];
    }
  }

  /** The paths that may change are those that references print. */
  lemma ReferencedIff(manifest: seq<Evidence>, handles: ChildHandles, refs: seq<Reference>, p: Path)
    ensures MayChange(RulesFor(manifest, handles, refs), HandlePath("$" + PrintSteps(p))) <==> Referenced(refs, p)
  {
    var path := "$" + PrintSteps(p);
    forall r | r in refs ensures HandlePath("$." + r.ParentPath()) == HandlePath(path) <==> "$." + r.ParentPath() == path {
      HandlePathInjective("$." + r.ParentPath(), path);
    }
    if Referenced(refs, p) {
      var r :| r in refs && (r.state == Absent || r.state == Nulled) && path == "$." + r.ParentPath();
      assert HandlePath(path) in PatchPaths(refs);
    }
  }

  lemma OnOfferIff(manifest: seq<Evidence>, handles: ChildHandles, refs: seq<Reference>, f: string, chunk: string)
    ensures Permits(RulesFor(manifest, handles, refs), f, chunk) <==> OnOffer(manifest, handles, f, chunk)
  {
    if f in ByFact(manifest) {
      ByFactIsLast(manifest, ByFact(manifest)[f]);
    }
    if e :| LastOfFact(manifest, e) && e.factId == f && e.chunkId == chunk {
      ByFactIsLast(manifest, e);
    }
  }

  lemma OfferedToAllIff(m: Fields, manifest: seq<Evidence>, handles: ChildHandles, refs: seq<Reference>, h: string)
    ensures (forall f :: f in SupportedFactIds(m) ==> Permits(RulesFor(manifest, handles, refs), f, h))
       <==> (forall f :: NamesFact(m, f) ==> OnOffer(manifest, handles, f, h))
    ensures SupportedFactIds(m) != [] <==> exists f :: NamesFact(m, f)
  {
    NoFactNamed(m);
    forall f ensures f in SupportedFactIds(m) <==> NamesFact(m, f) {
      NamedIff(m, f);
    }
    forall f ensures Permits(RulesFor(manifest, handles, refs), f, h) <==> OnOffer(manifest, handles, f, h) {
      OnOfferIff(manifest, handles, refs, f, h);
    }
  }

  lemma FilledIff(m: Fields, m': Fields, p: Path, manifest: seq<Evidence>, handles: ChildHandles, refs: seq<Reference>)
    ensures HandleRepaired(m, m', HandlePath("$" + PrintSteps(p)), RulesFor(manifest, handles, refs))
       <==> Referenced(refs, p) && Filled(m, m', manifest, handles)
  {
    ReferencedIff(manifest, handles, refs, p);
    if Get(m', HANDLE_KEY).Str? {
      var h := m'[HANDLE_KEY].text;
      OfferedToAllIff(m, manifest, handles, refs, h);
      assert forall s :: Holds(m', "evidence_chunk_id", s) ==> s == h;
      assert Holds(m', "evidence_chunk_id", h) <==> h != "";
    }
  }

  lemma KeptOrFilledIff(original: Fields, repaired: Fields, p: Path, manifest: seq<Evidence>, handles: ChildHandles,
                        refs: seq<Reference>)
    ensures NodeKeptOrRepaired(Obj(original), Obj(repaired), p, "$", RulesFor(manifest, handles, refs))
       <==> KeptOrFilled(original, repaired, p, manifest, handles, refs)
  {
    OutsideIsHandleFree(p);
    if MappingIn(Obj(original), p).Some? && MappingIn(Obj(repaired), p).Some? {
      SameHandleIff(MappingIn(Obj(original), p).value, MappingIn(Obj(repaired), p).value);
      FilledIff(MappingIn(Obj(original), p).value, MappingIn(Obj(repaired), p).value, p, manifest, handles, refs);
    }
  }

  // ---------- Retained texts ----------

  lemma RetainedTextAt(parent: Fields, i: nat)
    ensures RetainedText(parent, i) ==
            if RetainedFacts(parent).Some? && i < |RetainedFacts(parent).value| && RetainedFacts(parent).value[i].Obj?
               && "text" in RetainedFacts(parent).value[i].fields
            then Some(RetainedFacts(parent).value[i].fields["text"]) else None
  {
    var tail := [Index(i), Key("text")];
    assert [Key("result"), Key("retained_facts"), Index(i), Key("text")] == [Key("result")] + ([Key("retained_facts")] + tail);
    AtKey(parent, "result", [Key("retained_facts")] + tail);
    if "result" in parent && parent["result"].Obj? {
      AtKey(parent["result"].fields, "retained_facts", tail);
      TextOfItem(Get(parent["result"].fields, "retained_facts"), i);
    }
  }

  lemma TextOfItem(v: Value, i: nat)
    ensures At(v, [Index(i), Key("text")]) ==
            if v.Arr? && i < |v.items| && v.items[i].Obj? && "text" in v.items[i].fields then Some(v.items[i].fields["text"])
            else None
  {
    var path := [Index(i), Key("text")];
    assert path[1..] == [Key("text")] + [];
    if v.Arr? && i < |v.items| && v.items[i].Obj? {
      AtKey(v.items[i].fields, "text", []);
    }
  }

  lemma TextsKeptIff(original: Fields, repaired: Fields)
    requires EraseFields(original) == EraseFields(repaired)
    ensures RetainedTextsKept(original, repaired) <==> TextsKept(original, repaired)
  {
    RetainedFactsErased(original, repaired);
    forall i: nat ensures KeptAt(original, repaired, i) <==>
                          (RetainedText(original, i).Some? ==> RetainedText(repaired, i) == RetainedText(original, i)) {
      RetainedTextAt(original, i);
      RetainedTextAt(repaired, i);
      ErasedItems(original, repaired, i);
    }
    KeptEverywhere(original, repaired);
  }

  lemma KeptEverywhere(original: Fields, repaired: Fields)
    ensures RetainedTextsKept(original, repaired) <==> forall i: nat :: KeptAt(original, repaired, i)
  {
    var before, after := RetainedFacts(original), RetainedFacts(repaired);
    if before.Some? && after.Some? && forall i: nat :: KeptAt(original, repaired, i) {
      forall i | 0 <= i < RepairFidelity.Min(|before.value|, |after.value|) ensures TextKept(before.value[i], after.value[i]) {
        assert KeptAt(original, repaired, i);
      }
    }
  }

  /** The text at a position that both lists have is kept. */
  ghost predicate KeptAt(original: Fields, repaired: Fields, i: nat) {
    var before, after := RetainedFacts(original), RetainedFacts(repaired);
    before.Some? && after.Some? && i < |before.value| && i < |after.value| ==> TextKept(before.value[i], after.value[i])
  }

  lemma ErasedItems(original: Fields, repaired: Fields, i: nat)
    requires EraseFields(original) == EraseFields(repaired)
    ensures var before, after := RetainedFacts(original), RetainedFacts(repaired);
            before.Some? && i < |before.value| ==>
              && after.Some? && i < |after.value|
              && (before.value[i].Obj? <==> after.value[i].Obj?)
              && (before.value[i].Obj? ==> ("text" in before.value[i].fields <==> "text" in after.value[i].fields))
  {
    RetainedFactsErased(original, repaired);
    if RetainedFacts(original).Some? && i < |RetainedFacts(original).value| {
      var before, after := RetainedFacts(original).value, RetainedFacts(repaired).value;
      assert |before| == |Erase(Arr(before)).items| && |after| == |Erase(Arr(after)).items|;
      assert Erase(Arr(before)).items[i] == Erase(before[i]) && Erase(Arr(after)).items[i] == Erase(after[i]);
      ErasedNodes(before[i], after[i]);
      if before[i].Obj? {
        ErasedBelowKey(before[i].fields, after[i].fields, "text");
      }
    }
  }

  // ---------- Main results ----------

  /**
    * The report under the protocol's rules is clean exactly when the repaired tree is built like the original, every
    * mapping keeps its handle or has it filled, with a chunk on offer for its facts, where a reference points, and
    * the texts of retained facts are what they were.
    */
  lemma ProtocolFidelityIsExact(original: Fields, repaired: Fields, manifest: seq<Evidence>, handles: ChildHandles,
                                refs: seq<Reference>)
    ensures Fidelity(original, repaired, RulesFor(manifest, handles, refs)).Clean()
       <==> && BuiltAlike(Obj(original), Obj(repaired))
            && (forall p: Path :: KeptOrFilled(original, repaired, p, manifest, handles, refs))
            && TextsKept(original, repaired)
  {
    var rules := RulesFor(manifest, handles, refs);
    FidelityIsExact(original, repaired, rules);
    ErasedIffBuiltAlike(Obj(original), Obj(repaired));
    forall p: Path ensures NodeKeptOrRepaired(Obj(original), Obj(repaired), p, "$", rules)
                           <==> KeptOrFilled(original, repaired, p, manifest, handles, refs) {
      KeptOrFilledIff(original, repaired, p, manifest, handles, refs);
    }
    if Erase(Obj(original)) == Erase(Obj(repaired)) {
      TextsKeptIff(original, repaired);
    }
  }

  /** A handle that went from absent or null to a string is where a reference points. */
  ghost predicate FilledWhereReferenced(original: Fields, repaired: Fields, refs: seq<Reference>) {
    forall p: Path, h: string :: OutsideHandles(p) && Gained(original, repaired, p, h) ==> Referenced(refs, p)
  }

  predicate Gained(original: Fields, repaired: Fields, p: Path, h: string) {
    && At(Obj(original), p).Some? && At(Obj(original), p).value.Obj? && NoHandle(At(Obj(original), p).value.fields)
    && At(Obj(repaired), p).Some? && At(Obj(repaired), p).value.Obj?
    && "evidence_chunk_id" in At(Obj(repaired), p).value.fields
    && At(Obj(repaired), p).value.fields["evidence_chunk_id"] == Str(h)
  }

  lemma CleanFillsReferences(original: Fields, repaired: Fields, manifest: seq<Evidence>, handles: ChildHandles,
                             refs: seq<Reference>)
    requires Fidelity(original, repaired, RulesFor(manifest, handles, refs)).Clean()
    ensures FilledWhereReferenced(original, repaired, refs)
  {
    ProtocolFidelityIsExact(original, repaired, manifest, handles, refs);
    forall p: Path, h: string | OutsideHandles(p) && Gained(original, repaired, p, h) ensures Referenced(refs, p) {
      assert KeptOrFilled(original, repaired, p, manifest, handles, refs);
    }
  }
}
