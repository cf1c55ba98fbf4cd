/** The three fidelity checks on a repaired parent: retained facts, claim texts, and the tree comparison. */
module RepairFidelity {
  import opened Options
  import opened Json
  import opened Text
  import opened TraceGuard
  import opened ParentPaths
  import opened ErasedClaims
  import opened RepairReferences
  import opened PatchComparison

  // ---------- Retained facts ----------

  datatype Signature = ById(factId: string) | ByContent(erased: Value)

  datatype RetainedFinding =
    | IdentityChanged(index: nat)
    | TextChanged(index: nat)
    | Dropped(signature: Signature, count: nat)
    | Duplicated(signature: Signature, count: nat)

  function RetainedFacts(parent: Fields): Option<seq<Value>> {
    match Get(parent, "result")
    case Obj(m) => (match Get(m, "retained_facts") case Arr(items) => Some(items) case _ => None)
    case _ => None
  }

  function SignatureOf(fact: Value): Signature {
    if fact.Obj? && NonEmptyString(fact.fields, "fact_id").Some? then ById(NonEmptyString(fact.fields, "fact_id").value)
    else ByContent(Erase(fact))
  }

  function Signatures(facts: seq<Value>): seq<Signature> {
    seq(|facts|, i requires 0 <= i < |facts| => SignatureOf(facts[i]))
  }

  predicate TextKept(before: Value, after: Value) {
    before.Obj? && "text" in before.fields ==> after.Obj? && Get(after.fields, "text") == before.fields["text"]
  }

  function Min(a: nat, b: nat): nat {
    if a < b then a else b
  }

  /** Findings about the first `n` positions both lists have. */
  function PositionFindings(before: seq<Value>, after: seq<Value>, n: nat): set<RetainedFinding>
    requires n <= |before| && n <= |after|
  {
    if n == 0 then {}
    else
      PositionFindings(before, after, n - 1)
      + (if SignatureOf(before[n - 1]) != SignatureOf(after[n - 1]) then {IdentityChanged(n - 1)} else {})
      + (if !TextKept(before[n - 1], after[n - 1]) then {TextChanged(n - 1)} else {})
  }

  function CountFindings(before: multiset<Signature>, after: multiset<Signature>): set<RetainedFinding> {
    (set s | s in before - after :: Dropped(s, (before - after)[s]))
    + (set s | s in after - before :: Duplicated(s, (after - before)[s]))
  }

  function RetainedFindings(original: Fields, repaired: Fields): set<RetainedFinding> {
    var before, after := RetainedFacts(original), RetainedFacts(repaired);
    if before.None? || after.None? then {}
    else
      PositionFindings(before.value, after.value, Min(|before.value|, |after.value|))
      + CountFindings(multiset(Signatures(before.value)), multiset(Signatures(after.value)))
  }

  method RetainedFactFidelityErrors(original: Fields, repaired: Fields) returns (errors: set<RetainedFinding>)
    ensures errors == RetainedFindings(original, repaired)
  {
    errors := {};
    var before, after := RetainedFacts(original), RetainedFacts(repaired);
    if before.None? || after.None? {
      return;
    }
    for n := 0 to Min(|before.value|, |after.value|)
      invariant errors == PositionFindings(before.value, after.value, n)
    {
      if SignatureOf(before.value[n]) != SignatureOf(after.value[n]) {
        errors := errors + {IdentityChanged(n)};
      }
      if !TextKept(before.value[n], after.value[n]) {
        errors := errors + {TextChanged(n)};
      }
    }
    errors := errors + CountFindings(multiset(Signatures(before.value)), multiset(Signatures(after.value)));
  }

  // ---------- Claims ----------

  datatype ClaimFinding = CountChanged | OrderChanged(index: nat) | TextBytesChanged(index: nat)

  function PairFindings(before: seq<Claim>, after: seq<Claim>, n: nat): set<ClaimFinding>
    requires n <= |before| && n <= |after|
  {
    if n == 0 then {}
    else
      var b, a := before[n - 1], after[n - 1];
      PairFindings(before, after, n - 1)
      + (if (b.surface, b.factId) != (a.surface, a.factId) then {OrderChanged(n - 1)} else {})
      + (if b.text != a.text then {TextBytesChanged(n - 1)} else {})
  }

  function ClaimFindings(before: seq<Claim>, after: seq<Claim>): set<ClaimFinding> {
    (if |before| != |after| then {CountChanged} else {}) + PairFindings(before, after, Min(|before|, |after|))
  }

  method ParentClaimTextFidelityErrors(original: Fields, repaired: Fields) returns (errors: set<ClaimFinding>)
    ensures errors == ClaimFindings(ParentClaims(original), ParentClaims(repaired))
  {
    var before := ExtractParentClaims(original);
    var after := ExtractParentClaims(repaired);
    errors := {};
    for n := 0 to Min(|before|, |after|)
      invariant errors == PairFindings(before, after, n)
    {
      var b, a := before[n], after[n];
      if (b.surface, b.factId) != (a.surface, a.factId) {
        errors := errors + {OrderChanged(n)};
      }
      if b.text != a.text {
        errors := errors + {TextBytesChanged(n)};
      }
    }
    if |before| != |after| {
      errors := errors + {CountChanged};
    }
  }

  // ---------- The whole check ----------

  datatype Report = Report(retained: set<RetainedFinding>, claims: set<ClaimFinding>, patch: set<Finding>)
  {
    predicate Clean() {
      retained == {} && claims == {} && patch == {}
    }
  }

  function PatchPaths(refs: seq<Reference>): set<string> {
    set r | r in refs && !r.state.Invalid? :: HandlePath("$." + r.ParentPath())
  }

  function RulesFor(manifest: seq<Evidence>, handles: ChildHandles, refs: seq<Reference>): Rules {
    Rules(ByFact(manifest), handles, Some(PatchPaths(refs)))
  }

  function Fidelity(original: Fields, repaired: Fields, rules: Rules): Report {
    Report(RetainedFindings(original, repaired),
           ClaimFindings(ParentClaims(original), ParentClaims(repaired)),
           Findings(Obj(original), Obj(repaired), "$", rules))
  }

  method MissingHandleRepairFidelityErrors(original: Fields, repaired: Fields, manifest: seq<Evidence>,
                                           records: seq<ChildRecord>, refs: seq<Reference>, str: Rendering)
    returns (report: Report)
    ensures report == Fidelity(original, repaired, RulesFor(manifest, HandlesOfChildren(records, str), refs))
  {
    var handles := ChildEvidenceHandlesByFact(records, str);
    var retained := RetainedFactFidelityErrors(original, repaired);
    var claims := ParentClaimTextFidelityErrors(original, repaired);
    var patch := CompareMissingHandlePatch(Obj(original), Obj(repaired), "$", RulesFor(manifest, handles, refs));
    report := Report(retained, claims, set e | e in patch);
  }

  // ---------- What a clean report means ----------

  ghost predicate SameClaimTexts(before: seq<Claim>, after: seq<Claim>) {
    && |before| == |after|
    && forall i :: 0 <= i < |before| ==>
         before[i].surface == after[i].surface && before[i].factId == after[i].factId && before[i].text == after[i].text
  }

  lemma {:induction false} PairFindingsEmpty(before: seq<Claim>, after: seq<Claim>, n: nat)
    requires n <= |before| && n <= |after|
    ensures PairFindings(before, after, n) == {}
      <==> forall i :: 0 <= i < n ==>
             before[i].surface == after[i].surface && before[i].factId == after[i].factId && before[i].text == after[i].text
  {
    if n > 0 {
      PairFindingsEmpty(before, after, n - 1);
      var rest := PairFindings(before, after, n - 1);
      assert rest != {} ==> PairFindings(before, after, n) != {} by {
        if rest != {} {
          var e :| e in rest;
          assert e in PairFindings(before, after, n);
        }
      }
      var b, a := before[n - 1], after[n - 1];
      assert (b.surface, b.factId) != (a.surface, a.factId) ==> OrderChanged(n - 1) in PairFindings(before, after, n);
      assert b.text != a.text ==> TextBytesChanged(n - 1) in PairFindings(before, after, n);
    }
  }

  lemma ClaimFindingsEmpty(before: seq<Claim>, after: seq<Claim>)
    ensures ClaimFindings(before, after) == {} <==> SameClaimTexts(before, after)
  {
    PairFindingsEmpty(before, after, Min(|before|, |after|));
    assert |before| != |after| ==> CountChanged in ClaimFindings(before, after);
    var pairs := PairFindings(before, after, Min(|before|, |after|));
    if pairs != {} {
      var e :| e in pairs;
      assert e in ClaimFindings(before, after);
    }
  }

  ghost predicate PositionsKept(before: seq<Value>, after: seq<Value>, n: nat)
    requires n <= |before| && n <= |after|
  {
    forall i :: 0 <= i < n ==> SignatureOf(before[i]) == SignatureOf(after[i]) && TextKept(before[i], after[i])
  }

  lemma {:induction false} PositionFindingsEmpty(before: seq<Value>, after: seq<Value>, n: nat)
    requires n <= |before| && n <= |after|
    ensures PositionFindings(before, after, n) == {} <==> PositionsKept(before, after, n)
  {
    if n > 0 {
      PositionFindingsEmpty(before, after, n - 1);
      var rest := PositionFindings(before, after, n - 1);
      if rest != {} {
        var e :| e in rest;
        assert e in PositionFindings(before, after, n);
      }
      assert !TextKept(before[n - 1], after[n - 1]) ==> TextChanged(n - 1) in PositionFindings(before, after, n);
      assert SignatureOf(before[n - 1]) != SignatureOf(after[n - 1])
        ==> IdentityChanged(n - 1) in PositionFindings(before, after, n);
    }
  }

  /** No retained fact's text value changed. */
  ghost predicate RetainedTextsKept(original: Fields, repaired: Fields) {
    var before, after := RetainedFacts(original), RetainedFacts(repaired);
    before.Some? && after.Some? ==>
      forall i :: 0 <= i < Min(|before.value|, |after.value|) ==> TextKept(before.value[i], after.value[i])
  }

  lemma SignatureErased(before: Value, after: Value)
    requires Erase(before) == Erase(after)
    ensures SignatureOf(before) == SignatureOf(after)
  {
    if before.Obj? {
      GetErased(before.fields, "fact_id");
      GetErased(after.fields, "fact_id");
    }
  }

  lemma RetainedFactsErased(original: Fields, repaired: Fields)
    requires EraseFields(original) == EraseFields(repaired)
    ensures var before, after := RetainedFacts(original), RetainedFacts(repaired);
            && (before.Some? <==> after.Some?)
            && (before.Some? ==> Erase(Arr(before.value)) == Erase(Arr(after.value)))
  {
    GetErased(original, "result");
    GetErased(repaired, "result");
    var a, b := Get(original, "result"), Get(repaired, "result");
    assert Erase(a) == Erase(b);
    if a.Obj? {
      GetErased(a.fields, "retained_facts");
      GetErased(b.fields, "retained_facts");
    }
  }

  lemma RetainedFindingsWhenErasedEqual(original: Fields, repaired: Fields)
    requires EraseFields(original) == EraseFields(repaired)
    ensures RetainedFindings(original, repaired) == {} <==> RetainedTextsKept(original, repaired)
  {
    RetainedFactsErased(original, repaired);
    if RetainedFacts(original).Some? {
      var before, after := RetainedFacts(original).value, RetainedFacts(repaired).value;
      assert |before| == |Erase(Arr(before)).items| == |Erase(Arr(after)).items| == |after|;
      forall i | 0 <= i < |before| ensures SignatureOf(before[i]) == SignatureOf(after[i]) {
        assert Erase(Arr(before)).items[i] == Erase(before[i]) && Erase(Arr(after)).items[i] == Erase(after[i]);
        SignatureErased(before[i], after[i]);
      }
      assert Signatures(before) == Signatures(after);
      PositionFindingsEmpty(before, after, |before|);
      assert CountFindings(multiset(Signatures(before)), multiset(Signatures(after))) == {};
    }
  }
}
