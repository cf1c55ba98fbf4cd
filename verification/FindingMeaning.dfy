/** Which findings the fidelity report of a repair holds, one by one. */
module FindingMeaning {
  import opened Options
  import opened Json
  import opened Text
  import opened TraceGuard
  import opened ParentPaths
  import opened ErasedClaims
  import opened RepairReferences
  import opened PatchComparison
  import opened RepairFidelity
  import opened ClaimMeaning
  import opened ProtocolFidelity

  // ---------- Retained facts ----------

  /** A fact is known by its non-empty `fact_id`; without one, by its content up to handles. */
  ghost predicate KnownBy(fact: Value, s: Signature) {
    match s
    case ById(f) => fact.Obj? && Holds(fact.fields, "fact_id", f)
    case ByContent(erased) => erased == Erase(fact) && !(fact.Obj? && exists f :: Holds(fact.fields, "fact_id", f))
  }

  lemma KnownByIff(fact: Value, s: Signature)
    ensures KnownBy(fact, s) <==> SignatureOf(fact) == s
  {
    if fact.Obj? {
      var f := if s.ById? then s.factId else "";
      HoldsIff(fact.fields, "fact_id", f);
      assert HoldsNone(fact.fields, "fact_id") <==> !exists g :: Holds(fact.fields, "fact_id", g);
    }
  }

  /** The retained facts of a parent, if it lists any. */
  function ListedFacts(parent: Fields): Option<seq<Value>> {
    match At(Obj(parent), [Key("result"), Key("retained_facts")])
    case Some(Arr(items)) => Some(items)
    case _ => None
  }

  lemma ListedFactsAre(parent: Fields)
    ensures ListedFacts(parent) == RetainedFacts(parent)
  {
    assert [Key("result"), Key("retained_facts")] == [Key("result")] + ([Key("retained_facts")] + []);
    AtKey(parent, "result", [Key("retained_facts")] + []);
    if "result" in parent && parent["result"].Obj? {
      AtKey(parent["result"].fields, "retained_facts", []);
    }
  }

  ghost function Occurrences(facts: seq<Value>, s: Signature): set<nat> {
    set i: nat | i < |facts| && KnownBy(facts[i], s)
  }

  lemma {:induction false} OccurrencesCount(facts: seq<Value>, s: Signature)
    ensures multiset(Signatures(facts))[s] == |Occurrences(facts, s)|
  {
    if facts == [] {
      assert Occurrences(facts, s) == {};
    } else {
      var n := |facts| - 1;
      OccurrencesCount(facts[..n], s);
      OneMoreSignature(facts, s);
      OneMoreOccurrence(facts, s);
      KnownByIff(facts[n], s);
    }
  }

  lemma OneMoreSignature(facts: seq<Value>, s: Signature)
    requires facts != []
    ensures multiset(Signatures(facts))[s]
         == multiset(Signatures(facts[..|facts| - 1]))[s] + if SignatureOf(facts[|facts| - 1]) == s then 1 else 0
  {
    var n := |facts| - 1;
    assert Signatures(facts) == Signatures(facts[..n]) + [SignatureOf(facts[n])];
  }

  lemma OneMoreOccurrence(facts: seq<Value>, s: Signature)
    requires facts != []
    ensures |Occurrences(facts, s)| == |Occurrences(facts[..|facts| - 1], s)| + if KnownBy(facts[|facts| - 1], s) then 1 else 0
  {
    var n := |facts| - 1;
    var hit: set<nat> := if KnownBy(facts[n], s) then {n} else {};
    assert Occurrences(facts, s) == Occurrences(facts[..n], s) + hit;
  }

  /** Whether the text of a fact is no longer what it was. */
  predicate TextLost(before: Value, after: Value) {
    && before.Obj? && "text" in before.fields
    && !(after.Obj? && (if "text" in after.fields then after.fields["text"] else Null) == before.fields["text"])
  }

  ghost predicate RetainedFindingHolds(before: seq<Value>, after: seq<Value>, e: RetainedFinding) {
    match e
    case IdentityChanged(i) => i < |before| && i < |after| && !exists s :: KnownBy(before[i], s) && KnownBy(after[i], s)
    case TextChanged(i) => i < |before| && i < |after| && TextLost(before[i], after[i])
    case Dropped(s, n) => n > 0 && |Occurrences(before, s)| == |Occurrences(after, s)| + n
    case Duplicated(s, n) => n > 0 && |Occurrences(after, s)| == |Occurrences(before, s)| + n
  }

  lemma {:induction false} PositionFindingIff(before: seq<Value>, after: seq<Value>, n: nat, e: RetainedFinding)
    requires n <= |before| && n <= |after|
    ensures e in PositionFindings(before, after, n)
       <==> match e
            case IdentityChanged(i) => i < n && SignatureOf(before[i]) != SignatureOf(after[i])
            case TextChanged(i) => i < n && !TextKept(before[i], after[i])
            case _ => false
  {
    if n > 0 {
      PositionFindingIff(before, after, n - 1, e);
    }
  }

  lemma CountFindingIff(before: multiset<Signature>, after: multiset<Signature>, e: RetainedFinding)
    ensures e in CountFindings(before, after)
       <==> match e
            case Dropped(s, n) => n > 0 && before[s] == after[s] + n
            case Duplicated(s, n) => n > 0 && after[s] == before[s] + n
            case _ => false
  {
    match e
    case Dropped(s, n) => SurplusIff(before, after, s, n);
    case Duplicated(s, n) => SurplusIff(after, before, s, n);
    case _ =>
  }

  lemma SurplusIff(a: multiset<Signature>, b: multiset<Signature>, s: Signature, n: nat)
    ensures s in a - b && (a - b)[s] == n <==> n > 0 && a[s] == b[s] + n
  {
  }

  lemma SameIdentityIff(a: Value, b: Value)
    ensures SignatureOf(a) == SignatureOf(b) <==> exists s :: KnownBy(a, s) && KnownBy(b, s)
  {
    forall s ensures (KnownBy(a, s) <==> SignatureOf(a) == s) && (KnownBy(b, s) <==> SignatureOf(b) == s) {
      KnownByIff(a, s);
      KnownByIff(b, s);
    }
    assert KnownBy(a, SignatureOf(a));
  }

  /** A finding on retained facts is reported exactly when both parents list facts and it holds of the two lists. */
  lemma RetainedFindingIff(original: Fields, repaired: Fields, e: RetainedFinding)
    ensures e in RetainedFindings(original, repaired)
       <==> && ListedFacts(original).Some? && ListedFacts(repaired).Some?
            && RetainedFindingHolds(ListedFacts(original).value, ListedFacts(repaired).value, e)
  {
    ListedFactsAre(original);
    ListedFactsAre(repaired);
    if RetainedFacts(original).Some? && RetainedFacts(repaired).Some? {
      var before, after := RetainedFacts(original).value, RetainedFacts(repaired).value;
      var n := RepairFidelity.Min(|before|, |after|);
      PositionFindingIff(before, after, n, e);
      CountFindingIff(multiset(Signatures(before)), multiset(Signatures(after)), e);
      match e
      case IdentityChanged(i) =>
        if i < n {
          SameIdentityIff(before[i], after[i]);
        }
      case TextChanged(i) =>
      case Dropped(s, _) =>
        OccurrencesCount(before, s);
        OccurrencesCount(after, s);
      case Duplicated(s, _) =>
        OccurrencesCount(before, s);
        OccurrencesCount(after, s);
    }
  }

  // ---------- Claim texts ----------

  lemma {:induction false} PairFindingIff(before: seq<Claim>, after: seq<Claim>, n: nat, e: ClaimFinding)
    requires n <= |before| && n <= |after|
    ensures e in PairFindings(before, after, n)
       <==> match e
            case OrderChanged(i) => i < n && (before[i].surface != after[i].surface || before[i].factId != after[i].factId)
            case TextBytesChanged(i) => i < n && before[i].text != after[i].text
            case CountChanged => false
  {
    if n > 0 {
      PairFindingIff(before, after, n - 1, e);
    }
  }

  /** A finding on claims, position by position. */
  lemma ClaimFindingIff(before: seq<Claim>, after: seq<Claim>, e: ClaimFinding)
    ensures e in ClaimFindings(before, after)
       <==> match e
            case CountChanged => |before| != |after|
            case OrderChanged(i) =>
              i < |before| && i < |after| && (before[i].surface != after[i].surface || before[i].factId != after[i].factId)
            case TextBytesChanged(i) => i < |before| && i < |after| && before[i].text != after[i].text
  {
    PairFindingIff(before, after, RepairFidelity.Min(|before|, |after|), e);
  }

  // ---------- The comparison of the trees ----------

  /** The comparison reaches this place: on the way both values have the key, or lists of one length; no handle is entered. */
  predicate Compared(a: Value, b: Value, p: Path)
    decreases |p|
  {
    p == []
    || match p[0]
       case Key(k) =>
         && a.Obj? && b.Obj? && k != "evidence_chunk_id" && k in a.fields && k in b.fields
         && Compared(a.fields[k], b.fields[k], p[1..])
       case Index(i) =>
         a.Arr? && b.Arr? && |a.items| == |b.items| && i < |a.items| && Compared(a.items[i], b.items[i], p[1..])
  }

  /** What is found about the handles of two mappings, at the handle's path. */
  ghost predicate HandleFinding(a: Fields, b: Fields, path: string, rules: Rules, e: Finding) {
    var before := if "evidence_chunk_id" in a then a["evidence_chunk_id"] else Null;
    var after := if "evidence_chunk_id" in b then b["evidence_chunk_id"] else Null;
    && before != after
    && if rules.patchPaths.Some? && path !in rules.patchPaths.value then e == OutsideReferences(path)
       else if before != Null then e == HandleOverwritten(path)
       else if !after.Str? || after.text == "" then e == HandleNotFilled(path)
       else if !exists f :: NamesFact(a, f) then e == FilledWithoutFact(path)
       else exists f :: NamesFact(a, f) && !Permits(rules, f, after.text) && e == HandleNotAllowed(path, f)
  }

  /** What is found at one place of the two trees. */
  ghost predicate FoundHere(a: Value, b: Value, path: string, rules: Rules, e: Finding) {
    if a.Obj? && b.Obj? then
      || (exists k :: k in a.fields && k !in b.fields && e == Removed(path + "." + k))
      || (exists k :: k in b.fields && k !in a.fields && k != "evidence_chunk_id" && e == Added(path + "." + k))
      || ("evidence_chunk_id" in b.fields
          && HandleFinding(a.fields, b.fields, path + "." + "evidence_chunk_id", rules, e))
    else if a.Arr? && b.Arr? then |a.items| != |b.items| && e == LengthChanged(path)
    else a != b && e == Changed(path)
  }

  /** The places below a value that the comparison reaches and where it finds this. */
  ghost predicate FoundBelow(a: Value, b: Value, path: string, rules: Rules, e: Finding) {
    exists p: Path :: FoundAt(a, b, p, path, rules, e)
  }

  ghost predicate FoundAt(a: Value, b: Value, p: Path, path: string, rules: Rules, e: Finding) {
    && Compared(a, b, p) && At(a, p).Some? && At(b, p).Some?
    && FoundHere(At(a, p).value, At(b, p).value, path + PrintSteps(p), rules, e)
  }

  lemma HandleFindingIff(a: Fields, b: Fields, path: string, rules: Rules, e: Finding)
    ensures e in HandleFindings(a, b, path, rules) <==> HandleFinding(a, b, path, rules, e)
  {
    NoFactNamed(a);
    if Get(b, HANDLE_KEY).Str? {
      NotPermittedIff(a, b[HANDLE_KEY].text, path, rules, e);
    }
  }

  lemma NotPermittedIff(a: Fields, handle: string, path: string, rules: Rules, e: Finding)
    ensures e in NotPermitted(SupportedFactIds(a), handle, path, rules)
       <==> exists f :: NamesFact(a, f) && !Permits(rules, f, handle) && e == HandleNotAllowed(path, f)
  {
    forall f ensures f in SupportedFactIds(a) <==> NamesFact(a, f) {
      NamedIff(a, f);
    }
  }

  lemma FoundAtKey(a: Fields, b: Fields, k: string, q: Path, path: string, rules: Rules, e: Finding)
    requires k in a && k in b && k != "evidence_chunk_id"
    ensures FoundAt(Obj(a), Obj(b), [Key(k)] + q, path, rules, e) <==> FoundAt(a[k], b[k], q, path + "." + k, rules, e)
  {
    var p := [Key(k)] + q;
    assert p[0] == Key(k) && p[1..] == q;
    AtKey(a, k, q);
    AtKey(b, k, q);
    assert path + PrintSteps(p) == path + "." + k + PrintSteps(q);
  }

  lemma FoundAtIndex(a: seq<Value>, b: seq<Value>, i: nat, q: Path, path: string, rules: Rules, e: Finding)
    requires i < |a| == |b|
    ensures FoundAt(Arr(a), Arr(b), [Index(i)] + q, path, rules, e) <==> FoundAt(a[i], b[i], q, ItemPath(path, i), rules, e)
  {
    var p := [Index(i)] + q;
    assert p[0] == Index(i) && p[1..] == q;
    assert path + PrintSteps(p) == ItemPath(path, i) + PrintSteps(q);
  }

  lemma KeyOfFinding(a: Fields, b: Fields, path: string, rules: Rules, e: Finding)
    ensures e in Findings(Obj(a), Obj(b), path, rules)
       <==> exists k :: k in a.Keys + b.Keys && e in FieldFindings(a, b, k, path, rules)
  {
    assert Findings(Obj(a), Obj(b), path, rules) == KeysFindings(a, b, a.Keys + b.Keys, path, rules);
  }

  lemma FieldBelow(a: Fields, b: Fields, k: string, path: string, rules: Rules)
    requires k in a && k in b && k != "evidence_chunk_id"
    ensures FieldFindings(a, b, k, path, rules) == Findings(a[k], b[k], path + "." + k, rules)
  {
  }

  lemma ItemOfFinding(a: seq<Value>, b: seq<Value>, path: string, rules: Rules, e: Finding)
    requires |a| == |b|
    ensures e in Findings(Arr(a), Arr(b), path, rules)
       <==> exists i :: 0 <= i < |a| && e in Findings(a[i], b[i], ItemPath(path, i), rules)
  {
    assert Findings(Arr(a), Arr(b), path, rules) == ItemsFindings(a, b, |a|, path, rules);
  }

  lemma ObjectFindingIff(a: Fields, b: Fields, path: string, rules: Rules, e: Finding)
    requires forall k :: k in a && k in b && k != "evidence_chunk_id" ==>
      (e in Findings(a[k], b[k], path + "." + k, rules) <==> FoundBelow(a[k], b[k], path + "." + k, rules, e))
    ensures e in Findings(Obj(a), Obj(b), path, rules) <==> FoundBelow(Obj(a), Obj(b), path, rules, e)
  {
    KeyOfFinding(a, b, path, rules, e);
    forall k | k in a.Keys + b.Keys && e in FieldFindings(a, b, k, path, rules)
      ensures FoundBelow(Obj(a), Obj(b), path, rules, e)
    {
      if k in a && k in b && k != "evidence_chunk_id" {
        FieldBelow(a, b, k, path, rules);
        FoundAtOneKey(a, b, k, path, rules, e);
      } else {
        FoundAtOnce(a, b, k, path, rules, e);
        FoundAtRoot(Obj(a), Obj(b), path, rules, e);
      }
    }
    if FoundBelow(Obj(a), Obj(b), path, rules, e) {
      var p: Path :| FoundAt(Obj(a), Obj(b), p, path, rules, e);
      FoundInField(a, b, p, path, rules, e);
    }
  }

  lemma FoundAtRoot(a: Value, b: Value, path: string, rules: Rules, e: Finding)
    requires FoundHere(a, b, path, rules, e)
    ensures FoundBelow(a, b, path, rules, e)
  {
    assert path + PrintSteps([]) == path;
    assert FoundAt(a, b, [], path, rules, e);
  }

  lemma FoundAtOneKey(a: Fields, b: Fields, k: string, path: string, rules: Rules, e: Finding)
    requires k in a && k in b && k != "evidence_chunk_id" && FoundBelow(a[k], b[k], path + "." + k, rules, e)
    ensures FoundBelow(Obj(a), Obj(b), path, rules, e)
  {
    var q: Path :| FoundAt(a[k], b[k], q, path + "." + k, rules, e);
    FoundAtKey(a, b, k, q, path, rules, e);
  }

  lemma FoundAtOnce(a: Fields, b: Fields, k: string, path: string, rules: Rules, e: Finding)
    requires k in a.Keys + b.Keys && !(k in a && k in b && k != "evidence_chunk_id")
    requires e in FieldFindings(a, b, k, path, rules)
    ensures FoundHere(Obj(a), Obj(b), path, rules, e)
  {
    HandleFindingIff(a, b, path + "." + "evidence_chunk_id", rules, e);
    if k == "evidence_chunk_id" && k in b {
      assert e in HandleFindings(a, b, path + "." + k, rules);
    }
  }

  lemma FoundInField(a: Fields, b: Fields, p: Path, path: string, rules: Rules, e: Finding)
    requires FoundAt(Obj(a), Obj(b), p, path, rules, e)
    requires forall k :: k in a && k in b && k != "evidence_chunk_id" ==>
      (e in Findings(a[k], b[k], path + "." + k, rules) <==> FoundBelow(a[k], b[k], path + "." + k, rules, e))
    ensures exists k :: k in a.Keys + b.Keys && e in FieldFindings(a, b, k, path, rules)
  {
    HandleFindingIff(a, b, path + "." + "evidence_chunk_id", rules, e);
    if p == [] {
      assert path + PrintSteps(p) == path;
      if k :| k in a && k !in b && e == Removed(path + "." + k) {
        assert e in FieldFindings(a, b, k, path, rules);
      } else if k :| k in b && k !in a && k != "evidence_chunk_id" && e == Added(path + "." + k) {
        assert e in FieldFindings(a, b, k, path, rules);
      } else {
        assert e in FieldFindings(a, b, "evidence_chunk_id", path, rules);
      }
    } else {
      var k := p[0].key;
      assert p == [Key(k)] + p[1..];
      FoundAtKey(a, b, k, p[1..], path, rules, e);
      FieldBelow(a, b, k, path, rules);
      assert e in FieldFindings(a, b, k, path, rules);
    }
  }

  lemma FoundAtOneIndex(a: seq<Value>, b: seq<Value>, i: nat, path: string, rules: Rules, e: Finding)
    requires i < |a| == |b| && FoundBelow(a[i], b[i], ItemPath(path, i), rules, e)
    ensures FoundBelow(Arr(a), Arr(b), path, rules, e)
  {
    var q: Path :| FoundAt(a[i], b[i], q, ItemPath(path, i), rules, e);
    FoundAtIndex(a, b, i, q, path, rules, e);
  }

  lemma FoundInItem(a: seq<Value>, b: seq<Value>, p: Path, path: string, rules: Rules, e: Finding) returns (i: nat)
    requires |a| == |b| && FoundAt(Arr(a), Arr(b), p, path, rules, e)
    ensures i < |a| && FoundBelow(a[i], b[i], ItemPath(path, i), rules, e)
  {
    i := p[0].index;
    assert p == [Index(i)] + p[1..];
    FoundAtIndex(a, b, i, p[1..], path, rules, e);
  }

  lemma ListFindingIff(a: seq<Value>, b: seq<Value>, path: string, rules: Rules, e: Finding)
    requires |a| == |b|
    requires forall i :: 0 <= i < |a| ==>
      (e in Findings(a[i], b[i], ItemPath(path, i), rules) <==> FoundBelow(a[i], b[i], ItemPath(path, i), rules, e))
    ensures e in Findings(Arr(a), Arr(b), path, rules) <==> FoundBelow(Arr(a), Arr(b), path, rules, e)
  {
    ItemOfFinding(a, b, path, rules, e);
    forall i | 0 <= i < |a| && e in Findings(a[i], b[i], ItemPath(path, i), rules)
      ensures FoundBelow(Arr(a), Arr(b), path, rules, e)
    {
      FoundAtOneIndex(a, b, i, path, rules, e);
    }
    if FoundBelow(Arr(a), Arr(b), path, rules, e) {
      var p: Path :| FoundAt(Arr(a), Arr(b), p, path, rules, e);
      var i := FoundInItem(a, b, p, path, rules, e);
    }
  }

  lemma LeafFindingIff(a: Value, b: Value, path: string, rules: Rules, e: Finding)
    requires !(a.Obj? && b.Obj?) && !(a.Arr? && b.Arr? && |a.items| == |b.items|)
    ensures e in Findings(a, b, path, rules) <==> FoundBelow(a, b, path, rules, e)
  {
    assert path + PrintSteps([]) == path;
    assert FoundAt(a, b, [], path, rules, e) <==> e in Findings(a, b, path, rules);
  }

  /** The comparison reports exactly what it finds at the places it reaches, under their printed paths. */
  lemma {:induction false} TreeFindingIff(a: Value, b: Value, path: string, rules: Rules, e: Finding)
    ensures e in Findings(a, b, path, rules) <==> FoundBelow(a, b, path, rules, e)
    decreases a
  {
    if a.Obj? && b.Obj? {
      forall k | k in a.fields && k in b.fields && k != "evidence_chunk_id"
        ensures e in Findings(a.fields[k], b.fields[k], path + "." + k, rules)
           <==> FoundBelow(a.fields[k], b.fields[k], path + "." + k, rules, e)
      {
        TreeFindingIff(a.fields[k], b.fields[k], path + "." + k, rules, e);
      }
      ObjectFindingIff(a.fields, b.fields, path, rules, e);
    } else if a.Arr? && b.Arr? && |a.items| == |b.items| {
      forall i | 0 <= i < |a.items|
        ensures e in Findings(a.items[i], b.items[i], ItemPath(path, i), rules)
           <==> FoundBelow(a.items[i], b.items[i], ItemPath(path, i), rules, e)
      {
        TreeFindingIff(a.items[i], b.items[i], ItemPath(path, i), rules, e);
      }
      ListFindingIff(a.items, b.items, path, rules, e);
    } else {
      LeafFindingIff(a, b, path, rules, e);
    }
  }
}
