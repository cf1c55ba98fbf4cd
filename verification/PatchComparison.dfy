/** The comparator that decides whether a repaired parent is the original with only permitted handles filled in. */
module PatchComparison {
  import opened Options
  import opened Json
  import opened Text
  import opened TraceGuard
  import opened RepairReferences

  datatype Finding =
    | Removed(path: string)
    | Added(path: string)
    | LengthChanged(path: string)
    | Changed(path: string)
    | OutsideReferences(path: string)
    | HandleOverwritten(path: string)
    | HandleNotFilled(path: string)
    | FilledWithoutFact(path: string)
    | HandleNotAllowed(path: string, factId: string)

  /** What a fill may use: the manifest's chunk per fact, the children's handles, and the paths that may change
      (None: any path). */
  datatype Rules = Rules(allowed: map<string, Evidence>, childHandles: ChildHandles, patchPaths: Option<set<string>>)

  predicate Permits(rules: Rules, factId: string, handle: string) {
    factId in rules.allowed && rules.allowed[factId].chunkId == handle && (factId, handle) in rules.childHandles
  }

  predicate MayChange(rules: Rules, path: string) {
    rules.patchPaths.None? || path in rules.patchPaths.value
  }

  function HandlePath(path: string): string {
    path + "." + HANDLE_KEY
  }

  // ---------- Findings ----------

  function HandleFindings(a: Fields, b: Fields, path: string, rules: Rules): set<Finding> {
    var before, after := Get(a, HANDLE_KEY), Get(b, HANDLE_KEY);
    if before == after then {}
    else if !MayChange(rules, path) then {OutsideReferences(path)}
    else if !before.Null? then {HandleOverwritten(path)}
    else if !after.Str? || after.text == "" then {HandleNotFilled(path)}
    else if SupportedFactIds(a) == [] then {FilledWithoutFact(path)}
    else NotPermitted(SupportedFactIds(a), after.text, path, rules)
  }

  function NotPermitted(facts: seq<string>, handle: string, path: string, rules: Rules): set<Finding> {
    set f | f in facts && !Permits(rules, f, handle) :: HandleNotAllowed(path, f)
  }

  /** Findings about one key of a mapping, `path` being the mapping's path. */
  function FieldFindings(a: Fields, b: Fields, k: string, path: string, rules: Rules): set<Finding>
    decreases Obj(a), 0
  {
    var here := path + "." + k;
    if k in a then
      if k !in b then {Removed(here)}
      else if k == HANDLE_KEY then HandleFindings(a, b, here, rules)
      else Findings(a[k], b[k], here, rules)
    else if k == HANDLE_KEY then HandleFindings(a, b, here, rules)
    else {Added(here)}
  }

  function KeysFindings(a: Fields, b: Fields, keys: set<string>, path: string, rules: Rules): set<Finding>
    decreases Obj(a), 1
  {
    set k, e | k in keys && e in FieldFindings(a, b, k, path, rules) :: e
  }

  function ItemPath(path: string, i: nat): string {
    path + "[" + Decimal(i) + "]"
  }

  function ItemsFindings(a: seq<Value>, b: seq<Value>, n: nat, path: string, rules: Rules): set<Finding>
    requires n <= |a| == |b|
    decreases Arr(a), 1
  {
    set i, e | 0 <= i < n && e in Findings(a[i], b[i], ItemPath(path, i), rules) :: e
  }

  function Findings(a: Value, b: Value, path: string, rules: Rules): set<Finding>
    decreases a, 2
  {
    if a.Obj? && b.Obj? then
      KeysFindings(a.fields, b.fields, a.fields.Keys + b.fields.Keys, path, rules)
    else if a.Arr? && b.Arr? then
      if |a.items| != |b.items| then {LengthChanged(path)}
      else ItemsFindings(a.items, b.items, |a.items|, path, rules)
    else if a == b then {} else {Changed(path)}
  }

  // ---------- The source's recursive loops ----------

  method CompareEvidenceChunkIdPatch(a: Fields, b: Fields, path: string, rules: Rules) returns (errors: seq<Finding>)
    ensures (set e | e in errors) == HandleFindings(a, b, path, rules)
  {
    errors := [];
    var before, after := Get(a, HANDLE_KEY), Get(b, HANDLE_KEY);
    if before == after {
      return;
    }
    if !MayChange(rules, path) {
      return [OutsideReferences(path)];
    }
    if !before.Null? {
      return [HandleOverwritten(path)];
    }
    if !after.Str? || after.text == "" {
      return [HandleNotFilled(path)];
    }
    var facts := CollectSupportedFactIds(a);
    if facts == [] {
      return [FilledWithoutFact(path)];
    }
    for n := 0 to |facts|
      invariant (set e | e in errors) == NotPermitted(facts[..n], after.text, path, rules)
    {
      assert facts[..n + 1] == facts[..n] + [facts[n]];
      NotPermittedAdd(facts[..n], facts[n], after.text, path, rules);
      if !Permits(rules, facts[n], after.text) {
        errors := errors + [HandleNotAllowed(path, facts[n])];
      }
    }
    assert facts[..|facts|] == facts;
  }

  lemma NotPermittedAdd(facts: seq<string>, f: string, handle: string, path: string, rules: Rules)
    ensures NotPermitted(facts + [f], handle, path, rules)
         == NotPermitted(facts, handle, path, rules)
            + if Permits(rules, f, handle) then {} else {HandleNotAllowed(path, f)}
  {
  }

  method CompareField(a: Fields, b: Fields, k: string, path: string, rules: Rules) returns (errors: seq<Finding>)
    ensures (set e | e in errors) == FieldFindings(a, b, k, path, rules)
    decreases Obj(a), 0
  {
    var here := path + "." + k;
    if k in a && k !in b {
      return [Removed(here)];
    }
    if k == HANDLE_KEY {
      errors := CompareEvidenceChunkIdPatch(a, b, here, rules);
    } else if k in a {
      errors := CompareMissingHandlePatch(a[k], b[k], here, rules);
    } else {
      errors := [Added(here)];
    }
  }

  /** Keys are visited in an arbitrary order, so errors are specified up to order and repetition. */
  method CompareFields(a: Fields, b: Fields, path: string, rules: Rules) returns (errors: seq<Finding>)
    ensures (set e | e in errors) == KeysFindings(a, b, a.Keys + b.Keys, path, rules)
    decreases Obj(a), 1
  {
    errors := [];
    var rest := a.Keys + b.Keys;
    while rest != {}
      invariant rest <= a.Keys + b.Keys
      invariant (set e | e in errors) == KeysFindings(a, b, a.Keys + b.Keys - rest, path, rules)
      decreases rest
    {
      var k :| k in rest;
      var found := CompareField(a, b, k, path, rules);
      assert a.Keys + b.Keys - (rest - {k}) == (a.Keys + b.Keys - rest) + {k};
      KeysFindingsAdd(a, b, a.Keys + b.Keys - rest, k, path, rules);
      errors, rest := errors + found, rest - {k};
    }
    assert a.Keys + b.Keys - {} == a.Keys + b.Keys;
  }

  lemma KeysFindingsAdd(a: Fields, b: Fields, keys: set<string>, k: string, path: string, rules: Rules)
    ensures KeysFindings(a, b, keys + {k}, path, rules)
         == KeysFindings(a, b, keys, path, rules) + FieldFindings(a, b, k, path, rules)
  {
  }

  lemma ItemsFindingsAdd(a: seq<Value>, b: seq<Value>, n: nat, path: string, rules: Rules)
    requires n < |a| == |b|
    ensures ItemsFindings(a, b, n + 1, path, rules)
         == ItemsFindings(a, b, n, path, rules) + Findings(a[n], b[n], ItemPath(path, n), rules)
  {
  }

  method CompareMissingHandlePatch(a: Value, b: Value, path: string, rules: Rules) returns (errors: seq<Finding>)
    ensures (set e | e in errors) == Findings(a, b, path, rules)
    decreases a, 2
  {
    errors := [];
    if a.Obj? && b.Obj? {
      errors := CompareFields(a.fields, b.fields, path, rules);
    } else if a.Arr? && b.Arr? {
      if |a.items| != |b.items| {
        return [LengthChanged(path)];
      }
      for n := 0 to |a.items|
        invariant (set e | e in errors) == ItemsFindings(a.items, b.items, n, path, rules)
      {
        var found := CompareMissingHandlePatch(a.items[n], b.items[n], ItemPath(path, n), rules);
        ItemsFindingsAdd(a.items, b.items, n, path, rules);
        errors := errors + found;
      }
    } else if a != b {
      errors := [Changed(path)];
    }
  }

  // ---------- Exactness ----------

  function MappingIn(v: Value, p: Path): Option<Fields> {
    match At(v, p)
    case Some(Obj(m)) => Some(m)
    case _ => None
  }

  /** The handle is as it was; where it was absent, it may now be an explicit null. */
  ghost predicate HandleKept(a: Fields, b: Fields) {
    if HANDLE_KEY in a then HANDLE_KEY in b && b[HANDLE_KEY] == a[HANDLE_KEY] else Get(b, HANDLE_KEY).Null?
  }

  /** An absent or null handle became a non-empty string permitted for every fact, at least one, of the mapping. */
  ghost predicate HandleRepaired(a: Fields, b: Fields, handlePath: string, rules: Rules) {
    && Get(a, HANDLE_KEY).Null?
    && MayChange(rules, handlePath)
    && Get(b, HANDLE_KEY).Str?
    && b[HANDLE_KEY].text != ""
    && SupportedFactIds(a) != []
    && forall f :: f in SupportedFactIds(a) ==> Permits(rules, f, b[HANDLE_KEY].text)
  }

  /** The mapping at `p`, if there is one, kept its handle or had it repaired. */
  ghost predicate NodeKeptOrRepaired(a: Value, b: Value, p: Path, path: string, rules: Rules) {
    HandleFree(p) && MappingIn(a, p).Some? ==>
      && MappingIn(b, p).Some?
      && (HandleKept(MappingIn(a, p).value, MappingIn(b, p).value)
          || HandleRepaired(MappingIn(a, p).value, MappingIn(b, p).value, HandlePath(path + PrintSteps(p)), rules))
  }

  /** The trees agree once handles are erased, and every mapping kept its handle or had it repaired. */
  ghost predicate OnlyRepairs(a: Value, b: Value, path: string, rules: Rules) {
    Erase(a) == Erase(b) && forall p: Path :: NodeKeptOrRepaired(a, b, p, path, rules)
  }

  lemma HandleFindingsExact(a: Fields, b: Fields, path: string, rules: Rules)
    ensures (HANDLE_KEY in a ==> HANDLE_KEY in b) && HandleFindings(a, b, path, rules) == {}
      <==> HandleKept(a, b) || HandleRepaired(a, b, path, rules)
  {
    if SupportedFactIds(a) != [] && Get(b, HANDLE_KEY).Str? {
      forall f | f in SupportedFactIds(a) && !Permits(rules, f, b[HANDLE_KEY].text)
        ensures HandleFindings(a, b, path, rules) != {} || HandleKept(a, b)
      {
        if Get(a, HANDLE_KEY).Null? && MayChange(rules, path) && b[HANDLE_KEY].text != "" {
          assert HandleNotAllowed(path, f) in HandleFindings(a, b, path, rules);
        }
      }
    }
  }

  // Descending one step

  lemma NodeBelowKey(a: Fields, b: Fields, k: string, q: Path, path: string, rules: Rules)
    requires k in a && k in b && k != HANDLE_KEY
    ensures NodeKeptOrRepaired(Obj(a), Obj(b), [Key(k)] + q, path, rules)
      <==> NodeKeptOrRepaired(a[k], b[k], q, path + "." + k, rules)
  {
    var p := [Key(k)] + q;
    assert p[0] == Key(k) && p[1..] == q;
    assert HandleFree(p) <==> HandleFree(q);
    assert path + PrintSteps(p) == path + "." + k + PrintSteps(q);
  }

  lemma NodeBelowIndex(a: seq<Value>, b: seq<Value>, i: nat, q: Path, path: string, rules: Rules)
    requires i < |a| == |b|
    ensures NodeKeptOrRepaired(Arr(a), Arr(b), [Index(i)] + q, path, rules)
      <==> NodeKeptOrRepaired(a[i], b[i], q, ItemPath(path, i), rules)
  {
    var p := [Index(i)] + q;
    assert p[0] == Index(i) && p[1..] == q;
    assert HandleFree(p) <==> HandleFree(q);
    assert path + PrintSteps(p) == ItemPath(path, i) + PrintSteps(q);
  }

  ghost predicate FieldsOnlyRepaired(a: Fields, b: Fields, path: string, rules: Rules) {
    && a.Keys - {HANDLE_KEY} == b.Keys - {HANDLE_KEY}
    && (HandleKept(a, b) || HandleRepaired(a, b, HandlePath(path), rules))
    && forall k :: k in a && k in b && k != HANDLE_KEY ==> OnlyRepairs(a[k], b[k], path + "." + k, rules)
  }

  ghost predicate ItemsOnlyRepaired(a: seq<Value>, b: seq<Value>, path: string, rules: Rules) {
    |a| == |b| && forall i :: 0 <= i < |a| ==> OnlyRepairs(a[i], b[i], ItemPath(path, i), rules)
  }

  lemma ObjectRepairsDescend(a: Fields, b: Fields, path: string, rules: Rules)
    ensures OnlyRepairs(Obj(a), Obj(b), path, rules) ==> FieldsOnlyRepaired(a, b, path, rules)
  {
    if OnlyRepairs(Obj(a), Obj(b), path, rules) {
      assert a.Keys - {HANDLE_KEY} == Erase(Obj(a)).fields.Keys;
      assert b.Keys - {HANDLE_KEY} == Erase(Obj(b)).fields.Keys;
      assert NodeKeptOrRepaired(Obj(a), Obj(b), [], path, rules);
      assert path + PrintSteps([]) == path;
      forall k | k in a && k in b && k != HANDLE_KEY ensures OnlyRepairs(a[k], b[k], path + "." + k, rules) {
        assert k in a.Keys - {HANDLE_KEY};
        assert Erase(Obj(a)).fields[k] == Erase(a[k]) && Erase(Obj(b)).fields[k] == Erase(b[k]);
        forall q: Path ensures NodeKeptOrRepaired(a[k], b[k], q, path + "." + k, rules) {
          NodeBelowKey(a, b, k, q, path, rules);
        }
      }
    }
  }

  lemma ObjectRepairsAscend(a: Fields, b: Fields, path: string, rules: Rules)
    requires FieldsOnlyRepaired(a, b, path, rules)
    ensures OnlyRepairs(Obj(a), Obj(b), path, rules)
  {
    forall k | k in a && k != HANDLE_KEY ensures k in b && Erase(a[k]) == Erase(b[k]) {
      assert k in a.Keys - {HANDLE_KEY};
    }
    assert forall k :: k in b && k != HANDLE_KEY ==> k in b.Keys - {HANDLE_KEY};
    assert Erase(Obj(a)).fields == Erase(Obj(b)).fields;
    forall p: Path ensures NodeKeptOrRepaired(Obj(a), Obj(b), p, path, rules) {
      if p == [] {
        assert path + PrintSteps(p) == path;
      } else if HandleFree(p) && p[0].Key? && p[0].key in a {
        assert p == [p[0]] + p[1..] && p[0] in p;
        NodeBelowKey(a, b, p[0].key, p[1..], path, rules);
      }
    }
  }

  lemma ArrayRepairsDescend(a: seq<Value>, b: seq<Value>, path: string, rules: Rules)
    ensures OnlyRepairs(Arr(a), Arr(b), path, rules) ==> ItemsOnlyRepaired(a, b, path, rules)
  {
    if OnlyRepairs(Arr(a), Arr(b), path, rules) {
      assert |Erase(Arr(a)).items| == |a| && |Erase(Arr(b)).items| == |b|;
      forall i | 0 <= i < |a| ensures OnlyRepairs(a[i], b[i], ItemPath(path, i), rules) {
        assert Erase(Arr(a)).items[i] == Erase(a[i]) && Erase(Arr(b)).items[i] == Erase(b[i]);
        forall q: Path ensures NodeKeptOrRepaired(a[i], b[i], q, ItemPath(path, i), rules) {
          NodeBelowIndex(a, b, i, q, path, rules);
        }
      }
    }
  }

  lemma ArrayRepairsAscend(a: seq<Value>, b: seq<Value>, path: string, rules: Rules)
    requires ItemsOnlyRepaired(a, b, path, rules)
    ensures OnlyRepairs(Arr(a), Arr(b), path, rules)
  {
    forall i | 0 <= i < |a| ensures Erase(a[i]) == Erase(b[i]) {
      assert OnlyRepairs(a[i], b[i], ItemPath(path, i), rules);
    }
    assert Erase(Arr(a)).items == Erase(Arr(b)).items;
    forall p: Path ensures NodeKeptOrRepaired(Arr(a), Arr(b), p, path, rules) {
      if HandleFree(p) && p != [] && p[0].Index? && p[0].index < |a| {
        assert p == [p[0]] + p[1..];
        NodeBelowIndex(a, b, p[0].index, p[1..], path, rules);
      }
    }
  }

  lemma FieldFindingsEmpty(a: Fields, b: Fields, path: string, rules: Rules)
    requires forall k :: k in a && k in b && k != HANDLE_KEY ==>
      (Findings(a[k], b[k], path + "." + k, rules) == {} <==> OnlyRepairs(a[k], b[k], path + "." + k, rules))
    ensures (forall k :: k in a.Keys + b.Keys ==> FieldFindings(a, b, k, path, rules) == {})
      <==> FieldsOnlyRepaired(a, b, path, rules)
  {
    HandleFindingsExact(a, b, HandlePath(path), rules);
    if forall k :: k in a.Keys + b.Keys ==> FieldFindings(a, b, k, path, rules) == {} {
      forall k | k in a.Keys + b.Keys && k != HANDLE_KEY ensures k in a && k in b {
        assert FieldFindings(a, b, k, path, rules) == {};
      }
      if HANDLE_KEY in a.Keys + b.Keys {
        assert FieldFindings(a, b, HANDLE_KEY, path, rules) == {};
      }
      forall k | k in a && k in b && k != HANDLE_KEY ensures OnlyRepairs(a[k], b[k], path + "." + k, rules) {
        assert FieldFindings(a, b, k, path, rules) == {};
      }
    }
    if FieldsOnlyRepaired(a, b, path, rules) {
      forall k | k in a.Keys + b.Keys ensures FieldFindings(a, b, k, path, rules) == {} {
        if k != HANDLE_KEY {
          assert k in a.Keys - {HANDLE_KEY} && k in b.Keys - {HANDLE_KEY};
          assert OnlyRepairs(a[k], b[k], path + "." + k, rules);
        }
      }
    }
  }

  lemma FieldFindingsIncluded(a: Fields, b: Fields, keys: set<string>, k: string, path: string, rules: Rules)
    requires k in keys
    ensures FieldFindings(a, b, k, path, rules) <= KeysFindings(a, b, keys, path, rules)
  {
  }

  lemma ItemFindingsIncluded(a: seq<Value>, b: seq<Value>, i: nat, path: string, rules: Rules)
    requires i < |a| == |b|
    ensures Findings(a[i], b[i], ItemPath(path, i), rules) <= ItemsFindings(a, b, |a|, path, rules)
  {
  }

  lemma KeysFindingsEmpty(a: Fields, b: Fields, keys: set<string>, path: string, rules: Rules)
    ensures KeysFindings(a, b, keys, path, rules) == {} <==> forall k :: k in keys ==> FieldFindings(a, b, k, path, rules) == {}
  {
    if KeysFindings(a, b, keys, path, rules) == {} {
      forall k | k in keys ensures FieldFindings(a, b, k, path, rules) == {} {
        FieldFindingsIncluded(a, b, keys, k, path, rules);
      }
    }
  }

  lemma ItemsFindingsEmpty(a: seq<Value>, b: seq<Value>, path: string, rules: Rules)
    requires |a| == |b|
    ensures ItemsFindings(a, b, |a|, path, rules) == {}
      <==> forall i :: 0 <= i < |a| ==> Findings(a[i], b[i], ItemPath(path, i), rules) == {}
  {
    if ItemsFindings(a, b, |a|, path, rules) == {} {
      forall i | 0 <= i < |a| ensures Findings(a[i], b[i], ItemPath(path, i), rules) == {} {
        ItemFindingsIncluded(a, b, i, path, rules);
      }
    }
  }

  /** The comparator is silent exactly on handle repairs. */
  lemma {:induction false} ComparisonIsExact(a: Value, b: Value, path: string, rules: Rules)
    ensures Findings(a, b, path, rules) == {} <==> OnlyRepairs(a, b, path, rules)
    decreases a
  {
    if a.Obj? && b.Obj? {
      forall k | k in a.fields && k in b.fields && k != HANDLE_KEY
        ensures Findings(a.fields[k], b.fields[k], path + "." + k, rules) == {}
          <==> OnlyRepairs(a.fields[k], b.fields[k], path + "." + k, rules)
      {
        ComparisonIsExact(a.fields[k], b.fields[k], path + "." + k, rules);
      }
      KeysFindingsEmpty(a.fields, b.fields, a.fields.Keys + b.fields.Keys, path, rules);
      FieldFindingsEmpty(a.fields, b.fields, path, rules);
      ObjectRepairsDescend(a.fields, b.fields, path, rules);
      if FieldsOnlyRepaired(a.fields, b.fields, path, rules) {
        ObjectRepairsAscend(a.fields, b.fields, path, rules);
      }
    } else if a.Arr? && b.Arr? {
      ArrayRepairsDescend(a.items, b.items, path, rules);
      if |a.items| == |b.items| {
        ItemsFindingsEmpty(a.items, b.items, path, rules);
        forall i | 0 <= i < |a.items|
          ensures Findings(a.items[i], b.items[i], ItemPath(path, i), rules) == {}
            <==> OnlyRepairs(a.items[i], b.items[i], ItemPath(path, i), rules)
        {
          ComparisonIsExact(a.items[i], b.items[i], ItemPath(path, i), rules);
        }
        if ItemsOnlyRepaired(a.items, b.items, path, rules) {
          ArrayRepairsAscend(a.items, b.items, path, rules);
        }
      }
    } else {
      ScalarRepairs(a, b, path, rules);
    }
  }

  lemma ScalarRepairs(a: Value, b: Value, path: string, rules: Rules)
    requires !(a.Obj? && b.Obj?) && !(a.Arr? && b.Arr?)
    ensures a == b <==> OnlyRepairs(a, b, path, rules)
  {
    forall p: Path | !a.Obj? && !a.Arr? ensures MappingIn(a, p).None? {
    }
  }
}
