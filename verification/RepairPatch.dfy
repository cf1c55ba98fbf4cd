/** Applying a repair response: only the referenced, absent or null handles are ever written. */
module RepairPatch {
  import opened Options
  import opened Json
  import opened Text
  import opened TraceGuard
  import opened ParentPaths
  import opened ErasedClaims
  import opened RepairReferences
  import opened RepairResolution

  /** The write `mapping["evidence_chunk_id"] = h` into the mapping at `p`. */
  function SetHandle(v: Value, p: Path, h: string): Value
    decreases |p|
  {
    if p == [] then (if v.Obj? then Obj(v.fields[HANDLE_KEY := Str(h)]) else v)
    else match p[0]
      case Key(k) => if v.Obj? && k in v.fields then Obj(v.fields[k := SetHandle(v.fields[k], p[1..], h)]) else v
      case Index(i) => if v.Arr? && i < |v.items| then Arr(v.items[i := SetHandle(v.items[i], p[1..], h)]) else v
  }

  lemma SetHandleKeepsObjects(v: Value, p: Path, h: string)
    requires v.Obj?
    ensures SetHandle(v, p, h).Obj?
  {
  }

  function ApplyOne(patched: Fields, response: Fields, r: Reference): Fields {
    var source, target := MappingAt(response, r.ParentPath()), MappingAt(patched, r.ParentPath());
    if r.state.Invalid? || source.None? || target.None? || StateOf(target.value.value.fields).Invalid? then patched
    else
      match Get(source.value.value.fields, HANDLE_KEY)
      case Str(h) =>
        if h != "" && r.handle == Some(h) then
          SetHandleKeepsObjects(Obj(patched), target.value.steps, h);
          SetHandle(Obj(patched), target.value.steps, h).fields
        else patched
      case _ => patched
  }

  function ApplyAll(original: Fields, response: Fields, refs: seq<Reference>): Fields {
    if refs == [] then original
    else ApplyOne(ApplyAll(original, response, refs[..|refs| - 1]), response, refs[|refs| - 1])
  }

  method ApplyRepairedEvidenceChunkIds(original: Fields, response: Fields, refs: seq<Reference>)
    returns (patched: Fields)
    ensures patched == ApplyAll(original, response, refs)
  {
    patched := original;
    for n := 0 to |refs|
      invariant patched == ApplyAll(original, response, refs[..n])
    {
      assert refs[..n + 1][..n] == refs[..n];
      var r := refs[n];
      if r.state.Invalid? {
        continue;
      }
      var source := MappingAt(response, r.ParentPath());
      var target := MappingAt(patched, r.ParentPath());
      if source.None? || target.None? {
        continue;
      }
      if StateOf(target.value.value.fields).Invalid? {
        continue;
      }
      var repaired := Get(source.value.value.fields, HANDLE_KEY);
      if repaired.Str? && repaired.text != "" && r.handle == Some(repaired.text) {
        SetHandleKeepsObjects(Obj(patched), target.value.steps, repaired.text);
        patched := SetHandle(Obj(patched), target.value.steps, repaired.text).fields;
      }
    }
    assert refs[..|refs|] == refs;
  }

  // ---------- Filling handles ----------

  type Fills = map<Path, string>

  function FilledAt(fills: Fills, here: Path): Option<string> {
    if here in fills then Some(fills[here]) else None
  }

  function WithHandle(m: Fields, h: Option<string>): Fields {
    match h
    case Some(s) => m[HANDLE_KEY := Str(s)]
    case None => m
  }

  /** The tree with a handle written into the mapping at every path of `fills`; `here` is where `v` sits. */
  function Fill(v: Value, fills: Fills, here: Path): Value {
    match v
    case Obj(m) => Obj(WithHandle(map k | k in m :: Fill(m[k], fills, here + [Key(k)]), FilledAt(fills, here)))
    case Arr(s) => Arr(seq(|s|, i requires 0 <= i < |s| => Fill(s[i], fills, here + [Index(i)])))
    case _ => v
  }

  function FillFields(m: Fields, fills: Fills): Fields {
    Fill(Obj(m), fills, []).fields
  }

  function FilledFields(m: Fields, f: Fills, here: Path): Fields {
    map k | k in m :: Fill(m[k], f, here + [Key(k)])
  }

  lemma FillObject(m: Fields, f: Fills, here: Path)
    ensures Fill(Obj(m), f, here) == Obj(WithHandle(FilledFields(m, f, here), FilledAt(f, here)))
  {
  }

  /** The fills agree on every path at or below `here`. */
  ghost predicate AgreeBelow(f: Fills, g: Fills, here: Path) {
    forall p :: p in f.Keys + g.Keys && here <= p ==> p in f && p in g && f[p] == g[p]
  }

  lemma AgreeBelowStep(f: Fills, g: Fills, here: Path, s: Step)
    requires AgreeBelow(f, g, here)
    ensures AgreeBelow(f, g, here + [s])
  {
    forall p | p in f.Keys + g.Keys && here + [s] <= p ensures here <= p {
      assert here == (here + [s])[..|here|] == p[..|here|];
    }
  }

  lemma {:induction false} FillCongruent(v: Value, f: Fills, g: Fills, here: Path)
    requires AgreeBelow(f, g, here)
    ensures Fill(v, f, here) == Fill(v, g, here)
  {
    match v
    case Obj(m) =>
      forall k | k in m ensures Fill(m[k], f, here + [Key(k)]) == Fill(m[k], g, here + [Key(k)]) {
        AgreeBelowStep(f, g, here, Key(k));
        FillCongruent(m[k], f, g, here + [Key(k)]);
      }
      assert FilledFields(m, f, here) == FilledFields(m, g, here);
      FillObject(m, f, here);
      FillObject(m, g, here);
    case Arr(s) =>
      forall i | 0 <= i < |s| ensures Fill(s[i], f, here + [Index(i)]) == Fill(s[i], g, here + [Index(i)]) {
        AgreeBelowStep(f, g, here, Index(i));
        FillCongruent(s[i], f, g, here + [Index(i)]);
      }
    case _ =>
  }

  lemma {:induction false} FillNothing(v: Value, here: Path)
    ensures Fill(v, map[], here) == v
  {
    match v
    case Obj(m) =>
      forall k | k in m ensures Fill(m[k], map[], here + [Key(k)]) == m[k] {
        FillNothing(m[k], here + [Key(k)]);
      }
      assert Fill(v, map[], here).fields == m;
    case Arr(s) =>
      forall i | 0 <= i < |s| ensures Fill(s[i], map[], here + [Index(i)]) == s[i] {
        FillNothing(s[i], here + [Index(i)]);
      }
    case _ =>
  }

  /** No fill at or below `here`: the value is untouched. */
  lemma FillElsewhere(v: Value, f: Fills, here: Path)
    requires forall p :: p in f ==> !(here <= p)
    ensures Fill(v, f, here) == v
  {
    FillCongruent(v, f, map[], here);
    FillNothing(v, here);
  }

  lemma EraseUnderHandle(inner: Fields, m: Fields, o: Option<string>)
    requires inner.Keys == m.Keys
    requires forall k :: k in m && k != HANDLE_KEY ==> Erase(inner[k]) == Erase(m[k])
    ensures Erase(Obj(WithHandle(inner, o))) == Erase(Obj(m))
  {
    assert Erase(Obj(WithHandle(inner, o))).fields == Erase(Obj(m)).fields;
  }

  lemma {:induction false} EraseFill(v: Value, f: Fills, here: Path)
    ensures Erase(Fill(v, f, here)) == Erase(v)
  {
    match v
    case Obj(m) =>
      forall k | k in m && k != HANDLE_KEY ensures Erase(Fill(m[k], f, here + [Key(k)])) == Erase(m[k]) {
        EraseFill(m[k], f, here + [Key(k)]);
      }
      FillObject(m, f, here);
      EraseUnderHandle(FilledFields(m, f, here), m, FilledAt(f, here));
    case Arr(s) =>
      forall i | 0 <= i < |s| ensures Erase(Fill(s[i], f, here + [Index(i)])) == Erase(s[i]) {
        EraseFill(s[i], f, here + [Index(i)]);
      }
    case _ =>
  }

  lemma {:induction false} AtFill(v: Value, f: Fills, here: Path, p: Path)
    requires HandleFree(p)
    ensures At(Fill(v, f, here), p) == match At(v, p) case Some(w) => Some(Fill(w, f, here + p)) case None => None
    decreases |p|
  {
    if p == [] {
      assert here + p == here;
    } else {
      assert p[0] in p && HandleFree(p[1..]);
      assert here + p == here + [p[0]] + p[1..];
      match p[0]
      case Key(k) => if v.Obj? && k in v.fields { AtFill(v.fields[k], f, here + [Key(k)], p[1..]); }
      case Index(i) => if v.Arr? && i < |v.items| { AtFill(v.items[i], f, here + [Index(i)], p[1..]); }
    }
  }

  /** Filling at `p` leaves everything alone at and below a path that does not lead to `p`. */
  lemma FillOffPath(v: Value, f: Fills, p: Path, h: string, here: Path)
    requires !(here <= p)
    ensures Fill(v, f[p := h], here) == Fill(v, f, here)
  {
    FillCongruent(v, f[p := h], f, here);
  }

  lemma SiblingOffPath(here: Path, s: Step, p: Path)
    requires p == [] || p[0] != s
    ensures !(here + [s] <= here + p)
  {
    if p != [] {
      assert (here + [s])[|here|] == s && (here + p)[|here|] == p[0];
    }
  }

  lemma FilledFieldsOffPath(m: Fields, f: Fills, here: Path, h: string)
    ensures FilledFields(m, f[here := h], here) == FilledFields(m, f, here)
  {
    forall k | k in m ensures Fill(m[k], f[here := h], here + [Key(k)]) == Fill(m[k], f, here + [Key(k)]) {
      FillOffPath(m[k], f, here, h, here + [Key(k)]);
    }
  }

  lemma SetHandleFillHere(m: Fields, f: Fills, here: Path, h: string)
    ensures SetHandle(Fill(Obj(m), f, here), [], h) == Fill(Obj(m), f[here := h], here)
  {
    FilledFieldsOffPath(m, f, here, h);
    FillObject(m, f, here);
    FillObject(m, f[here := h], here);
    var inner := FilledFields(m, f, here);
    assert WithHandle(inner, FilledAt(f, here))[HANDLE_KEY := Str(h)] == WithHandle(inner, Some(h));
  }

  lemma FieldsOffPath(m: Fields, f: Fills, here: Path, p: Path, h: string, except: string)
    requires p != [] && p[0] == Key(except)
    ensures forall j :: j in m && j != except ==>
      Fill(m[j], f[here + p := h], here + [Key(j)]) == Fill(m[j], f, here + [Key(j)])
  {
    forall j | j in m && j != except
      ensures Fill(m[j], f[here + p := h], here + [Key(j)]) == Fill(m[j], f, here + [Key(j)])
    {
      SiblingOffPath(here, Key(j), p);
      FillOffPath(m[j], f, here + p, h, here + [Key(j)]);
    }
  }

  lemma ItemsOffPath(s: seq<Value>, f: Fills, here: Path, p: Path, h: string, except: nat)
    requires p != [] && p[0] == Index(except)
    ensures forall j :: 0 <= j < |s| && j != except ==>
      Fill(s[j], f[here + p := h], here + [Index(j)]) == Fill(s[j], f, here + [Index(j)])
  {
    forall j | 0 <= j < |s| && j != except
      ensures Fill(s[j], f[here + p := h], here + [Index(j)]) == Fill(s[j], f, here + [Index(j)])
    {
      SiblingOffPath(here, Index(j), p);
      FillOffPath(s[j], f, here + p, h, here + [Index(j)]);
    }
  }

  /** Writing one more handle into a filled tree is filling one more path. */
  lemma {:induction false} SetHandleFill(v: Value, f: Fills, here: Path, p: Path, h: string)
    requires HandleFree(p) && At(v, p).Some? && At(v, p).value.Obj?
    ensures SetHandle(Fill(v, f, here), p, h) == Fill(v, f[here + p := h], here)
    decreases |p|
  {
    if p == [] {
      assert here + p == here;
      SetHandleFillHere(v.fields, f, here, h);
    } else {
      assert p[0] in p && HandleFree(p[1..]);
      assert here + p == here + [p[0]] + p[1..] && here != here + p;
      match p[0]
      case Key(k) =>
        SetHandleFill(v.fields[k], f, here + [Key(k)], p[1..], h);
        FieldsOffPath(v.fields, f, here, p, h, k);
        SetHandleFillField(v.fields, f, here, p, h, k);
      case Index(i) =>
        SetHandleFill(v.items[i], f, here + [Index(i)], p[1..], h);
        ItemsOffPath(v.items, f, here, p, h, i);
        assert SetHandle(Fill(v, f, here), p, h).items == Fill(v, f[here + p := h], here).items;
    }
  }

  lemma UpdateUnderHandle(inner: Fields, inner': Fields, o: Option<string>, k: string)
    requires inner.Keys == inner'.Keys && k in inner && k != HANDLE_KEY
    requires forall j :: j in inner && j != k ==> inner[j] == inner'[j]
    ensures WithHandle(inner, o)[k := inner'[k]] == WithHandle(inner', o)
  {
  }

  lemma SetHandleFillField(m: Fields, f: Fills, here: Path, p: Path, h: string, k: string)
    requires p != [] && p[0] == Key(k) && k != HANDLE_KEY && k in m
    requires SetHandle(Fill(m[k], f, here + [Key(k)]), p[1..], h) == Fill(m[k], f[here + p := h], here + [Key(k)])
    requires forall j :: j in m && j != k ==>
      Fill(m[j], f[here + p := h], here + [Key(j)]) == Fill(m[j], f, here + [Key(j)])
    ensures SetHandle(Fill(Obj(m), f, here), p, h) == Fill(Obj(m), f[here + p := h], here)
  {
    assert here != here + p by { assert |here + p| > |here|; }
    var inner, inner' := FilledFields(m, f, here), FilledFields(m, f[here + p := h], here);
    FillObject(m, f, here);
    FillObject(m, f[here + p := h], here);
    FilledUpdate(inner, inner', FilledAt(f, here), p, h, k);
  }

  /** Writing below a key of an object whose handle was filled. */
  lemma FilledUpdate(inner: Fields, inner': Fields, o: Option<string>, p: Path, h: string, k: string)
    requires inner.Keys == inner'.Keys && k in inner && k != HANDLE_KEY && p != [] && p[0] == Key(k)
    requires forall j :: j in inner && j != k ==> inner[j] == inner'[j]
    requires inner'[k] == SetHandle(inner[k], p[1..], h)
    ensures SetHandle(Obj(WithHandle(inner, o)), p, h) == Obj(WithHandle(inner', o))
  {
    UpdateUnderHandle(inner, inner', o, k);
    SetHandleUnder(WithHandle(inner, o), p, h, k);
  }

  lemma SetHandleUnder(m: Fields, p: Path, h: string, k: string)
    requires p != [] && p[0] == Key(k) && k in m
    ensures SetHandle(Obj(m), p, h) == Obj(m[k := SetHandle(m[k], p[1..], h)])
  {
  }

  // ---------- Applying a response is filling the paths it answers correctly ----------

  /** The non-empty handle string a response holds in the mapping at a location. */
  function ResponseHandle(response: Fields, p: Path): Option<string> {
    match At(Obj(response), p)
    case Some(Obj(m)) => NonEmptyString(m, HANDLE_KEY)
    case _ => None
  }

  /** The response gives the reference the one handle it may take. */
  predicate Answered(response: Fields, r: Reference) {
    r.handle.Some? && ResponseHandle(response, Steps(r.loc)) == r.handle
  }

  function Chosen(response: Fields, refs: seq<Reference>): Fills {
    if refs == [] then map[]
    else
      var rest, last := Chosen(response, refs[..|refs| - 1]), refs[|refs| - 1];
      if Answered(response, last) then rest[Steps(last.loc) := last.handle.value] else rest
  }

  lemma {:induction false} ChosenAreAnswers(response: Fields, refs: seq<Reference>, p: Path)
    ensures p in Chosen(response, refs) <==> exists r :: r in refs && Answered(response, r) && Steps(r.loc) == p
    ensures p in Chosen(response, refs) ==> ResponseHandle(response, p) == Some(Chosen(response, refs)[p])
  {
    if refs != [] {
      var front, last := refs[..|refs| - 1], refs[|refs| - 1];
      ChosenAreAnswers(response, front, p);
      assert refs == front + [last];
      if Answered(response, last) && Steps(last.loc) == p {
        assert last in refs;
      } else if p in Chosen(response, front) {
        var r :| r in front && Answered(response, r) && Steps(r.loc) == p;
        assert r in refs;
      }
    }
  }

  /** The reference points at a mapping of the parent whose handle is absent or null. */
  ghost predicate PointsInto(r: Reference, parent: Fields) {
    && Plain(r.loc)
    && HandleFree(Steps(r.loc))
    && !r.state.Invalid?
    && match At(Obj(parent), Steps(r.loc)) case Some(Obj(m)) => StateOf(m) == r.state case _ => false
  }

  lemma FilledMapping(parent: Fields, f: Fills, p: Path)
    requires HandleFree(p) && At(Obj(parent), p).Some? && At(Obj(parent), p).value.Obj?
    ensures At(Obj(FillFields(parent, f)), p) == Some(Fill(At(Obj(parent), p).value, f, p))
    ensures var m := At(Obj(parent), p).value.fields;
            var m' := Fill(Obj(m), f, p).fields;
            if p in f then HANDLE_KEY in m' && m'[HANDLE_KEY] == Str(f[p])
            else (HANDLE_KEY in m' <==> HANDLE_KEY in m) && (StateOf(m') == StateOf(m))
                 && NonEmptyString(m', HANDLE_KEY) == NonEmptyString(m, HANDLE_KEY)
  {
    AtFill(Obj(parent), f, [], p);
    assert [] + p == p;
  }

  /** One step of the loop at a structured path: an answered handle is written unless the mapping already has one. */
  lemma ApplyOneWrites(patched: Fields, response: Fields, r: Reference, m: Fields)
    requires Plain(r.loc) && !r.state.Invalid? && At(Obj(patched), Steps(r.loc)) == Some(Obj(m))
    ensures ApplyOne(patched, response, r) ==
            if Answered(response, r) && !StateOf(m).Invalid? then Written(patched, Steps(r.loc), r.handle.value) else patched
  {
    PrintedPathRoundTrip(response, r.loc);
    PrintedPathRoundTrip(patched, r.loc);
  }

  /** The object after one write. */
  function Written(patched: Fields, p: Path, h: string): Fields {
    var v := SetHandle(Obj(patched), p, h);
    if v.Obj? then v.fields else patched
  }

  /** Writing into a filled tree fills one more path. */
  lemma WrittenIsFill(parent: Fields, f: Fills, p: Path, h: string)
    requires HandleFree(p) && At(Obj(parent), p).Some? && At(Obj(parent), p).value.Obj?
    ensures Written(FillFields(parent, f), p, h) == FillFields(parent, f[p := h])
  {
    SetHandleFill(Obj(parent), f, [], p, h);
    assert [] + p == p;
  }

  /** What the mapping of a reference holds once some paths are filled. */
  lemma FilledReference(parent: Fields, f: Fills, r: Reference) returns (m: Fields)
    requires PointsInto(r, parent)
    ensures At(Obj(FillFields(parent, f)), Steps(r.loc)) == Some(Obj(m))
    ensures StateOf(m).Invalid? <==> Steps(r.loc) in f
  {
    var p := Steps(r.loc);
    FilledMapping(parent, f, p);
    m := Fill(At(Obj(parent), p).value, f, p).fields;
  }

  lemma ApplyOneIsFill(parent: Fields, response: Fields, f: Fills, r: Reference)
    requires PointsInto(r, parent)
    requires Steps(r.loc) in f ==> ResponseHandle(response, Steps(r.loc)) == Some(f[Steps(r.loc)])
    ensures ApplyOne(FillFields(parent, f), response, r)
         == FillFields(parent, if Answered(response, r) then f[Steps(r.loc) := r.handle.value] else f)
  {
    var p := Steps(r.loc);
    var m := FilledReference(parent, f, r);
    ApplyOneWrites(FillFields(parent, f), response, r, m);
    if Answered(response, r) {
      if p in f {
        assert f[p := r.handle.value] == f;
      } else {
        WrittenIsFill(parent, f, p, r.handle.value);
      }
    }
  }

  /** The patched parent is the original with exactly the correctly answered references filled. */
  lemma {:induction false} ApplyIsFill(parent: Fields, response: Fields, refs: seq<Reference>)
    requires forall r :: r in refs ==> PointsInto(r, parent)
    ensures ApplyAll(parent, response, refs) == FillFields(parent, Chosen(response, refs))
  {
    if refs == [] {
      FillNothing(Obj(parent), []);
    } else {
      var front, last := refs[..|refs| - 1], refs[|refs| - 1];
      ApplyIsFill(parent, response, front);
      ChosenAreAnswers(response, front, Steps(last.loc));
      ApplyOneIsFill(parent, response, Chosen(response, front), last);
    }
  }
}
