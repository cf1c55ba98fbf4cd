/** Where the claim mappings of a parent synthesis sit, how their paths are printed, and how a printed path is
    looked up again. */
module ParentPaths {
  import opened Options
  import opened Json
  import opened Text
  import opened TraceGuard

  // ---------- Reference paths ----------

  /** One dot-separated token of a reference path: a key followed by list indices. */
  datatype Segment = Segment(key: string, indices: seq<nat>)

  type RefPath = seq<Segment>

  function IndexSteps(indices: seq<nat>): Path {
    seq(|indices|, i requires 0 <= i < |indices| => Index(indices[i]))
  }

  function SegmentSteps(s: Segment): Path {
    [Key(s.key)] + IndexSteps(s.indices)
  }

  function Steps(p: RefPath): Path {
    if p == [] then [] else SegmentSteps(p[0]) + Steps(p[1..])
  }

  function PrintIndices(indices: seq<nat>): string {
    if indices == [] then "" else "[" + Decimal(indices[0]) + "]" + PrintIndices(indices[1..])
  }

  function PrintSegment(s: Segment): string {
    s.key + PrintIndices(s.indices)
  }

  function PrintSegments(p: RefPath): seq<string> {
    seq(|p|, i requires 0 <= i < |p| => PrintSegment(p[i]))
  }

  function PrintRefPath(p: RefPath): string {
    Join(PrintSegments(p), '.')
  }

  ghost predicate PlainKey(k: string) {
    k != "" && '.' !in k && '[' !in k
  }

  /** Non-empty, with keys the printed form cannot confuse with its own punctuation. */
  ghost predicate Plain(p: RefPath) {
    p != [] && forall i :: 0 <= i < |p| ==> PlainKey(p[i].key)
  }

  // ---------- Looking a printed path up ----------

  /** A node found in a tree: the steps walked and the value reached. */
  datatype Located = Located(steps: Path, value: Value)

  function After(steps: Path, found: Option<Located>): Option<Located> {
    match found
    case Some(l) => Some(Located(steps + l.steps, l.value))
    case None => None
  }

  function WalkIndices(v: Value, remainder: string): Option<Located>
    decreases |remainder|
  {
    if remainder == "" then Some(Located([], v))
    else if remainder[0] != '[' then None
    else
      var end := Find(remainder, ']');
      if end == |remainder| then None
      else
        var indexText := remainder[1..end];
        if !IsDecimal(indexText) then None
        else
          var index := DecimalValue(indexText);
          if !v.Arr? || index >= |v.items| then None
          else After([Index(index)], WalkIndices(v.items[index], remainder[end + 1..]))
  }

  function WalkToken(v: Value, token: string): Option<Located> {
    if token == "" then None
    else
      var keyEnd := Find(token, '[');
      var key := token[..keyEnd];
      if key == "" then WalkIndices(v, token[keyEnd..])
      else if !v.Obj? || key !in v.fields then None
      else After([Key(key)], WalkIndices(v.fields[key], token[keyEnd..]))
  }

  function WalkTokens(v: Value, tokens: seq<string>): Option<Located>
    decreases |tokens|
  {
    if tokens == [] then Some(Located([], v))
    else
      match WalkToken(v, tokens[0])
      case None => None
      case Some(here) =>
        if here.value.Null? then None else After(here.steps, WalkTokens(here.value, tokens[1..]))
  }

  /** The mapping at a printed path, with the steps that lead to it. */
  function MappingAt(parent: Fields, path: string): Option<Located> {
    match WalkTokens(Obj(parent), Split(path, '.'))
    case Some(l) => if l.value.Obj? then Some(l) else None
    case None => None
  }

  /** The same lookup stated on structured paths. */
  ghost function MappingAtSteps(parent: Fields, p: Path): Option<Located> {
    match At(Obj(parent), p)
    case Some(Obj(m)) => Some(Located(p, Obj(m)))
    case _ => None
  }

  // ---------- Print/parse round trip ----------

  lemma FindClosingBracket(digits: string, tail: string)
    requires IsDecimal(digits)
    ensures var s := "[" + digits + "]" + tail;
            && Find(s, ']') == |digits| + 1
            && s[1..|digits| + 1] == digits && s[|digits| + 2..] == tail
  {
    assert "[" + digits + "]" + tail == ("[" + digits) + ("]" + tail);
    assert ']' !in "[" + digits;
    FindAppend("[" + digits, "]" + tail, ']');
  }

  lemma {:induction false} WalkPrintedIndices(v: Value, indices: seq<nat>)
    ensures WalkIndices(v, PrintIndices(indices))
         == match At(v, IndexSteps(indices)) case Some(w) => Some(Located(IndexSteps(indices), w)) case None => None
    decreases |indices|
  {
    if indices != [] {
      var digits := Decimal(indices[0]);
      var tail := PrintIndices(indices[1..]);
      var s := PrintIndices(indices);
      FindClosingBracket(digits, tail);
      DecimalRoundTrip(indices[0]);
      assert IndexSteps(indices) == [Index(indices[0])] + IndexSteps(indices[1..]);
      assert IndexSteps(indices)[1..] == IndexSteps(indices[1..]);
      if v.Arr? && indices[0] < |v.items| {
        WalkPrintedIndices(v.items[indices[0]], indices[1..]);
      }
    }
  }

  lemma WalkPrintedSegment(v: Value, s: Segment)
    requires PlainKey(s.key)
    ensures WalkToken(v, PrintSegment(s))
         == match At(v, SegmentSteps(s)) case Some(w) => Some(Located(SegmentSteps(s), w)) case None => None
  {
    var tail := PrintIndices(s.indices);
    FindAppend(s.key, tail, '[');
    assert tail == "" || tail[0] == '[';
    assert Find(tail, '[') == 0;
    assert PrintSegment(s)[..|s.key|] == s.key && PrintSegment(s)[|s.key|..] == tail;
    assert SegmentSteps(s)[1..] == IndexSteps(s.indices);
    if v.Obj? && s.key in v.fields {
      WalkPrintedIndices(v.fields[s.key], s.indices);
    }
  }

  lemma {:induction false} NullHasNoSteps(p: Path)
    requires p != []
    ensures At(Null, p) == None
  {
  }

  lemma {:induction false} WalkPrintedSegments(v: Value, p: RefPath)
    requires forall i :: 0 <= i < |p| ==> PlainKey(p[i].key)
    requires p == [] ==> v.Obj?
    ensures var found := WalkTokens(v, PrintSegments(p));
            var target := At(v, Steps(p));
            if target.Some? && target.value.Obj? then found == Some(Located(Steps(p), target.value))
            else found.None? || !found.value.value.Obj?
    decreases |p|
  {
    if p != [] {
      WalkPrintedSegment(v, p[0]);
      assert PrintSegments(p)[1..] == PrintSegments(p[1..]);
      AtAppend(v, SegmentSteps(p[0]), Steps(p[1..]));
      match At(v, SegmentSteps(p[0]))
      case None =>
      case Some(w) =>
        if w.Null? {
          if p[1..] != [] { NullHasNoSteps(Steps(p[1..])); }
        } else if p[1..] == [] {
          assert Steps(p) == SegmentSteps(p[0]) + [];
        } else {
          WalkPrintedSegments(w, p[1..]);
        }
    }
  }

  lemma PrintedIndicesHaveNoDot(indices: seq<nat>)
    ensures '.' !in PrintIndices(indices)
  {
  }

  /** Looking up a printed path finds exactly what the structured path finds, in every tree. */
  lemma PrintedPathRoundTrip(parent: Fields, p: RefPath)
    requires Plain(p)
    ensures MappingAt(parent, PrintRefPath(p)) == MappingAtSteps(parent, Steps(p))
  {
    forall i | 0 <= i < |p| ensures '.' !in PrintSegments(p)[i] {
      PrintedIndicesHaveNoDot(p[i].indices);
    }
    SplitJoin(PrintSegments(p), '.');
    WalkPrintedSegments(Obj(parent), p);
  }

  // ---------- Claim-bearing mappings ----------

  datatype Candidate = Candidate(surface: string, loc: RefPath, mapping: Fields)
  {
    function ParentPath(): string {
      PrintRefPath(loc)
    }
  }

  function ItemCandidates(items: seq<Value>, surface: string, prefix: RefPath, key: string): seq<Candidate> {
    if items == [] then []
    else
      var n := |items| - 1;
      ItemCandidates(items[..n], surface, prefix, key)
      + (if items[n].Obj? then [Candidate(surface, prefix + [Segment(key, [n])], items[n].fields)] else [])
  }

  function SurfaceCandidates(v: Value, surface: string, prefix: RefPath, key: string): seq<Candidate> {
    match v
    case Obj(m) => [Candidate(surface, prefix + [Segment(key, [])], m)]
    case Arr(items) => ItemCandidates(items, surface, prefix, key)
    case _ => []
  }

  const RESULT: RefPath := [Segment("result", [])]

  function KeyCandidates(result: Fields, keys: seq<string>): seq<Candidate> {
    if keys == [] then []
    else
      var last := keys[|keys| - 1];
      KeyCandidates(result, keys[..|keys| - 1]) + SurfaceCandidates(Get(result, last), "result." + last, RESULT, last)
  }

  function ResultCandidates(v: Value): seq<Candidate> {
    match v
    case Obj(m) =>
      KeyCandidates(m, SURFACE_KEYS) + (if Get(m, "fact_id").Str? then [Candidate("result", RESULT, m)] else [])
    case _ => []
  }

  function Candidates(parent: Fields): seq<Candidate> {
    ResultCandidates(Get(parent, "result"))
    + SurfaceCandidates(Get(parent, "evidence_references"), "evidence_references", [], "evidence_references")
  }

  method IterParentClaimReferenceMappings(parent: Fields) returns (references: seq<Candidate>)
    ensures references == Candidates(parent)
  {
    references := [];
    var result := Get(parent, "result");
    if result.Obj? {
      var keys := SURFACE_KEYS;
      for k := 0 to |keys|
        invariant references == KeyCandidates(result.fields, keys[..k])
      {
        assert keys[..k + 1][..k] == keys[..k];
        references := references + SurfaceCandidates(Get(result.fields, keys[k]), "result." + keys[k], RESULT, keys[k]);
      }
      assert keys[..|keys|] == keys;
      if Get(result.fields, "fact_id").Str? {
        references := references + [Candidate("result", RESULT, result.fields)];
      }
    }
    references := references
      + SurfaceCandidates(Get(parent, "evidence_references"), "evidence_references", [], "evidence_references");
  }

  // ---------- Claims are the claims of the candidates ----------

  function ClaimsOf(c: Candidate): seq<Claim> {
    ClaimsFromMapping(c.mapping, c.surface)
  }

  function AllClaims(cs: seq<Candidate>): seq<Claim> {
    if cs == [] then [] else AllClaims(cs[..|cs| - 1]) + ClaimsOf(cs[|cs| - 1])
  }

  lemma {:induction false} AllClaimsAppend(a: seq<Candidate>, b: seq<Candidate>)
    ensures AllClaims(a + b) == AllClaims(a) + AllClaims(b)
  {
    if b == [] {
      assert a + b == a;
    } else {
      var front, last := b[..|b| - 1], b[|b| - 1];
      assert (a + b)[..|a + b| - 1] == a + front;
      AllClaimsAppend(a, front);
      assert AllClaims(a + b) == AllClaims(a + front) + ClaimsOf(last);
      assert AllClaims(b) == AllClaims(front) + ClaimsOf(last);
      ConcatAssociates(AllClaims(a), AllClaims(front), ClaimsOf(last));
    }
  }

  lemma AllClaimsOne(c: Candidate)
    ensures AllClaims([c]) == ClaimsOf(c)
  {
    assert [c][..0] == [];
  }

  lemma {:induction false} SurfaceClaims(v: Value, surface: string, prefix: RefPath, key: string)
    ensures AllClaims(SurfaceCandidates(v, surface, prefix, key)) == ClaimsFromSurface(v, surface)
  {
    match v
    case Obj(m) => AllClaimsOne(Candidate(surface, prefix + [Segment(key, [])], m));
    case Arr(items) => ItemClaims(items, surface, prefix, key);
    case _ =>
  }

  lemma {:induction false} ItemClaims(items: seq<Value>, surface: string, prefix: RefPath, key: string)
    ensures AllClaims(ItemCandidates(items, surface, prefix, key)) == ClaimsFromItems(items, surface)
  {
    if items != [] {
      var n := |items| - 1;
      ItemClaims(items[..n], surface, prefix, key);
      var rest := ItemCandidates(items[..n], surface, prefix, key);
      if items[n].Obj? {
        var c := Candidate(surface, prefix + [Segment(key, [n])], items[n].fields);
        assert ItemCandidates(items, surface, prefix, key) == rest + [c];
        AllClaimsAppend(rest, [c]);
        AllClaimsOne(c);
      } else {
        assert ItemCandidates(items, surface, prefix, key) == rest;
      }
    }
  }

  lemma {:induction false} KeyClaims(result: Fields, keys: seq<string>)
    ensures AllClaims(KeyCandidates(result, keys)) == ClaimsFromKeys(result, keys)
  {
    if keys != [] {
      var last := keys[|keys| - 1];
      KeyClaims(result, keys[..|keys| - 1]);
      SurfaceClaims(Get(result, last), "result." + last, RESULT, last);
      AllClaimsAppend(KeyCandidates(result, keys[..|keys| - 1]),
                      SurfaceCandidates(Get(result, last), "result." + last, RESULT, last));
    }
  }

  lemma ResultClaims(v: Value)
    ensures AllClaims(ResultCandidates(v)) == ClaimsFromResult(v)
  {
    if v.Obj? {
      KeyClaims(v.fields, SURFACE_KEYS);
      var self := Candidate("result", RESULT, v.fields);
      AllClaimsAppend(KeyCandidates(v.fields, SURFACE_KEYS), [self]);
      AllClaimsOne(self);
      AllClaimsAppend(KeyCandidates(v.fields, SURFACE_KEYS), []);
    }
  }

  /** The gate's claim extraction and the repair loop's candidate search read the same mappings in the same order. */
  lemma ClaimsComeFromCandidates(parent: Fields)
    ensures ParentClaims(parent) == AllClaims(Candidates(parent))
  {
    var result, references := Get(parent, "result"), Get(parent, "evidence_references");
    ResultClaims(result);
    SurfaceClaims(references, "evidence_references", [], "evidence_references");
    AllClaimsAppend(ResultCandidates(result),
                    SurfaceCandidates(references, "evidence_references", [], "evidence_references"));
  }

  // ---------- Candidates are located, and located apart ----------

  ghost predicate Sound(parent: Fields, c: Candidate) {
    && Plain(c.loc)
    && HandleFree(Steps(c.loc))
    && At(Obj(parent), Steps(c.loc)) == Some(Obj(c.mapping))
  }

  ghost predicate Distinct(cs: seq<Candidate>) {
    forall i, j :: 0 <= i < j < |cs| ==> cs[i].loc != cs[j].loc
  }

  ghost predicate OfKey(c: Candidate, prefix: RefPath, key: string) {
    |c.loc| == |prefix| + 1 && c.loc[..|prefix|] == prefix && c.loc[|prefix|].key == key
  }

  /** An item candidate of `items` under `prefix` and `key`, with its list index. */
  ghost predicate ItemPlaced(c: Candidate, items: seq<Value>, prefix: RefPath, key: string) {
    && OfKey(c, prefix, key)
    && |c.loc[|prefix|].indices| == 1
    && c.loc[|prefix|].indices[0] < |items|
    && items[c.loc[|prefix|].indices[0]] == Obj(c.mapping)
  }

  lemma ItemPlacedInLonger(c: Candidate, items: seq<Value>, n: nat, prefix: RefPath, key: string)
    requires n <= |items| && ItemPlaced(c, items[..n], prefix, key)
    ensures ItemPlaced(c, items, prefix, key) && c.loc[|prefix|].indices[0] < n
  {
  }

  lemma {:induction false} ItemCandidatesPlaced(items: seq<Value>, surface: string, prefix: RefPath, key: string)
    ensures Distinct(ItemCandidates(items, surface, prefix, key))
    ensures forall c :: c in ItemCandidates(items, surface, prefix, key) ==> ItemPlaced(c, items, prefix, key)
  {
    if items != [] {
      var n := |items| - 1;
      ItemCandidatesPlaced(items[..n], surface, prefix, key);
      var front := ItemCandidates(items[..n], surface, prefix, key);
      forall c | c in front ensures ItemPlaced(c, items, prefix, key) && c.loc[|prefix|].indices[0] < n {
        ItemPlacedInLonger(c, items, n, prefix, key);
      }
      if items[n].Obj? {
        var last := Candidate(surface, prefix + [Segment(key, [n])], items[n].fields);
        assert last.loc[|prefix|] == Segment(key, [n]);
        forall i | 0 <= i < |front| ensures front[i].loc != last.loc {
          assert front[i] in front;
        }
        assert ItemCandidates(items, surface, prefix, key) == front + [last];
      } else {
        assert ItemCandidates(items, surface, prefix, key) == front;
      }
    }
  }

  ghost predicate SurfacePlaced(c: Candidate, v: Value, prefix: RefPath, key: string) {
    OfKey(c, prefix, key) && At(v, IndexSteps(c.loc[|prefix|].indices)) == Some(Obj(c.mapping))
  }

  lemma ItemIsSurfacePlaced(c: Candidate, items: seq<Value>, prefix: RefPath, key: string)
    requires ItemPlaced(c, items, prefix, key)
    ensures SurfacePlaced(c, Arr(items), prefix, key)
  {
    var n := c.loc[|prefix|].indices[0];
    assert c.loc[|prefix|].indices == [n];
    assert IndexSteps([n]) == [Index(n)] && [Index(n)][1..] == [];
  }

  lemma SurfaceCandidatesPlaced(v: Value, surface: string, prefix: RefPath, key: string)
    ensures Distinct(SurfaceCandidates(v, surface, prefix, key))
    ensures forall c :: c in SurfaceCandidates(v, surface, prefix, key) ==> SurfacePlaced(c, v, prefix, key)
  {
    if v.Arr? {
      ItemCandidatesPlaced(v.items, surface, prefix, key);
      forall c | c in ItemCandidates(v.items, surface, prefix, key) ensures SurfacePlaced(c, v, prefix, key) {
        ItemIsSurfacePlaced(c, v.items, prefix, key);
      }
    }
  }

  ghost predicate UnderKeys(c: Candidate, result: Fields, keys: seq<string>) {
    && |c.loc| == 2
    && c.loc[0] == RESULT[0]
    && c.loc[1].key in keys
    && At(Get(result, c.loc[1].key), IndexSteps(c.loc[1].indices)) == Some(Obj(c.mapping))
  }

  lemma {:induction false} KeyCandidatesPlaced(result: Fields, keys: seq<string>)
    requires forall i, j :: 0 <= i < j < |keys| ==> keys[i] != keys[j]
    ensures Distinct(KeyCandidates(result, keys))
    ensures forall c :: c in KeyCandidates(result, keys) ==> UnderKeys(c, result, keys)
  {
    if keys != [] {
      var last := keys[|keys| - 1];
      KeyCandidatesPlaced(result, keys[..|keys| - 1]);
      SurfaceCandidatesPlaced(Get(result, last), "result." + last, RESULT, last);
      var front := KeyCandidates(result, keys[..|keys| - 1]);
      var back := SurfaceCandidates(Get(result, last), "result." + last, RESULT, last);
      assert KeyCandidates(result, keys) == front + back;
      forall c | c in front ensures UnderKeys(c, result, keys) {
        assert c.loc[1].key in keys[..|keys| - 1];
      }
      forall i | 0 <= i < |back| ensures UnderKeys(back[i], result, keys) && back[i].loc[1].key == last {
        assert back[i] in back && SurfacePlaced(back[i], Get(result, last), RESULT, last);
        assert back[i].loc[..1] == RESULT;
        assert back[i].loc[0] == back[i].loc[..1][0];
      }
      forall i, j | 0 <= i < |front| && 0 <= j < |back| ensures front[i].loc != back[j].loc {
        assert front[i] in front && front[i].loc[1].key in keys[..|keys| - 1];
      }
    }
  }

  lemma SurfaceKeysDistinct()
    ensures forall i, j :: 0 <= i < j < |SURFACE_KEYS| ==> SURFACE_KEYS[i] != SURFACE_KEYS[j]
    ensures forall k :: k in SURFACE_KEYS ==> PlainKey(k) && k != HANDLE_KEY
  {
  }

  /** A one- or two-segment location, with lookup through its segments. */
  lemma StepsOfSegments(s: Segment, t: Segment)
    ensures Steps([s]) == SegmentSteps(s)
    ensures Steps([s, t]) == SegmentSteps(s) + SegmentSteps(t)
  {
    assert [s][1..] == [] && [s, t][1..] == [t] && [t][1..] == [];
    assert Steps([t]) == SegmentSteps(t) + [];
  }

  lemma SegmentStepsHandleFree(s: Segment)
    requires s.key != HANDLE_KEY
    ensures HandleFree(SegmentSteps(s))
  {
  }

  lemma AtSegment(m: Fields, s: Segment)
    requires At(Get(m, s.key), IndexSteps(s.indices)).Some? && At(Get(m, s.key), IndexSteps(s.indices)).value.Obj?
    ensures At(Obj(m), SegmentSteps(s)) == At(Get(m, s.key), IndexSteps(s.indices))
  {
    assert SegmentSteps(s)[1..] == IndexSteps(s.indices);
    if s.key !in m && s.indices != [] {
      NullHasNoSteps(IndexSteps(s.indices));
    }
  }

  lemma SoundAtTop(parent: Fields, c: Candidate)
    requires |c.loc| == 1 && PlainKey(c.loc[0].key) && c.loc[0].key != HANDLE_KEY
    requires At(Get(parent, c.loc[0].key), IndexSteps(c.loc[0].indices)) == Some(Obj(c.mapping))
    ensures Sound(parent, c)
  {
    assert c.loc == [c.loc[0]];
    StepsOfSegments(c.loc[0], c.loc[0]);
    AtSegment(parent, c.loc[0]);
    SegmentStepsHandleFree(c.loc[0]);
  }

  lemma SoundUnderResult(parent: Fields, c: Candidate)
    requires Get(parent, "result").Obj?
    requires UnderKeys(c, Get(parent, "result").fields, SURFACE_KEYS)
    ensures Sound(parent, c)
  {
    SurfaceKeysDistinct();
    assert c.loc == [c.loc[0], c.loc[1]];
    StepsOfSegments(c.loc[0], c.loc[1]);
    AtSegment(Get(parent, "result").fields, c.loc[1]);
    AtSegment(parent, c.loc[0]);
    AtAppend(Obj(parent), SegmentSteps(c.loc[0]), SegmentSteps(c.loc[1]));
    SegmentStepsHandleFree(c.loc[0]);
    SegmentStepsHandleFree(c.loc[1]);
  }

  lemma ResultCandidateIsSound(parent: Fields, c: Candidate)
    requires c in ResultCandidates(Get(parent, "result"))
    ensures Sound(parent, c)
  {
    var result := Get(parent, "result");
    if c in KeyCandidates(result.fields, SURFACE_KEYS) {
      SurfaceKeysDistinct();
      KeyCandidatesPlaced(result.fields, SURFACE_KEYS);
      SoundUnderResult(parent, c);
    } else {
      SoundAtTop(parent, c);
    }
  }

  lemma ReferenceCandidateIsSound(parent: Fields, c: Candidate)
    requires c in SurfaceCandidates(Get(parent, "evidence_references"), "evidence_references", [], "evidence_references")
    ensures Sound(parent, c)
  {
    SurfaceCandidatesPlaced(Get(parent, "evidence_references"), "evidence_references", [], "evidence_references");
    assert SurfacePlaced(c, Get(parent, "evidence_references"), [], "evidence_references");
    SoundAtTop(parent, c);
  }

  lemma CandidateIsSound(parent: Fields, c: Candidate)
    requires c in Candidates(parent)
    ensures Sound(parent, c)
  {
    if c in ResultCandidates(Get(parent, "result")) {
      ResultCandidateIsSound(parent, c);
    } else {
      ReferenceCandidateIsSound(parent, c);
    }
  }

  lemma ResultCandidatesDistinct(result: Value)
    ensures Distinct(ResultCandidates(result))
    ensures forall c :: c in ResultCandidates(result) ==> c.loc != [] && c.loc[0].key == "result"
  {
    SurfaceKeysDistinct();
    if result.Obj? {
      KeyCandidatesPlaced(result.fields, SURFACE_KEYS);
      forall c | c in KeyCandidates(result.fields, SURFACE_KEYS) ensures |c.loc| == 2 && c.loc[0].key == "result" {
        assert UnderKeys(c, result.fields, SURFACE_KEYS);
      }
    }
  }

  lemma ReferenceCandidatesDistinct(references: Value)
    ensures var cs := SurfaceCandidates(references, "evidence_references", [], "evidence_references");
            Distinct(cs) && forall c :: c in cs ==> c.loc != [] && c.loc[0].key == "evidence_references"
  {
    var cs := SurfaceCandidates(references, "evidence_references", [], "evidence_references");
    SurfaceCandidatesPlaced(references, "evidence_references", [], "evidence_references");
    forall c | c in cs ensures c.loc != [] && c.loc[0].key == "evidence_references" {
      assert SurfacePlaced(c, references, [], "evidence_references");
    }
  }

  lemma DistinctJoin(a: seq<Candidate>, b: seq<Candidate>, s: string, t: string)
    requires Distinct(a) && Distinct(b) && s != t
    requires forall c :: c in a ==> c.loc != [] && c.loc[0].key == s
    requires forall c :: c in b ==> c.loc != [] && c.loc[0].key == t
    ensures Distinct(a + b)
  {
    forall i, j | 0 <= i < |a| && 0 <= j < |b| ensures a[i].loc != b[j].loc {
      assert a[i] in a && b[j] in b;
    }
  }

  lemma CandidatesAreDistinct(parent: Fields)
    ensures Distinct(Candidates(parent))
  {
    var result, references := Get(parent, "result"), Get(parent, "evidence_references");
    ResultCandidatesDistinct(result);
    ReferenceCandidatesDistinct(references);
    DistinctJoin(ResultCandidates(result), SurfaceCandidates(references, "evidence_references", [], "evidence_references"),
                 "result", "evidence_references");
  }

  function LeadingIndices(p: Path): nat {
    if p == [] || p[0].Key? then 0 else 1 + LeadingIndices(p[1..])
  }

  lemma {:induction false} LeadingIndicesOfSegment(indices: seq<nat>, rest: Path)
    requires LeadingIndices(rest) == 0
    ensures LeadingIndices(IndexSteps(indices) + rest) == |indices|
  {
    if indices == [] {
      assert IndexSteps(indices) + rest == rest;
    } else {
      LeadingIndicesOfSegment(indices[1..], rest);
      assert (IndexSteps(indices) + rest)[1..] == IndexSteps(indices[1..]) + rest;
    }
  }

  /** The index steps at the front of a path, and what follows them, can be told apart. */
  lemma IndexStepsSplit(a: seq<nat>, b: seq<nat>, x: Path, y: Path)
    requires IndexSteps(a) + x == IndexSteps(b) + y && LeadingIndices(x) == 0 == LeadingIndices(y)
    ensures a == b && x == y
  {
    LeadingIndicesOfSegment(a, x);
    LeadingIndicesOfSegment(b, y);
    IndicesInjective(a, b, x, y);
  }

  lemma {:induction false} IndicesInjective(a: seq<nat>, b: seq<nat>, x: Path, y: Path)
    requires |a| == |b| && IndexSteps(a) + x == IndexSteps(b) + y
    ensures a == b && x == y
  {
    if a == [] {
      assert IndexSteps(a) + x == x && IndexSteps(b) + y == y;
    } else {
      IndexStepsFirst(a, x);
      IndexStepsFirst(b, y);
      IndicesInjective(a[1..], b[1..], x, y);
      assert a == [a[0]] + a[1..] && b == [b[0]] + b[1..];
    }
  }

  lemma IndexStepsFirst(a: seq<nat>, x: Path)
    requires a != []
    ensures (IndexSteps(a) + x)[0] == Index(a[0]) && (IndexSteps(a) + x)[1..] == IndexSteps(a[1..]) + x
  {
  }

  lemma StepsFirst(p: RefPath)
    requires p != []
    ensures Steps(p) != [] && Steps(p)[0] == Key(p[0].key)
    ensures Steps(p)[1..] == IndexSteps(p[0].indices) + Steps(p[1..])
  {
    ConcatAssociates([Key(p[0].key)], IndexSteps(p[0].indices), Steps(p[1..]));
  }

  lemma StepsLeadWithKey(p: RefPath)
    ensures LeadingIndices(Steps(p)) == 0
  {
    if p != [] {
      StepsFirst(p);
    }
  }

  lemma {:induction false} StepsInjective(p: RefPath, q: RefPath)
    requires Steps(p) == Steps(q)
    ensures p == q
    decreases |p|
  {
    if p != [] {
      StepsFirst(p);
    }
    if q != [] {
      StepsFirst(q);
    }
    if p != [] && q != [] {
      StepsLeadWithKey(p[1..]);
      StepsLeadWithKey(q[1..]);
      IndexStepsSplit(p[0].indices, q[0].indices, Steps(p[1..]), Steps(q[1..]));
      StepsInjective(p[1..], q[1..]);
      assert p == [p[0]] + p[1..] && q == [q[0]] + q[1..];
    }
  }

  /** A candidate's printed path leads back to that candidate's mapping, and to no other candidate's. */
  lemma CandidatePathsRoundTrip(parent: Fields, i: nat, j: nat)
    requires i < |Candidates(parent)| && j < |Candidates(parent)|
    ensures var c := Candidates(parent)[i];
            MappingAt(parent, c.ParentPath()) == Some(Located(Steps(c.loc), Obj(c.mapping)))
    ensures Candidates(parent)[i].ParentPath() == Candidates(parent)[j].ParentPath() ==> i == j
  {
    var c, d := Candidates(parent)[i], Candidates(parent)[j];
    CandidateIsSound(parent, c);
    CandidateIsSound(parent, d);
    PrintedPathRoundTrip(parent, c.loc);
    PrintedPathRoundTrip(parent, d.loc);
    if c.ParentPath() == d.ParentPath() {
      StepsInjective(c.loc, d.loc);
      CandidatesAreDistinct(parent);
    }
  }
}
