/** Which chunks children cite for a fact, which of them a repair may use, and what a reference records. */
module HandleMeaning {
  import opened Options
  import opened Json
  import opened Text
  import opened TraceGuard
  import opened ParentPaths
  import opened RepairReferences
  import opened RepairResolution
  import opened RepairSafety
  import opened ClaimMeaning

  // ---------- What an observed fact cites ----------

  /** How the value under a key reads: nothing when it is absent or null, a string as it is, the rest rendered. */
  function Shown(m: Fields, key: string, str: Rendering): string {
    if key !in m then "" else ShownValue(m[key], str)
  }

  function ShownValue(v: Value, str: Rendering): string {
    match v
    case Null => ""
    case Str(s) => s
    case _ => str(v)
  }

  function ShownItems(m: Fields, key: string, str: Rendering): seq<string> {
    if key in m && m[key].Arr? then
      seq(|m[key].items|, i requires 0 <= i < |m[key].items| => ShownValue(m[key].items[i], str))
    else []
  }

  function ChunkShown(m: Fields, str: Rendering): string {
    if Shown(m, "chunk_id", str) != "" then Shown(m, "chunk_id", str)
    else if Shown(m, "evidence_chunk_id", str) != "" then Shown(m, "evidence_chunk_id", str)
    else Shown(m, "source_chunk_id", str)
  }

  function FirstShown(texts: seq<string>): string {
    if texts == [] then "" else if texts[0] != "" then texts[0] else FirstShown(texts[1..])
  }

  /** The first fact the mapping names; when it names none by a string, the first that reads as a text. */
  ghost predicate FactShown(m: Fields, str: Rendering, f: string) {
    if exists g :: NamesFact(m, g) then FirstFact(m, f)
    else f == FirstShown([Shown(m, "fact_id", str), Shown(m, "supports_fact_id", str)] + ShownItems(m, "fact_ids", str)
                         + ShownItems(m, "supports_fact_ids", str) + ShownItems(m, "supported_fact_ids", str))
  }

  lemma ShownIs(m: Fields, key: string, str: Rendering)
    ensures CanonicalString(Get(m, key), str) == Shown(m, key, str)
  {
  }

  lemma ShownItemsAre(m: Fields, key: string, str: Rendering)
    ensures CanonicalStrings(Items(Get(m, key)), str) == ShownItems(m, key, str)
  {
  }

  lemma {:induction false} FirstShownIs(texts: seq<string>)
    ensures FirstNonEmpty(texts) == FirstShown(texts)
  {
    if texts != [] {
      FirstShownIs(texts[1..]);
    }
  }

  lemma ThreeChunks(m: Fields, str: Rendering)
    ensures CanonicalUnder(m, CHUNK_KEYS, str)
         == [Shown(m, "chunk_id", str), Shown(m, "evidence_chunk_id", str), Shown(m, "source_chunk_id", str)]
  {
    ShownIs(m, "chunk_id", str);
    ShownIs(m, "evidence_chunk_id", str);
    ShownIs(m, "source_chunk_id", str);
  }

  lemma FirstOfThree(a: string, b: string, c: string)
    ensures FirstNonEmpty([a, b, c]) == if a != "" then a else if b != "" then b else c
  {
    assert [a, b, c][1..] == [b, c] && [b, c][1..] == [c] && [c][1..] == [];
    assert FirstNonEmpty([c]) == c;
    assert FirstNonEmpty([b, c]) == if b != "" then b else c;
  }

  lemma ChunkShownIs(m: Fields, str: Rendering)
    ensures CanonicalChunkId(m, str) == ChunkShown(m, str)
  {
    ThreeChunks(m, str);
    FirstOfThree(Shown(m, "chunk_id", str), Shown(m, "evidence_chunk_id", str), Shown(m, "source_chunk_id", str));
  }

  lemma FactShownIs(m: Fields, str: Rendering, f: string)
    ensures FactShown(m, str, f) <==> f == CanonicalFactId(m, str)
  {
    NoFactNamed(m);
    if SupportedFactIds(m) != [] {
      FirstFactIs(m, f);
    } else {
      RenderedFacts(m, str);
    }
  }

  lemma RenderedFacts(m: Fields, str: Rendering)
    ensures CanonicalUnder(m, CLAIM_FACT_KEYS, str) + CanonicalListedUnder(m, CLAIM_FACT_LIST_KEYS, str)
         == [Shown(m, "fact_id", str), Shown(m, "supports_fact_id", str)] + ShownItems(m, "fact_ids", str)
            + ShownItems(m, "supports_fact_ids", str) + ShownItems(m, "supported_fact_ids", str)
    ensures FirstNonEmpty(CanonicalUnder(m, CLAIM_FACT_KEYS, str) + CanonicalListedUnder(m, CLAIM_FACT_LIST_KEYS, str))
         == FirstShown([Shown(m, "fact_id", str), Shown(m, "supports_fact_id", str)] + ShownItems(m, "fact_ids", str)
                       + ShownItems(m, "supports_fact_ids", str) + ShownItems(m, "supported_fact_ids", str))
  {
    TwoShown(m, str);
    ThreeLists(m, str);
    Regroup([Shown(m, "fact_id", str), Shown(m, "supports_fact_id", str)], ShownItems(m, "fact_ids", str),
            ShownItems(m, "supports_fact_ids", str), ShownItems(m, "supported_fact_ids", str));
    FirstShownIs(CanonicalUnder(m, CLAIM_FACT_KEYS, str) + CanonicalListedUnder(m, CLAIM_FACT_LIST_KEYS, str));
  }

  lemma Regroup<T>(a: seq<T>, b: seq<T>, c: seq<T>, d: seq<T>)
    ensures a + (b + c + d) == a + b + c + d
  {
  }

  lemma TwoShown(m: Fields, str: Rendering)
    ensures CanonicalUnder(m, CLAIM_FACT_KEYS, str) == [Shown(m, "fact_id", str), Shown(m, "supports_fact_id", str)]
  {
    ShownIs(m, "fact_id", str);
    ShownIs(m, "supports_fact_id", str);
  }

  lemma ThreeLists(m: Fields, str: Rendering)
    ensures CanonicalListedUnder(m, CLAIM_FACT_LIST_KEYS, str)
         == ShownItems(m, "fact_ids", str) + ShownItems(m, "supports_fact_ids", str) + ShownItems(m, "supported_fact_ids", str)
  {
    var keys := CLAIM_FACT_LIST_KEYS;
    assert keys[0] == "fact_ids" && keys[1] == "supports_fact_ids" && keys[2] == "supported_fact_ids" && |keys| == 3;
    ListsInOrder(m, keys, str);
    ShownItemsAre(m, "fact_ids", str);
    ShownItemsAre(m, "supports_fact_ids", str);
    ShownItemsAre(m, "supported_fact_ids", str);
  }

  lemma ListsInOrder(m: Fields, keys: seq<string>, str: Rendering)
    requires |keys| == 3
    ensures CanonicalListedUnder(m, keys, str)
         == CanonicalStrings(Items(Get(m, keys[0])), str) + CanonicalStrings(Items(Get(m, keys[1])), str)
            + CanonicalStrings(Items(Get(m, keys[2])), str)
  {
    assert keys[..2][..1] == keys[..1] && keys[..1][..0] == [];
    assert CanonicalListedUnder(m, keys[..1], str) == CanonicalStrings(Items(Get(m, keys[0])), str);
    assert CanonicalListedUnder(m, keys[..2], str)
        == CanonicalListedUnder(m, keys[..1], str) + CanonicalStrings(Items(Get(m, keys[1])), str);
  }

  // ---------- The handles of all children ----------

  /** The child lists an observed fact that reads as this fact, and that has or inherits this chunk. */
  ghost predicate CitedBy(r: ChildRecord, f: string, chunk: string, str: Rendering) {
    && "observed_facts" in r.output && r.output["observed_facts"].Arr? && f != ""
    && exists fact :: fact in r.output["observed_facts"].items && fact.Obj? && FactShown(fact.fields, str, f)
         && chunk == if ChunkShown(fact.fields, str) != "" then ChunkShown(fact.fields, str) else r.chunkId
  }

  lemma {:induction false} HandlesOfFactsMean(facts: seq<Value>, record: ChildRecord, str: Rendering, h: (string, string))
    ensures h in HandlesOfFacts(facts, record, str) <==> exists fact :: fact in facts && h in HandlesOfFact(fact, record, str)
  {
    if facts != [] {
      var front, last := facts[..|facts| - 1], facts[|facts| - 1];
      HandlesOfFactsMean(front, record, str, h);
      assert facts == front + [last];
    }
  }

  lemma HandleOfFactMeans(fact: Value, record: ChildRecord, str: Rendering, f: string, chunk: string)
    ensures (f, chunk) in HandlesOfFact(fact, record, str)
       <==> && fact.Obj? && f != "" && FactShown(fact.fields, str, f)
            && chunk == if ChunkShown(fact.fields, str) != "" then ChunkShown(fact.fields, str) else record.chunkId
  {
    if fact.Obj? {
      FactShownIs(fact.fields, str, f);
      ChunkShownIs(fact.fields, str);
    }
  }

  lemma RecordHandlesMean(r: ChildRecord, str: Rendering, f: string, chunk: string)
    ensures (f, chunk) in HandlesOfFacts(ObservedFacts(r), r, str) <==> CitedBy(r, f, chunk, str)
  {
    HandlesOfFactsMean(ObservedFacts(r), r, str, (f, chunk));
    forall fact ensures (f, chunk) in HandlesOfFact(fact, r, str)
       <==> && fact.Obj? && f != "" && FactShown(fact.fields, str, f)
            && chunk == if ChunkShown(fact.fields, str) != "" then ChunkShown(fact.fields, str) else r.chunkId
    {
      HandleOfFactMeans(fact, r, str, f, chunk);
    }
  }

  ghost predicate Cited(records: seq<ChildRecord>, f: string, chunk: string, str: Rendering) {
    exists r :: r in records && CitedBy(r, f, chunk, str)
  }

  lemma OneMoreChild(front: seq<ChildRecord>, last: ChildRecord, f: string, chunk: string, str: Rendering)
    ensures Cited(front + [last], f, chunk, str) <==> Cited(front, f, chunk, str) || CitedBy(last, f, chunk, str)
  {
    if CitedBy(last, f, chunk, str) {
      assert last in front + [last];
    }
  }

  /** A pair is among the children's handles exactly when some child cites it. */
  lemma {:induction false} HandlesMean(records: seq<ChildRecord>, str: Rendering, f: string, chunk: string)
    ensures (f, chunk) in HandlesOfChildren(records, str) <==> Cited(records, f, chunk, str)
  {
    if records != [] {
      var front, last := records[..|records| - 1], records[|records| - 1];
      HandlesMean(front, str, f, chunk);
      RecordHandlesMean(last, str, f, chunk);
      OneMoreChild(front, last, f, chunk, str);
      assert records == front + [last];
    }
  }

  // ---------- The repair handle ----------

  /** The entry with this index is the last of the fact that some child cites. */
  ghost predicate LastCited(manifest: seq<Evidence>, handles: ChildHandles, f: string, i: nat) {
    && i < |manifest| && manifest[i].factId == f && (f, manifest[i].chunkId) in handles
    && forall j :: i < j < |manifest| ==> !(manifest[j].factId == f && (f, manifest[j].chunkId) in handles)
  }

  lemma {:induction false} RepairHandleIsLast(manifest: seq<Evidence>, handles: ChildHandles, f: string, i: nat)
    requires LastCited(manifest, handles, f, i)
    ensures RepairHandle(manifest, handles, f) == Some(manifest[i].chunkId)
  {
    if i < |manifest| - 1 {
      RepairHandleIsLast(manifest[..|manifest| - 1], handles, f, i);
    }
  }

  lemma {:induction false} LastCitedExists(manifest: seq<Evidence>, handles: ChildHandles, f: string) returns (i: nat)
    requires RepairHandle(manifest, handles, f).Some?
    ensures LastCited(manifest, handles, f, i)
  {
    var n := |manifest| - 1;
    if manifest[n].factId == f && (f, manifest[n].chunkId) in handles {
      i := n;
    } else {
      i := LastCitedExists(manifest[..n], handles, f);
    }
  }

  /** A repair may use the chunk of the last manifest entry of the fact that some child cites, and nothing else. */
  lemma RepairHandleMeans(manifest: seq<Evidence>, handles: ChildHandles, f: string, h: string)
    ensures RepairHandle(manifest, handles, f) == Some(h)
       <==> exists i: nat :: LastCited(manifest, handles, f, i) && manifest[i].chunkId == h
  {
    if RepairHandle(manifest, handles, f) == Some(h) {
      var i := LastCitedExists(manifest, handles, f);
      RepairHandleIsLast(manifest, handles, f, i);
    }
    if i: nat :| LastCited(manifest, handles, f, i) && manifest[i].chunkId == h {
      RepairHandleIsLast(manifest, handles, f, i);
    }
  }

  // ---------- References ----------

  predicate StateIs(m: Fields, state: HandleState) {
    match state
    case Absent => "evidence_chunk_id" !in m
    case Nulled => "evidence_chunk_id" in m && m["evidence_chunk_id"] == Null
    case Invalid => "evidence_chunk_id" in m && m["evidence_chunk_id"] != Null
  }

  /** The reference records this mapping and one fact that it names without a chunk. */
  ghost predicate Records(r: Reference, c: Candidate, manifest: seq<Evidence>, handles: ChildHandles) {
    && r.loc == c.loc && r.surface == c.surface && r.claimText == StatedText(c.mapping)
    && NamesFact(c.mapping, r.factId) && Known(manifest, r.factId) && StatesChunk(c.mapping, None)
    && StateIs(c.mapping, r.state) && r.state != Invalid
    && (match r.handle
        case Some(h) => exists i: nat :: LastCited(manifest, handles, r.factId, i) && manifest[i].chunkId == h
        case None => forall i: nat :: !LastCited(manifest, handles, r.factId, i))
    && (exists e :: LastOfFact(manifest, e) && e.factId == r.factId && r.allowedManifest == Some(e.chunkId))
    && r.childHandles == (set h | h in handles && h.0 == r.factId :: h.1)
  }

  lemma HandleIs(manifest: seq<Evidence>, handles: ChildHandles, f: string, handle: Option<string>)
    ensures handle == RepairHandle(manifest, handles, f)
       <==> match handle
            case Some(h) => exists i: nat :: LastCited(manifest, handles, f, i) && manifest[i].chunkId == h
            case None => forall i: nat :: !LastCited(manifest, handles, f, i)
  {
    match handle
    case Some(h) => RepairHandleMeans(manifest, handles, f, h);
    case None =>
      if RepairHandle(manifest, handles, f).Some? {
        var i := LastCitedExists(manifest, handles, f);
      }
      forall i: nat | LastCited(manifest, handles, f, i) ensures RepairHandle(manifest, handles, f).Some? {
        RepairHandleIsLast(manifest, handles, f, i);
      }
  }

  lemma AllowedIs(manifest: seq<Evidence>, f: string, chunk: Option<string>)
    requires Known(manifest, f)
    ensures f in ByFact(manifest)
    ensures chunk == Some(ByFact(manifest)[f].chunkId)
       <==> exists e :: LastOfFact(manifest, e) && e.factId == f && chunk == Some(e.chunkId)
  {
    KnownIff(manifest, f);
    ByFactIsLast(manifest, ByFact(manifest)[f]);
    if e :| LastOfFact(manifest, e) && e.factId == f && chunk == Some(e.chunkId) {
      ByFactIsLast(manifest, e);
    }
  }

  lemma RecordsIff(r: Reference, c: Candidate, manifest: seq<Evidence>, handles: ChildHandles)
    ensures Records(r, c, manifest, handles) <==> Describes(r, c, manifest, handles)
  {
    TextIsStated(c.mapping);
    NamedIff(c.mapping, r.factId);
    KnownIff(manifest, r.factId);
    StatedChunkIsUnique(c.mapping, None);
    HandleIs(manifest, handles, r.factId, r.handle);
    if Known(manifest, r.factId) {
      AllowedIs(manifest, r.factId, r.allowedManifest);
    }
    assert StateIs(c.mapping, r.state) <==> StateOf(c.mapping) == r.state;
  }

  /** The references of a parent: one for every fact the manifest knows that a located mapping names without a chunk,
      its handle being absent or null. */
  lemma ReferencesMean(parent: Fields, manifest: seq<Evidence>, handles: ChildHandles, r: Reference)
    ensures r in References(parent, manifest, handles)
       <==> exists c :: c in Candidates(parent) && Records(r, c, manifest, handles)
  {
    if r in References(parent, manifest, handles) {
      var c := ReferenceDescribesCandidate(parent, manifest, handles, r);
      RecordsIff(r, c, manifest, handles);
    }
    if c :| c in Candidates(parent) && Records(r, c, manifest, handles) {
      RecordsIff(r, c, manifest, handles);
      CandidateHasReference(parent, manifest, handles, c, r.factId);
    }
  }
}
