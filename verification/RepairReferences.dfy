/** Which rejected claims a handle patch could repair, where they sit, and which handles their repair may use. */
module RepairReferences {
  import opened Options
  import opened Json
  import opened Text
  import opened TraceGuard
  import opened ParentPaths

  // ---------- Child records ----------

  datatype ChildRecord = ChildRecord(callId: string, chunkId: string, output: Fields)

  /** How a non-string, non-null JSON value reads as text (`str(value)`). */
  type Rendering = Value -> string

  function CanonicalString(v: Value, str: Rendering): string {
    match v
    case Null => ""
    case Str(s) => s
    case _ => str(v)
  }

  function FirstNonEmpty(candidates: seq<string>): string {
    if candidates == [] then "" else if candidates[0] != "" then candidates[0] else FirstNonEmpty(candidates[1..])
  }

  function CanonicalStrings(items: seq<Value>, str: Rendering): seq<string> {
    seq(|items|, i requires 0 <= i < |items| => CanonicalString(items[i], str))
  }

  function CanonicalUnder(m: Fields, keys: seq<string>, str: Rendering): seq<string> {
    seq(|keys|, i requires 0 <= i < |keys| => CanonicalString(Get(m, keys[i]), str))
  }

  function CanonicalListedUnder(m: Fields, keys: seq<string>, str: Rendering): seq<string> {
    if keys == [] then []
    else CanonicalListedUnder(m, keys[..|keys| - 1], str) + CanonicalStrings(Items(Get(m, keys[|keys| - 1])), str)
  }

  function CanonicalFactId(m: Fields, str: Rendering): string {
    if SupportedFactIds(m) != [] then SupportedFactIds(m)[0]
    else FirstNonEmpty(CanonicalUnder(m, CLAIM_FACT_KEYS, str) + CanonicalListedUnder(m, CLAIM_FACT_LIST_KEYS, str))
  }

  function CanonicalChunkId(m: Fields, str: Rendering): string {
    FirstNonEmpty(CanonicalUnder(m, CHUNK_KEYS, str))
  }

  /** Pairs of a fact and a chunk some child cites for it. */
  type ChildHandles = set<(string, string)>

  /** The chunk of an observed fact; a fact that names none inherits its record's chunk. */
  function ObservedHandle(fact: Fields, record: ChildRecord, str: Rendering): (string, string) {
    var chunk := CanonicalChunkId(fact, str);
    (CanonicalFactId(fact, str), if chunk != "" then chunk else record.chunkId)
  }

  function ObservedFacts(record: ChildRecord): seq<Value> {
    match Get(record.output, "observed_facts")
    case Arr(items) => items
    case _ => []
  }

  function HandlesOfFact(fact: Value, record: ChildRecord, str: Rendering): ChildHandles {
    if fact.Obj? && ObservedHandle(fact.fields, record, str).0 != "" then {ObservedHandle(fact.fields, record, str)} else {}
  }

  function HandlesOfFacts(facts: seq<Value>, record: ChildRecord, str: Rendering): ChildHandles {
    if facts == [] then {}
    else
      var last := facts[|facts| - 1];
      HandlesOfFacts(facts[..|facts| - 1], record, str) + HandlesOfFact(last, record, str)
  }

  /** Every fact-chunk pair the child records observed. */
  function HandlesOfChildren(records: seq<ChildRecord>, str: Rendering): ChildHandles {
    if records == [] then {}
    else
      var last := records[|records| - 1];
      HandlesOfChildren(records[..|records| - 1], str) + HandlesOfFacts(ObservedFacts(last), last, str)
  }

  method ChildEvidenceHandlesByFact(records: seq<ChildRecord>, str: Rendering) returns (handles: ChildHandles)
    ensures handles == HandlesOfChildren(records, str)
  {
    handles := {};
    for n := 0 to |records|
      invariant handles == HandlesOfChildren(records[..n], str)
    {
      assert records[..n + 1][..n] == records[..n];
      var observed := CollectObservedHandles(records[n], str);
      handles := handles + observed;
    }
    assert records[..|records|] == records;
  }

  method CollectObservedHandles(record: ChildRecord, str: Rendering) returns (handles: ChildHandles)
    ensures handles == HandlesOfFacts(ObservedFacts(record), record, str)
  {
    handles := {};
    var facts := ObservedFacts(record);
    for k := 0 to |facts|
      invariant handles == HandlesOfFacts(facts[..k], record, str)
    {
      OneMoreHandle(facts, k, record, str);
      handles := handles + HandlesOfFact(facts[k], record, str);
    }
    assert facts[..|facts|] == facts;
  }

  lemma OneMoreHandle(facts: seq<Value>, k: nat, record: ChildRecord, str: Rendering)
    requires k < |facts|
    ensures HandlesOfFacts(facts[..k + 1], record, str)
         == HandlesOfFacts(facts[..k], record, str) + HandlesOfFact(facts[k], record, str)
  {
    assert facts[..k + 1][..k] == facts[..k];
  }

  /** The chunk of the last manifest entry of the fact that some child also cites for it. */
  function RepairHandle(manifest: seq<Evidence>, handles: ChildHandles, factId: string): (h: Option<string>)
    ensures h.Some? ==> (factId, h.value) in handles
    ensures h.Some? ==> exists e :: e in manifest && e.factId == factId && e.chunkId == h.value
    ensures h.None? ==> forall e :: e in manifest && e.factId == factId ==> (factId, e.chunkId) !in handles
  {
    if manifest == [] then None
    else
      var last := manifest[|manifest| - 1];
      if last.factId == factId && (factId, last.chunkId) in handles then Some(last.chunkId)
      else RepairHandle(manifest[..|manifest| - 1], handles, factId)
  }

  // ---------- References ----------

  datatype HandleState = Absent | Nulled | Invalid

  function StateOf(m: Fields): HandleState {
    if HANDLE_KEY !in m then Absent else if m[HANDLE_KEY].Null? then Nulled else Invalid
  }

  /** One repairable claim: `handle` is what a repair must write, `allowedManifest` what the gate will demand. */
  datatype Reference = Reference(loc: RefPath, surface: string, factId: string, claimText: string, state: HandleState,
                                 handle: Option<string>, allowedManifest: Option<string>, childHandles: set<string>)
  {
    function ParentPath(): string {
      PrintRefPath(loc)
    }
  }

  datatype ClaimKey = ClaimKey(factId: string, surface: string, text: string)

  function MissingClaims(rejected: seq<Rejection>): seq<Claim> {
    if rejected == [] then []
    else
      var last := rejected[|rejected| - 1];
      MissingClaims(rejected[..|rejected| - 1]) + (if last.reason == MissingEvidenceHandle then [last.claim] else [])
  }

  function MissingKeys(rejected: seq<Rejection>): set<ClaimKey> {
    set r | r in rejected && r.reason == MissingEvidenceHandle && r.claim.factId.Some?
      :: ClaimKey(r.claim.factId.value, r.claim.surface, r.claim.text)
  }

  function ReferenceTo(c: Candidate, factId: string, manifest: seq<Evidence>, handles: ChildHandles): Reference {
    Reference(c.loc, c.surface, factId, ClaimText(c.mapping), StateOf(c.mapping),
              RepairHandle(manifest, handles, factId),
              if factId in ByFact(manifest) then Some(ByFact(manifest)[factId].chunkId) else None,
              set h | h in handles && h.0 == factId :: h.1)
  }

  predicate Repairable(c: Candidate) {
    ChunkId(c.mapping).None? && !StateOf(c.mapping).Invalid?
  }

  function FactReferences(c: Candidate, facts: seq<string>, keys: set<ClaimKey>,
                          manifest: seq<Evidence>, handles: ChildHandles): seq<Reference> {
    if facts == [] then []
    else
      var f := facts[|facts| - 1];
      FactReferences(c, facts[..|facts| - 1], keys, manifest, handles)
      + (if ClaimKey(f, c.surface, ClaimText(c.mapping)) in keys then [ReferenceTo(c, f, manifest, handles)] else [])
  }

  function ReferencesOf(cs: seq<Candidate>, keys: set<ClaimKey>,
                        manifest: seq<Evidence>, handles: ChildHandles): seq<Reference> {
    if cs == [] then []
    else
      var c := cs[|cs| - 1];
      ReferencesOf(cs[..|cs| - 1], keys, manifest, handles)
      + (if Repairable(c) then FactReferences(c, SupportedFactIds(c.mapping), keys, manifest, handles) else [])
  }

  function Identify(parent: Fields, validation: Verdict, manifest: seq<Evidence>, handles: ChildHandles): seq<Reference> {
    ReferencesOf(Candidates(parent), MissingKeys(validation.rejectedClaims), manifest, handles)
  }

  /** The source's loop. Its seen-path guard never fires, because candidate paths are distinct. */
  method IdentifyMissingEvidenceHandleReferences(parent: Fields, validation: Verdict, manifest: seq<Evidence>,
                                                 records: seq<ChildRecord>, str: Rendering)
    returns (references: seq<Reference>)
    ensures references == Identify(parent, validation, manifest, HandlesOfChildren(records, str))
  {
    var keys := MissingKeys(validation.rejectedClaims);
    var handles := ChildEvidenceHandlesByFact(records, str);
    references := [];
    if keys == {} {
      NoKeysNoReferences(Candidates(parent), manifest, handles);
      return;
    }
    var cs := IterParentClaimReferenceMappings(parent);
    forall i, j | 0 <= i < j < |cs| ensures cs[i].ParentPath() != cs[j].ParentPath() {
      CandidatePathsRoundTrip(parent, i, j);
    }
    references := CollectReferences(cs, keys, manifest, handles);
  }

  method CollectReferences(cs: seq<Candidate>, keys: set<ClaimKey>, manifest: seq<Evidence>, handles: ChildHandles)
    returns (references: seq<Reference>)
    requires forall i, j :: 0 <= i < j < |cs| ==> cs[i].ParentPath() != cs[j].ParentPath()
    ensures references == ReferencesOf(cs, keys, manifest, handles)
  {
    references := [];
    var seen: set<(string, string)> := {};
    for n := 0 to |cs|
      invariant references == ReferencesOf(cs[..n], keys, manifest, handles)
      invariant forall s :: s in seen ==> exists i :: 0 <= i < n && cs[i].ParentPath() == s.0
    {
      var c := cs[n];
      assert cs[..n + 1][..n] == cs[..n];
      if Repairable(c) {
        var found, seen' := CollectFactReferences(c, keys, manifest, handles, seen);
        references, seen := references + found, seen';
      }
    }
    assert cs[..|cs|] == cs;
  }

  method CollectFactReferences(c: Candidate, keys: set<ClaimKey>, manifest: seq<Evidence>, handles: ChildHandles,
                               seen: set<(string, string)>)
    returns (references: seq<Reference>, seen': set<(string, string)>)
    requires forall s :: s in seen ==> s.0 != c.ParentPath()
    ensures references == FactReferences(c, SupportedFactIds(c.mapping), keys, manifest, handles)
    ensures forall s :: s in seen' ==> s in seen || s.0 == c.ParentPath()
  {
    references, seen' := [], seen;
    var facts := CollectSupportedFactIds(c.mapping);
    for k := 0 to |facts|
      invariant references == FactReferences(c, facts[..k], keys, manifest, handles)
      invariant forall s :: s in seen' ==> s in seen || (s.0 == c.ParentPath() && s.1 in facts[..k])
    {
      var f := facts[k];
      assert facts[..k + 1][..k] == facts[..k];
      if ClaimKey(f, c.surface, ClaimText(c.mapping)) in keys && (c.ParentPath(), f) !in seen' {
        seen' := seen' + {(c.ParentPath(), f)};
        references := references + [ReferenceTo(c, f, manifest, handles)];
      }
    }
    assert facts[..|facts|] == facts;
  }

  lemma {:induction false} NoKeysNoReferences(cs: seq<Candidate>, manifest: seq<Evidence>, handles: ChildHandles)
    ensures ReferencesOf(cs, {}, manifest, handles) == []
  {
    if cs != [] {
      NoKeysNoReferences(cs[..|cs| - 1], manifest, handles);
      NoKeysNoFactReferences(cs[|cs| - 1], SupportedFactIds(cs[|cs| - 1].mapping), manifest, handles);
    }
  }

  lemma {:induction false} NoKeysNoFactReferences(c: Candidate, facts: seq<string>, manifest: seq<Evidence>, handles: ChildHandles)
    ensures FactReferences(c, facts, {}, manifest, handles) == []
  {
    if facts != [] {
      NoKeysNoFactReferences(c, facts[..|facts| - 1], manifest, handles);
    }
  }
}
