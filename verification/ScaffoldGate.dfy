/** The adapter gate for scaffold runs: child results become the manifest, cited child ids become claims. */
module ScaffoldGate {
  import opened Options
  import opened Json
  import opened Text
  import opened TraceGuard

  // ---------- Child ids ----------

  function Zeros(n: int): string {
    if n <= 0 then "" else "0" + Zeros(n - 1)
  }

  /** `f"{n:03d}"`: padded with zeros to three characters, the sign included. */
  function Padded(n: int): string {
    if n >= 0 then Digits(n, 3) else "-" + Digits(-n, 2)
  }

  const CHILD_MARK: string := ":child_result:"

  lemma {:induction false} ZerosAreDigits(n: int, s: string)
    requires IsDecimal(s)
    ensures IsDecimal(Zeros(n) + s) && DecimalValue(Zeros(n) + s) == DecimalValue(s)
  {
    if n <= 0 {
      assert Zeros(n) + s == s;
    } else {
      ZerosAreDigits(n - 1, s);
      LeadingZero(Zeros(n - 1) + s);
      ConcatAssociates("0", Zeros(n - 1), s);
    }
  }

  lemma ZeroIsDigit(zero: string)
    requires zero == "0"
    ensures IsDecimal(zero) && DecimalValue(zero) == 0
  {
    DecimalRoundTrip(0);
    assert zero == Decimal(0);
  }

  lemma DigitsJoin(a: string, b: string)
    requires IsDecimal(a) && IsDecimal(b)
    ensures IsDecimal(a + b)
  {
  }

  lemma {:induction false} LeadingZero(s: string)
    requires IsDecimal(s)
    ensures IsDecimal("0" + s) && DecimalValue("0" + s) == DecimalValue(s)
  {
    var zero := "0";
    ZeroIsDigit(zero);
    DigitsJoin(zero, s);
    LeadingZeroValue(zero, s);
  }

  lemma {:induction false} LeadingZeroValue(zero: string, s: string)
    requires |zero| == 1 && IsDecimal(zero) && DecimalValue(zero) == 0 && IsDecimal(s) && IsDecimal(zero + s)
    ensures DecimalValue(zero + s) == DecimalValue(s)
  {
    var t := zero + s;
    var front := s[..|s| - 1];
    assert t[..|t| - 1] == zero + front && t[|t| - 1] == s[|s| - 1];
    if |s| == 1 {
      assert zero + front == zero;
    } else {
      assert IsDecimal(front);
      DigitsJoin(zero, front);
      LeadingZeroValue(zero, front);
    }
  }

  /** The digits of `m`, padded to a width. */
  function Digits(m: nat, width: int): string {
    Zeros(width - |Decimal(m)|) + Decimal(m)
  }

  lemma DigitsReadBack(m: nat, width: int)
    ensures IsDecimal(Digits(m, width)) && DecimalValue(Digits(m, width)) == m
  {
    DecimalRoundTrip(m);
    ZerosAreDigits(width - |Decimal(m)|, Decimal(m));
  }

  lemma SignedText(s: string)
    ensures ("-" + s)[1..] == s && !IsDecimal("-" + s)
  {
    assert ("-" + s)[0] == '-' && !IsDigit('-');
  }

  /** The padded text of an order determines it, at any magnitude and either sign. */
  lemma PaddedInjective(a: int, b: int)
    requires Padded(a) == Padded(b)
    ensures a == b
  {
    PaddedSign(a);
    PaddedSign(b);
    DigitsReadBack(if a >= 0 then a else -a, if a >= 0 then 3 else 2);
    DigitsReadBack(if b >= 0 then b else -b, if b >= 0 then 3 else 2);
  }

  lemma PaddedSign(n: int)
    ensures IsDecimal(Padded(n)) <==> n >= 0
    ensures n < 0 ==> Padded(n)[1..] == Digits(-n, 2)
    ensures n >= 0 ==> Padded(n) == Digits(n, 3)
  {
    if n >= 0 {
      DigitsReadBack(n, 3);
    } else {
      SignedText(Digits(-n, 2));
    }
  }

  /** A child result; an empty text stands for an absent one, None for an order that is not an integer. */
  datatype Child = Child(order: Option<int>, chunkId: string, callId: string, text: string)

  datatype ParentState = ParentState(nodeId: string, children: seq<Child>)

  function ChildId(nodeId: string, child: Child): Option<string> {
    if nodeId == "" || child.order.None? then None else Some(nodeId + CHILD_MARK + Padded(child.order.value))
  }

  /** Within a run, children with different orders have different ids. */
  lemma ChildIdsDistinct(nodeId: string, a: Child, b: Child)
    requires ChildId(nodeId, a).Some? && ChildId(nodeId, a) == ChildId(nodeId, b)
    ensures a.order == b.order
  {
    var p, x, y := nodeId + CHILD_MARK, Padded(a.order.value), Padded(b.order.value);
    assert (p + x)[|p|..] == x && (p + y)[|p|..] == y;
    PaddedInjective(a.order.value, b.order.value);
  }

  // ---------- The manifest and the records ----------

  function EvidenceOf(nodeId: string, child: Child): Option<Evidence> {
    if ChildId(nodeId, child).None? || child.chunkId == "" then None
    else Some(Evidence(ChildId(nodeId, child).value, child.chunkId, child.text,
                       if child.callId == "" then None else Some(child.callId)))
  }

  function Manifest(nodeId: string, children: seq<Child>): seq<Evidence> {
    if children == [] then []
    else
      var before, last := Manifest(nodeId, children[..|children| - 1]), EvidenceOf(nodeId, children[|children| - 1]);
      if last.Some? then before + [last.value] else before
  }

  /** The last child of each id. */
  function Records(nodeId: string, children: seq<Child>): map<string, Child> {
    if children == [] then map[]
    else
      var before, last := Records(nodeId, children[..|children| - 1]), children[|children| - 1];
      if ChildId(nodeId, last).Some? then before[ChildId(nodeId, last).value := last] else before
  }

  method ManifestFromParentState(state: ParentState) returns (manifest: seq<Evidence>)
    ensures manifest == Manifest(state.nodeId, state.children)
  {
    manifest := [];
    for k := 0 to |state.children|
      invariant manifest == Manifest(state.nodeId, state.children[..k])
    {
      assert state.children[..k + 1][..k] == state.children[..k];
      var e := EvidenceOf(state.nodeId, state.children[k]);
      if e.Some? {
        manifest := manifest + [e.value];
      }
    }
    assert state.children[..|state.children|] == state.children;
  }

  method ChildRecordsById(state: ParentState) returns (records: map<string, Child>)
    ensures records == Records(state.nodeId, state.children)
  {
    records := map[];
    for k := 0 to |state.children|
      invariant records == Records(state.nodeId, state.children[..k])
    {
      assert state.children[..k + 1][..k] == state.children[..k];
      var id := ChildId(state.nodeId, state.children[k]);
      if id.Some? {
        records := records[id.value := state.children[k]];
      }
    }
    assert state.children[..|state.children|] == state.children;
  }

  /** Every manifest entry is a child of the run with that id and chunk. */
  lemma {:induction false} ManifestIsChildren(nodeId: string, children: seq<Child>, e: Evidence)
    ensures e in Manifest(nodeId, children) <==> exists c :: c in children && EvidenceOf(nodeId, c) == Some(e)
  {
    if children != [] {
      var front, last := children[..|children| - 1], children[|children| - 1];
      ManifestIsChildren(nodeId, front, e);
      assert children == front + [last];
    }
  }

  // ---------- Normalising the parent ----------

  const CLAIM_KEYS: seq<string> := ["key_synthesized_claims", "accepted_claims", "claims"]
  const SUPPORTED_CHILD_KEYS: seq<string> :=
    ["supported_by_child_result_ids", "supporting_child_result_ids", "child_result_ids"]
  const DIRECT_KEYS: seq<string> := ["retained_facts", "observed_facts", "facts", "retained_evidence"]
  const TEXT_KEYS: seq<string> := ["claim", "text", "statement", "supports", "evidence", "summary"]

  function MappingsUnder(m: Fields, keys: seq<string>): seq<Fields> {
    if keys == [] then []
    else MappingsUnder(m, keys[..|keys| - 1]) + ObjectsAmong(Items(Get(m, keys[|keys| - 1])))
  }

  function SupportedChildIds(m: Fields): seq<string> {
    Dedup(Listed(NonEmptyString(m, "child_result_id")) + StringsListedUnder(m, SUPPORTED_CHILD_KEYS))
  }

  predicate NotBlank(s: string) {
    exists c :: c in s && !IsSpace(c)
  }

  function TextsUnder(m: Fields, keys: seq<string>): seq<string> {
    if keys == [] then []
    else
      var before, item := TextsUnder(m, keys[..|keys| - 1]), Get(m, keys[|keys| - 1]);
      if item.Str? && NotBlank(item.text) then before + [item.text] else before
  }

  function CitedText(m: Fields): string {
    Join(TextsUnder(m, TEXT_KEYS), '\n')
  }

  /** A child id the parent cites, with the chunk it is held to. */
  datatype Cite = Cite(childId: string, chunkId: string, text: string)

  function ChunkFor(records: map<string, Child>, id: string): (chunk: string)
    ensures chunk != ""
  {
    if id in records && records[id].chunkId != "" then records[id].chunkId else "missing://" + id
  }

  function CitesOf(claim: Fields, records: map<string, Child>): seq<Cite> {
    var ids := SupportedChildIds(claim);
    seq(|ids|, i requires 0 <= i < |ids| => Cite(ids[i], ChunkFor(records, ids[i]), CitedText(claim)))
  }

  function CitesOfAll(claims: seq<Fields>, records: map<string, Child>): seq<Cite> {
    if claims == [] then []
    else CitesOfAll(claims[..|claims| - 1], records) + CitesOf(claims[|claims| - 1], records)
  }

  predicate NamesFact(m: Fields) {
    Get(m, "fact_id").Str? || Get(m, "supports_fact_id").Str?
  }

  /** A parent reference: to a child result, to a fact directly, or to neither. */
  datatype RefKind = ToChild(cite: Cite) | ToFact(fields: Fields) | ToNothing

  function Classify(m: Fields, records: map<string, Child>): RefKind {
    var id, stated := NonEmptyString(m, "child_result_id"), NonEmptyString(m, "chunk_id");
    if id.Some? then
      ToChild(Cite(id.value, if stated.Some? then stated.value else ChunkFor(records, id.value), CitedText(m)))
    else if NamesFact(m) then ToFact(m)
    else ToNothing
  }

  /** The evidence reference a cite is written as. */
  function CiteFields(c: Cite): Fields {
    map["chunk_id" := Str(c.chunkId), "supports_fact_ids" := Arr([Str(c.childId)]), "quoted_evidence" := Str(c.text)]
  }

  function CitesAsFields(cites: seq<Cite>): seq<Fields> {
    seq(|cites|, i requires 0 <= i < |cites| => CiteFields(cites[i]))
  }

  function ReferenceFields(refs: seq<Fields>, records: map<string, Child>): seq<Fields> {
    if refs == [] then []
    else
      var before := ReferenceFields(refs[..|refs| - 1], records);
      match Classify(refs[|refs| - 1], records)
      case ToChild(cite) => before + [CiteFields(cite)]
      case ToFact(fields) => before + [fields]
      case ToNothing => before
  }

  function DirectFacts(ms: seq<Fields>): seq<Fields> {
    if ms == [] then []
    else
      var before, last := DirectFacts(ms[..|ms| - 1]), ms[|ms| - 1];
      if NamesFact(last) then before + [last] else before
  }

  function ResultOf(parent: Fields): Fields {
    match Get(parent, "result")
    case Obj(m) => m
    case _ => map[]
  }

  /** The parent in TraceGuard's terms, and how many claims it has. */
  datatype Normalized = Normalized(retained: seq<Fields>, references: seq<Fields>, claimCount: nat)

  function Normalize(parent: Fields, records: map<string, Child>): Normalized {
    var claims := MappingsUnder(ResultOf(parent), CLAIM_KEYS);
    var retained := DirectFacts(MappingsUnder(ResultOf(parent), DIRECT_KEYS));
    var references := ReferenceFields(ObjectsAmong(Items(Get(parent, "evidence_references"))), records);
    Normalized(retained, CitesAsFields(CitesOfAll(claims, records)) + references,
               |claims| + |references| + |retained|)
  }

  function AsList(ms: seq<Fields>): Value {
    Arr(seq(|ms|, i requires 0 <= i < |ms| => Obj(ms[i])))
  }

  function AsParent(n: Normalized, summary: string, verdict: Value, gaps: Value): Fields {
    map["mode" := Str("runtime_scaffold_parent_synthesis_traceguard_normalized"), "verdict" := verdict,
        "result" := Obj(map["summary" := Str(summary), "retained_facts" := AsList(n.retained)]),
        "evidence_references" := AsList(n.references), "residual_gaps" := gaps]
  }

  method NormalizeParentSynthesis(parent: Fields, records: map<string, Child>) returns (n: Normalized)
    ensures n == Normalize(parent, records)
  {
    var claims := MappingsUnder(ResultOf(parent), CLAIM_KEYS);
    var cites := CollectCites(claims, records);
    var references := NormalizeReferences(ObjectsAmong(Items(Get(parent, "evidence_references"))), records);
    var retained := DirectFacts(MappingsUnder(ResultOf(parent), DIRECT_KEYS));
    n := Normalized(retained, CitesAsFields(cites) + references, |claims| + |references| + |retained|);
  }

  method CollectCites(claims: seq<Fields>, records: map<string, Child>) returns (cites: seq<Cite>)
    ensures cites == CitesOfAll(claims, records)
  {
    cites := [];
    for k := 0 to |claims|
      invariant cites == CitesOfAll(claims[..k], records)
    {
      assert claims[..k + 1][..k] == claims[..k];
      cites := cites + CitesOf(claims[k], records);
    }
    assert claims[..|claims|] == claims;
  }

  method NormalizeReferences(refs: seq<Fields>, records: map<string, Child>) returns (references: seq<Fields>)
    ensures references == ReferenceFields(refs, records)
  {
    references := [];
    for k := 0 to |refs|
      invariant references == ReferenceFields(refs[..k], records)
    {
      assert refs[..k + 1][..k] == refs[..k];
      match Classify(refs[k], records) {
        case ToChild(cite) => references := references + [CiteFields(cite)];
        case ToFact(fields) => references := references + [fields];
        case ToNothing =>
      }
    }
    assert refs[..|refs|] == refs;
  }

  // ---------- The gate ----------

  datatype Gate = NotApplicable | RejectedEarly | Judged(verdict: Verdict)

  /** The parent output; None when it is not an object. */
  type Output = Option<Fields>

  function Judge(state: ParentState, parent: Fields, summary: string): Gate {
    var manifest := Manifest(state.nodeId, state.children);
    var n := Normalize(parent, Records(state.nodeId, state.children));
    if manifest == [] then RejectedEarly
    else if n.claimCount == 0 then NotApplicable
    else Judged(VerdictOn(manifest, n, parent, summary))
  }

  /** An absent list of gaps reads as an empty one. */
  function ResidualGaps(parent: Fields): Value {
    if "residual_gaps" in parent then parent["residual_gaps"] else Arr([])
  }

  function VerdictOn(manifest: seq<Evidence>, n: Normalized, parent: Fields, summary: string): Verdict {
    Validate(manifest, AsParent(n, summary, Get(parent, "verdict"), ResidualGaps(parent)))
  }

  predicate Accepts(g: Gate) {
    g.Judged? && g.verdict.accepted
  }

  /** A completed scaffold run: without an execution, without a parent synthesis, or with both. */
  datatype ScaffoldResult = NoExecution | NoParentState | Ran(state: ParentState, output: Output)

  function GateOf(result: ScaffoldResult, summary: string): Gate {
    match result
    case Ran(state, Some(parent)) => Judge(state, parent, summary)
    case Ran(_, None) => RejectedEarly
    case _ => NotApplicable
  }

  method ValidateRuntimeScaffoldResult(result: ScaffoldResult, summary: string) returns (gate: Gate)
    ensures gate == GateOf(result, summary)
  {
    if !result.Ran? {
      return NotApplicable;
    }
    var state, parent := result.state, result.output;
    if parent.None? {
      return RejectedEarly;
    }
    var manifest := ManifestFromParentState(state);
    if manifest == [] {
      return RejectedEarly;
    }
    var records := ChildRecordsById(state);
    var n := NormalizeParentSynthesis(parent.value, records);
    if n.claimCount == 0 {
      return NotApplicable;
    }
    var verdict := ValidateParentSynthesis(
      manifest, AsParent(n, summary, Get(parent.value, "verdict"), ResidualGaps(parent.value)));
    return Judged(verdict);
  }

  // ---------- What TraceGuard sees of the normalised parent ----------

  const RETAINED_SURFACE: string := "result." + SURFACE_KEYS[0]
  const REFERENCE_SURFACE: string := "evidence_references"

  lemma RetainedClaims(result: Fields, retained: Value)
    requires Get(result, "retained_facts") == retained
    requires forall k :: k in result ==> k == "summary" || k == "retained_facts"
    ensures ClaimsFromResult(Obj(result)) == ClaimsFromSurface(retained, RETAINED_SURFACE)
  {
    OnlyFirstKey(result, SURFACE_KEYS);
    var empty: seq<Claim> := [];
    assert ClaimsFromKeys(result, SURFACE_KEYS) + empty == ClaimsFromKeys(result, SURFACE_KEYS);
  }

  lemma {:induction false} OnlyFirstKey(result: Fields, keys: seq<string>)
    requires keys != [] && forall i :: 0 < i < |keys| ==> keys[i] !in result
    ensures ClaimsFromKeys(result, keys) == ClaimsFromSurface(Get(result, keys[0]), "result." + keys[0])
  {
    if |keys| == 1 {
      assert keys[..0] == [];
    } else {
      OnlyFirstKey(result, keys[..|keys| - 1]);
    }
  }

  lemma NormalizedClaims(n: Normalized, summary: string, verdict: Value, gaps: Value)
    ensures ParentClaims(AsParent(n, summary, verdict, gaps))
            == ClaimsFromItems(AsList(n.retained).items, RETAINED_SURFACE)
               + ClaimsFromItems(AsList(n.references).items, REFERENCE_SURFACE)
  {
    var result: Fields := map["summary" := Str(summary), "retained_facts" := AsList(n.retained)];
    RetainedClaims(result, AsList(n.retained));
    assert Get(AsParent(n, summary, verdict, gaps), "result") == Obj(result);
    assert Get(AsParent(n, summary, verdict, gaps), "evidence_references") == AsList(n.references);
  }

  ghost predicate MappingSupported(m: Fields, surface: string, allowed: map<string, Evidence>) {
    forall c :: c in ClaimsFromMapping(m, surface) ==> Supported(c, allowed)
  }

  lemma {:induction false} ItemsClaims(ms: seq<Fields>, surface: string, c: Claim)
    ensures c in ClaimsFromItems(AsList(ms).items, surface) <==> exists m :: m in ms && c in ClaimsFromMapping(m, surface)
  {
    if ms != [] {
      var front, last := ms[..|ms| - 1], ms[|ms| - 1];
      assert ms == front + [last];
      ListSnoc(front, last, surface);
      ItemsClaims(front, surface, c);
    }
  }

  lemma ListSnoc(ms: seq<Fields>, m: Fields, surface: string)
    ensures ClaimsFromItems(AsList(ms + [m]).items, surface)
            == ClaimsFromItems(AsList(ms).items, surface) + ClaimsFromMapping(m, surface)
  {
    assert AsList(ms + [m]).items == AsList(ms).items + [Obj(m)];
    assert AsList(ms + [m]).items[..|ms|] == AsList(ms).items;
  }

  lemma ItemsSupportedIff(ms: seq<Fields>, surface: string, allowed: map<string, Evidence>)
    ensures (forall c :: c in ClaimsFromItems(AsList(ms).items, surface) ==> Supported(c, allowed))
            <==> forall m :: m in ms ==> MappingSupported(m, surface, allowed)
  {
    forall c ensures c in ClaimsFromItems(AsList(ms).items, surface)
                     <==> exists m :: m in ms && c in ClaimsFromMapping(m, surface) {
      ItemsClaims(ms, surface, c);
    }
  }

  predicate CiteHolds(c: Cite, allowed: map<string, Evidence>) {
    c.childId in allowed && allowed[c.childId].chunkId == c.chunkId
  }

  /** A written cite carries exactly one claim: its child id with its chunk. */
  lemma CiteSupportedIff(c: Cite, allowed: map<string, Evidence>)
    requires c.childId != "" && c.chunkId != ""
    ensures MappingSupported(CiteFields(c), REFERENCE_SURFACE, allowed) <==> CiteHolds(c, allowed)
  {
    var m := CiteFields(c);
    CiteFactIds(m, c.childId);
    OneFactOneClaim(m, c.childId, c.chunkId, REFERENCE_SURFACE);
    assert Claim(Some(c.childId), Some(c.chunkId), REFERENCE_SURFACE, ClaimText(m)) in ClaimsFromMapping(m, REFERENCE_SURFACE);
  }

  lemma CiteFactIds(m: Fields, id: string)
    requires id != "" && Get(m, "supports_fact_ids") == Arr([Str(id)])
    requires forall k :: k in m ==> k == "chunk_id" || k == "supports_fact_ids" || k == "quoted_evidence"
    ensures SupportedFactIds(m) == [id]
  {
    StringsUnderOnly(m, CLAIM_FACT_KEYS, |CLAIM_FACT_KEYS|);
    CiteListedIds(m, id);
    var none: seq<string> := [];
    assert none + [id] == [id];
    DedupOne([id]);
  }

  lemma CiteListedIds(m: Fields, id: string)
    requires id != "" && Get(m, "supports_fact_ids") == Arr([Str(id)])
    requires forall k :: k in m ==> k == "chunk_id" || k == "supports_fact_ids" || k == "quoted_evidence"
    ensures StringsListedUnder(m, CLAIM_FACT_LIST_KEYS) == [id]
  {
    StringsListedUnderOnly(m, CLAIM_FACT_LIST_KEYS, 1);
    assert CLAIM_FACT_LIST_KEYS[1] == "supports_fact_ids";
    OneString(id);
  }

  lemma OneString(id: string)
    requires id != ""
    ensures NonEmptyStrings([Str(id)]) == [id]
  {
    assert [Str(id)][1..] == [];
  }

  // ---------- Main results ----------

  ghost predicate PartsSupported(n: Normalized, allowed: map<string, Evidence>) {
    && (forall m :: m in n.retained ==> MappingSupported(m, RETAINED_SURFACE, allowed))
    && (forall m :: m in n.references ==> MappingSupported(m, REFERENCE_SURFACE, allowed))
  }

  lemma PartsSupportedIff(n: Normalized, allowed: map<string, Evidence>)
    ensures var claims := ClaimsFromItems(AsList(n.retained).items, RETAINED_SURFACE)
                          + ClaimsFromItems(AsList(n.references).items, REFERENCE_SURFACE);
            (forall c :: c in claims ==> Supported(c, allowed)) <==> PartsSupported(n, allowed)
  {
    ItemsSupportedIff(n.retained, RETAINED_SURFACE, allowed);
    ItemsSupportedIff(n.references, REFERENCE_SURFACE, allowed);
  }

  lemma NormalizedAccepted(manifest: seq<Evidence>, n: Normalized, parent: Fields, summary: string)
    ensures VerdictOn(manifest, n, parent, summary).accepted <==> HasClaim(n) && PartsSupported(n, ByFact(manifest))
  {
    var verdict, gaps := Get(parent, "verdict"), ResidualGaps(parent);
    NormalizedClaims(n, summary, verdict, gaps);
    AcceptanceIsSupport(manifest, AsParent(n, summary, verdict, gaps));
    PartsSupportedIff(n, ByFact(manifest));
  }

  lemma JudgeAccepts(state: ParentState, parent: Fields, summary: string, manifest: seq<Evidence>, n: Normalized)
    requires manifest == Manifest(state.nodeId, state.children)
    requires n == Normalize(parent, Records(state.nodeId, state.children))
    ensures Accepts(Judge(state, parent, summary))
            <==> manifest != [] && n.claimCount > 0 && VerdictOn(manifest, n, parent, summary).accepted
  {
  }

  /** The gate accepts exactly when there is evidence and a claim, and every direct fact and every cite is supported. */
  lemma AcceptedIffPartsSupported(state: ParentState, parent: Fields, summary: string)
    ensures var manifest, n := Manifest(state.nodeId, state.children), Normalize(parent, Records(state.nodeId, state.children));
            Accepts(Judge(state, parent, summary))
            <==> manifest != [] && n.claimCount > 0 && HasClaim(n) && PartsSupported(n, ByFact(manifest))
  {
    var manifest, n := Manifest(state.nodeId, state.children), Normalize(parent, Records(state.nodeId, state.children));
    JudgeAccepts(state, parent, summary, manifest, n);
    NormalizedAccepted(manifest, n, parent, summary);
  }

  ghost predicate HasClaim(n: Normalized) {
    || ClaimsFromItems(AsList(n.retained).items, RETAINED_SURFACE) != []
    || ClaimsFromItems(AsList(n.references).items, REFERENCE_SURFACE) != []
  }

  lemma SupportedIdsNonEmpty(m: Fields, id: string)
    requires id in SupportedChildIds(m)
    ensures id != ""
  {
    NonEmptyListed(m, SUPPORTED_CHILD_KEYS);
  }

  lemma {:induction false} NonEmptyListed(m: Fields, keys: seq<string>)
    ensures "" !in StringsListedUnder(m, keys)
  {
    if keys != [] {
      NonEmptyListed(m, keys[..|keys| - 1]);
      var v := Get(m, keys[|keys| - 1]);
      if v.Arr? {
        NonEmptyFound(v.items);
      }
    }
  }

  lemma {:induction false} NonEmptyFound(items: seq<Value>)
    ensures "" !in NonEmptyStrings(items)
  {
    if items != [] {
      NonEmptyFound(items[1..]);
    }
  }

  lemma {:induction false} CitesOfAllMember(claims: seq<Fields>, records: map<string, Child>, claim: Fields, id: string)
    requires claim in claims && id in SupportedChildIds(claim)
    ensures Cite(id, ChunkFor(records, id), CitedText(claim)) in CitesOfAll(claims, records)
  {
    var front, last := claims[..|claims| - 1], claims[|claims| - 1];
    if claim == last {
      var ids := SupportedChildIds(claim);
      var i :| 0 <= i < |ids| && ids[i] == id;
      assert CitesOf(claim, records)[i] == Cite(id, ChunkFor(records, id), CitedText(claim));
    } else {
      var i :| 0 <= i < |claims| && claims[i] == claim;
      assert front[i] == claim;
      CitesOfAllMember(front, records, claim, id);
    }
  }

  lemma {:induction false} ReferenceMember(refs: seq<Fields>, records: map<string, Child>, m: Fields)
    requires m in refs && Classify(m, records).ToChild?
    ensures CiteFields(Classify(m, records).cite) in ReferenceFields(refs, records)
  {
    var front, last := refs[..|refs| - 1], refs[|refs| - 1];
    if m != last {
      var i :| 0 <= i < |refs| && refs[i] == m;
      assert front[i] == m;
      ReferenceMember(front, records, m);
    }
  }

  /** The manifest's entry for the id has the chunk, and so has a child of this run with that id. */
  ghost predicate NamesChild(state: ParentState, id: string, chunkId: string) {
    var allowed := ByFact(Manifest(state.nodeId, state.children));
    && chunkId != ""
    && id in allowed && allowed[id].chunkId == chunkId
    && exists c :: c in state.children && ChildId(state.nodeId, c) == Some(id) && c.chunkId == chunkId
  }

  lemma CiteNamesChild(state: ParentState, c: Cite)
    requires CiteHolds(c, ByFact(Manifest(state.nodeId, state.children)))
    ensures NamesChild(state, c.childId, c.chunkId)
  {
    var manifest := Manifest(state.nodeId, state.children);
    ManifestIsChildren(state.nodeId, state.children, ByFact(manifest)[c.childId]);
  }

  lemma SupportedCiteNamesChild(state: ParentState, n: Normalized, cite: Cite)
    requires PartsSupported(n, ByFact(Manifest(state.nodeId, state.children)))
    requires CiteFields(cite) in n.references && cite.childId != "" && cite.chunkId != ""
    ensures NamesChild(state, cite.childId, cite.chunkId)
  {
    CiteSupportedIff(cite, ByFact(Manifest(state.nodeId, state.children)));
    CiteNamesChild(state, cite);
  }

  lemma ClaimCiteIsReference(parent: Fields, records: map<string, Child>, claim: Fields, id: string)
    requires claim in MappingsUnder(ResultOf(parent), CLAIM_KEYS) && id in SupportedChildIds(claim)
    ensures CiteFields(Cite(id, ChunkFor(records, id), CitedText(claim))) in Normalize(parent, records).references
  {
    var cites := CitesOfAll(MappingsUnder(ResultOf(parent), CLAIM_KEYS), records);
    CitesOfAllMember(MappingsUnder(ResultOf(parent), CLAIM_KEYS), records, claim, id);
    var i :| 0 <= i < |cites| && cites[i] == Cite(id, ChunkFor(records, id), CitedText(claim));
    assert CitesAsFields(cites)[i] in CitesAsFields(cites);
  }

  /** An accepted gate: each child id a claim cites names a child of the run, at the chunk the claim is held to. */
  lemma AcceptedClaimsCiteChildren(state: ParentState, parent: Fields, summary: string, claim: Fields, id: string)
    requires Accepts(Judge(state, parent, summary))
    requires claim in MappingsUnder(ResultOf(parent), CLAIM_KEYS) && id in SupportedChildIds(claim)
    ensures NamesChild(state, id, ChunkFor(Records(state.nodeId, state.children), id))
  {
    var records := Records(state.nodeId, state.children);
    AcceptedIffPartsSupported(state, parent, summary);
    SupportedIdsNonEmpty(claim, id);
    ClaimCiteIsReference(parent, records, claim, id);
    SupportedCiteNamesChild(state, Normalize(parent, records), Cite(id, ChunkFor(records, id), CitedText(claim)));
  }

  /** The same for evidence references; a chunk that a reference states is the chunk of the child it names. */
  lemma AcceptedReferencesCiteChildren(state: ParentState, parent: Fields, summary: string, m: Fields)
    requires Accepts(Judge(state, parent, summary))
    requires m in ObjectsAmong(Items(Get(parent, "evidence_references"))) && NonEmptyString(m, "child_result_id").Some?
    ensures var id, stated := NonEmptyString(m, "child_result_id").value, NonEmptyString(m, "chunk_id");
            NamesChild(state, id, if stated.Some? then stated.value else ChunkFor(Records(state.nodeId, state.children), id))
  {
    var records := Records(state.nodeId, state.children);
    var cite := Classify(m, records).cite;
    AcceptedIffPartsSupported(state, parent, summary);
    ReferenceMember(ObjectsAmong(Items(Get(parent, "evidence_references"))), records, m);
    SupportedCiteNamesChild(state, Normalize(parent, records), cite);
  }
}
