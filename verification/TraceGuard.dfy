/** The evidence gate: which claims a parent synthesis makes, and which of them its manifest supports. */
module TraceGuard {
  import opened Options
  import opened Json
  import opened Text

  /** A child evidence handle accepted by the outer scaffold. */
  datatype Evidence = Evidence(factId: string, chunkId: string, text: string, childCallId: Option<string>)

  datatype Claim = Claim(factId: Option<string>, chunkId: Option<string>, surface: string, text: string)

  datatype Reason =
    | NoClaimBearingSurface
    | ChunkHandleWithoutFact
    | UnsupportedFactId
    | MissingEvidenceHandle
    | EvidenceHandleMismatch

  datatype Rejection = Rejection(reason: Reason, claim: Claim)

  datatype Verdict = Verdict(accepted: bool, acceptedClaims: seq<Claim>, rejectedClaims: seq<Rejection>,
                             allowedFactIds: seq<string>, allowedChunkIds: seq<string>)
  {
    /** Before rounding to four places. */
    function UnsupportedClaimRate(): real {
      var total := |acceptedClaims| + |rejectedClaims|;
      if total == 0 then 0.0 else |rejectedClaims| as real / total as real
    }
  }

  /** The `result` keys that carry claims, in the order they are read. */
  const SURFACE_KEYS: seq<string> :=
    ["retained_facts", "observed_facts", "facts", "retained_evidence", "observed_evidence"]

  // ---------- Claims of one mapping ----------

  function NonEmptyString(m: Fields, key: string): Option<string> {
    match Get(m, key)
    case Str(s) => if s != "" then Some(s) else None
    case _ => None
  }

  function Listed(o: Option<string>): seq<string> {
    if o.Some? then [o.value] else []
  }

  function NonEmptyStrings(items: seq<Value>): seq<string> {
    if items == [] then []
    else (if items[0].Str? && items[0].text != "" then [items[0].text] else []) + NonEmptyStrings(items[1..])
  }

  function ListedStrings(m: Fields, key: string): seq<string> {
    match Get(m, key)
    case Arr(items) => NonEmptyStrings(items)
    case _ => []
  }

  const CHUNK_KEYS: seq<string> := ["chunk_id", HANDLE_KEY, "source_chunk_id"]
  const CLAIM_FACT_KEYS: seq<string> := ["fact_id", "supports_fact_id"]
  const CLAIM_FACT_LIST_KEYS: seq<string> := ["fact_ids", "supports_fact_ids", "supported_fact_ids"]
  const CLAIM_TEXT_KEYS: seq<string> := ["quoted_evidence", "text", "statement", "claim", "summary"]

  /** The non-empty strings found under the keys, in key order. */
  function StringsUnder(m: Fields, keys: seq<string>): seq<string> {
    if keys == [] then []
    else StringsUnder(m, keys[..|keys| - 1]) + Listed(NonEmptyString(m, keys[|keys| - 1]))
  }

  /** The non-empty strings in the lists found under the keys, in key order. */
  function StringsListedUnder(m: Fields, keys: seq<string>): seq<string> {
    if keys == [] then []
    else StringsListedUnder(m, keys[..|keys| - 1]) + ListedStrings(m, keys[|keys| - 1])
  }

  function SupportedFactIds(m: Fields): seq<string> {
    Dedup(StringsUnder(m, CLAIM_FACT_KEYS) + StringsListedUnder(m, CLAIM_FACT_LIST_KEYS))
  }

  function ChunkId(m: Fields): Option<string> {
    if NonEmptyString(m, "chunk_id").Some? then NonEmptyString(m, "chunk_id")
    else if NonEmptyString(m, HANDLE_KEY).Some? then NonEmptyString(m, HANDLE_KEY)
    else NonEmptyString(m, "source_chunk_id")
  }

  function ClaimText(m: Fields): string {
    Join(StringsUnder(m, CLAIM_TEXT_KEYS), '\n')
  }

  function ClaimsFromMapping(m: Fields, surface: string): seq<Claim> {
    var facts := SupportedFactIds(m);
    if facts == [] && ChunkId(m).Some? then
      [Claim(None, ChunkId(m), surface, ClaimText(m))]
    else
      seq(|facts|, i requires 0 <= i < |facts| => Claim(Some(facts[i]), ChunkId(m), surface, ClaimText(m)))
  }

  lemma {:induction false} StringsUnderOnly(m: Fields, keys: seq<string>, i: nat)
    requires forall j :: 0 <= j < |keys| && j != i ==> keys[j] !in m
    ensures StringsUnder(m, keys) == if i < |keys| then Listed(NonEmptyString(m, keys[i])) else []
  {
    if keys != [] {
      StringsUnderOnly(m, keys[..|keys| - 1], i);
    }
  }

  lemma {:induction false} StringsListedUnderOnly(m: Fields, keys: seq<string>, i: nat)
    requires forall j :: 0 <= j < |keys| && j != i ==> keys[j] !in m
    ensures StringsListedUnder(m, keys) == if i < |keys| then ListedStrings(m, keys[i]) else []
  {
    if keys != [] {
      StringsListedUnderOnly(m, keys[..|keys| - 1], i);
    }
  }

  /** The mapping names facts under no key but `fact_id`. */
  ghost predicate OnlyFactIdKey(m: Fields) {
    CLAIM_FACT_KEYS[1] !in m && forall j :: 0 <= j < |CLAIM_FACT_LIST_KEYS| ==> CLAIM_FACT_LIST_KEYS[j] !in m
  }

  lemma SingleFactId(m: Fields)
    requires OnlyFactIdKey(m)
    ensures SupportedFactIds(m) == Listed(NonEmptyString(m, "fact_id"))
  {
    StringsUnderOnly(m, CLAIM_FACT_KEYS, 0);
    StringsListedUnderOnly(m, CLAIM_FACT_LIST_KEYS, |CLAIM_FACT_LIST_KEYS|);
    ListedOnce(NonEmptyString(m, CLAIM_FACT_KEYS[0]));
  }

  lemma ListedOnce(o: Option<string>)
    ensures Dedup(Listed(o) + []) == Listed(o)
  {
    assert Listed(o) + [] == Listed(o);
    DedupOne(Listed(o));
  }

  lemma OneFactOneClaim(m: Fields, id: string, chunkId: string, surface: string)
    requires SupportedFactIds(m) == [id] && ChunkId(m) == Some(chunkId)
    ensures ClaimsFromMapping(m, surface) == [Claim(Some(id), Some(chunkId), surface, ClaimText(m))]
  {
  }

  // ---------- Claims of a parent synthesis ----------

  function ClaimsFromItems(items: seq<Value>, surface: string): seq<Claim> {
    if items == [] then []
    else
      var last := items[|items| - 1];
      ClaimsFromItems(items[..|items| - 1], surface)
      + (if last.Obj? then ClaimsFromMapping(last.fields, surface) else [])
  }

  function ClaimsFromSurface(v: Value, surface: string): seq<Claim> {
    match v
    case Obj(m) => ClaimsFromMapping(m, surface)
    case Arr(items) => ClaimsFromItems(items, surface)
    case _ => []
  }

  function ClaimsFromKeys(result: Fields, keys: seq<string>): seq<Claim> {
    if keys == [] then []
    else
      var last := keys[|keys| - 1];
      ClaimsFromKeys(result, keys[..|keys| - 1]) + ClaimsFromSurface(Get(result, last), "result." + last)
  }

  function ClaimsFromResult(v: Value): seq<Claim> {
    match v
    case Obj(m) =>
      ClaimsFromKeys(m, SURFACE_KEYS)
      + (if Get(m, "fact_id").Str? then ClaimsFromSurface(v, "result") else [])
    case _ => []
  }

  function ParentClaims(parent: Fields): seq<Claim> {
    ClaimsFromResult(Get(parent, "result"))
    + ClaimsFromSurface(Get(parent, "evidence_references"), "evidence_references")
  }

  // ---------- The gate ----------

  /** The manifest as a dictionary: the last entry of a fact wins. */
  function ByFact(manifest: seq<Evidence>): (d: map<string, Evidence>)
    ensures forall f :: f in d ==> d[f] in manifest && d[f].factId == f
    ensures forall e :: e in manifest ==> e.factId in d
  {
    if manifest == [] then map[]
    else
      var last := manifest[|manifest| - 1];
      ByFact(manifest[..|manifest| - 1])[last.factId := last]
  }

  ghost predicate UniqueFacts(manifest: seq<Evidence>) {
    forall i, j :: 0 <= i < |manifest| && 0 <= j < |manifest| && manifest[i].factId == manifest[j].factId ==> i == j
  }

  /** The claim is supported: it names a manifest fact and cites exactly that fact's chunk. */
  predicate Supported(claim: Claim, allowed: map<string, Evidence>) {
    && claim.factId.Some?
    && claim.factId.value in allowed
    && claim.chunkId == Some(allowed[claim.factId.value].chunkId)
  }

  /** Why a claim is rejected, or None when it is accepted. */
  function Objection(claim: Claim, allowed: map<string, Evidence>): (r: Option<Reason>)
    ensures r.None? <==> Supported(claim, allowed)
  {
    if claim.factId.None? then Some(ChunkHandleWithoutFact)
    else if claim.factId.value !in allowed then Some(UnsupportedFactId)
    else if claim.chunkId.None? then Some(MissingEvidenceHandle)
    else if claim.chunkId.value != allowed[claim.factId.value].chunkId then Some(EvidenceHandleMismatch)
    else None
  }

  function AcceptedOf(claims: seq<Claim>, allowed: map<string, Evidence>): seq<Claim> {
    if claims == [] then []
    else AcceptedOf(claims[..|claims| - 1], allowed)
         + (if Supported(claims[|claims| - 1], allowed) then [claims[|claims| - 1]] else [])
  }

  function RejectedOf(claims: seq<Claim>, allowed: map<string, Evidence>): seq<Rejection> {
    if claims == [] then []
    else
      var last := claims[|claims| - 1];
      RejectedOf(claims[..|claims| - 1], allowed)
      + (match Objection(last, allowed) case Some(r) => [Rejection(r, last)] case None => [])
  }

  const SILENT_PARENT := Rejection(NoClaimBearingSurface, Claim(None, None, "parent_synthesis", ""))

  function AllRejections(claims: seq<Claim>, allowed: map<string, Evidence>): seq<Rejection> {
    if claims == [] then [SILENT_PARENT] else RejectedOf(claims, allowed)
  }

  function FactIds(manifest: seq<Evidence>): seq<string> {
    Dedup(seq(|manifest|, i requires 0 <= i < |manifest| => manifest[i].factId))
  }

  function ChunkIds(manifest: seq<Evidence>): seq<string> {
    Dedup(seq(|manifest|, i requires 0 <= i < |manifest| => manifest[i].chunkId))
  }

  function Validate(manifest: seq<Evidence>, parent: Fields): Verdict {
    var claims := ParentClaims(parent);
    var rejected := AllRejections(claims, ByFact(manifest));
    Verdict(rejected == [], AcceptedOf(claims, ByFact(manifest)), rejected, FactIds(manifest), ChunkIds(manifest))
  }

  // ---------- The source's loops, refining the definitions above ----------

  method CollectSupportedFactIds(m: Fields) returns (factIds: seq<string>)
    ensures factIds == SupportedFactIds(m)
  {
    var scalar := CollectStringsUnder(m, CLAIM_FACT_KEYS);
    var listed: seq<string> := [];
    var keys := CLAIM_FACT_LIST_KEYS;
    for k := 0 to |keys|
      invariant listed == StringsListedUnder(m, keys[..k])
    {
      assert keys[..k + 1][..k] == keys[..k];
      listed := listed + ListedStrings(m, keys[k]);
    }
    assert keys[..|keys|] == keys;
    factIds := Dedup(scalar + listed);
  }

  method CollectStringsUnder(m: Fields, keys: seq<string>) returns (strings: seq<string>)
    ensures strings == StringsUnder(m, keys)
  {
    strings := [];
    for k := 0 to |keys|
      invariant strings == StringsUnder(m, keys[..k])
    {
      assert keys[..k + 1][..k] == keys[..k];
      var item := Get(m, keys[k]);
      if item.Str? && item.text != "" {
        strings := strings + [item.text];
      }
    }
    assert keys[..|keys|] == keys;
  }

  method ExtractClaimsUnder(result: Fields, keys: seq<string>) returns (claims: seq<Claim>)
    ensures claims == ClaimsFromKeys(result, keys)
  {
    claims := [];
    for k := 0 to |keys|
      invariant claims == ClaimsFromKeys(result, keys[..k])
    {
      assert keys[..k + 1][..k] == keys[..k];
      claims := claims + ClaimsFromSurface(Get(result, keys[k]), "result." + keys[k]);
    }
    assert keys[..|keys|] == keys;
  }

  method ExtractParentClaims(parent: Fields) returns (claims: seq<Claim>)
    ensures claims == ParentClaims(parent)
  {
    claims := [];
    var result := Get(parent, "result");
    if result.Obj? {
      claims := ExtractClaimsUnder(result.fields, SURFACE_KEYS);
      if Get(result.fields, "fact_id").Str? {
        claims := claims + ClaimsFromSurface(result, "result");
      }
    }
    claims := claims + ClaimsFromSurface(Get(parent, "evidence_references"), "evidence_references");
  }

  lemma VerdictStep(claims: seq<Claim>, n: nat, allowed: map<string, Evidence>)
    requires n < |claims|
    ensures AcceptedOf(claims[..n + 1], allowed)
         == AcceptedOf(claims[..n], allowed) + if Supported(claims[n], allowed) then [claims[n]] else []
    ensures RejectedOf(claims[..n + 1], allowed) == RejectedOf(claims[..n], allowed)
            + match Objection(claims[n], allowed) case Some(r) => [Rejection(r, claims[n])] case None => []
  {
    assert claims[..n + 1][..n] == claims[..n];
  }

  method ValidateParentSynthesis(manifest: seq<Evidence>, parent: Fields) returns (verdict: Verdict)
    ensures verdict == Validate(manifest, parent)
  {
    var allowed := ByFact(manifest);
    var accepted: seq<Claim> := [];
    var rejected: seq<Rejection> := [];
    var claims := ExtractParentClaims(parent);
    if claims == [] {
      rejected := [SILENT_PARENT];
    }
    for n := 0 to |claims|
      invariant accepted == AcceptedOf(claims[..n], allowed)
      invariant rejected == if claims == [] then [SILENT_PARENT] else RejectedOf(claims[..n], allowed)
    {
      var claim := claims[n];
      VerdictStep(claims, n, allowed);
      if claim.factId.None? {
        rejected := rejected + [Rejection(ChunkHandleWithoutFact, claim)];
        continue;
      }
      if claim.factId.value !in allowed {
        rejected := rejected + [Rejection(UnsupportedFactId, claim)];
        continue;
      }
      var evidence := allowed[claim.factId.value];
      if claim.chunkId.None? {
        rejected := rejected + [Rejection(MissingEvidenceHandle, claim)];
        continue;
      }
      if claim.chunkId.value != evidence.chunkId {
        rejected := rejected + [Rejection(EvidenceHandleMismatch, claim)];
        continue;
      }
      accepted := accepted + [claim];
    }
    assert claims[..|claims|] == claims;
    verdict := Verdict(rejected == [], accepted, rejected, FactIds(manifest), ChunkIds(manifest));
  }

  // ---------- Properties of the gate ----------

  lemma {:induction false} RejectedIffObjected(claims: seq<Claim>, allowed: map<string, Evidence>, r: Rejection)
    ensures r in RejectedOf(claims, allowed) <==> r.claim in claims && Objection(r.claim, allowed) == Some(r.reason)
  {
    if claims != [] {
      RejectedIffObjected(claims[..|claims| - 1], allowed, r);
    }
  }

  lemma {:induction false} PartitionOfClaims(claims: seq<Claim>, allowed: map<string, Evidence>)
    ensures |AcceptedOf(claims, allowed)| + |RejectedOf(claims, allowed)| == |claims|
    ensures RejectedOf(claims, allowed) == [] <==> forall c :: c in claims ==> Supported(c, allowed)
  {
    if claims != [] {
      PartitionOfClaims(claims[..|claims| - 1], allowed);
      assert claims == claims[..|claims| - 1] + [claims[|claims| - 1]];
    }
  }

  /** The gate fails closed and accepts exactly the parents whose every claim cites its fact's chunk. */
  lemma AcceptanceIsSupport(manifest: seq<Evidence>, parent: Fields)
    ensures Validate(manifest, parent).accepted
      <==> ParentClaims(parent) != [] && forall c :: c in ParentClaims(parent) ==> Supported(c, ByFact(manifest))
  {
    PartitionOfClaims(ParentClaims(parent), ByFact(manifest));
  }

  lemma UniqueFactsByFact(manifest: seq<Evidence>, e: Evidence)
    requires UniqueFacts(manifest) && e in manifest
    ensures e.factId in ByFact(manifest) && ByFact(manifest)[e.factId] == e
  {
  }
}
