/** The scaffold gate in terms of the run's children and the fields of the parent's output. */
module ScaffoldMeaning {
  import opened Options
  import opened Json
  import opened Text
  import opened TraceGuard
  import opened ScaffoldGate
  import ClaimMeaning
  import ProtocolFidelity

  // ---------- What the parent cites ----------

  predicate CitesChild(m: Fields, id: string) {
    || ClaimMeaning.Holds(m, "child_result_id", id)
    || ClaimMeaning.ListHolds(m, "supported_by_child_result_ids", id)
    || ClaimMeaning.ListHolds(m, "supporting_child_result_ids", id)
    || ClaimMeaning.ListHolds(m, "child_result_ids", id)
  }

  /** A fact id is given directly, even an empty one. */
  predicate GivesFact(m: Fields) {
    ("fact_id" in m && m["fact_id"].Str?) || ("supports_fact_id" in m && m["supports_fact_id"].Str?)
  }

  /** The mapping is an item of the list under this key of the result. */
  predicate ItemAt(parent: Fields, key: string, i: nat, m: Fields) {
    At(Obj(parent), [Key("result"), Key(key), Index(i)]) == Some(Obj(m))
  }

  ghost predicate ListedAt(parent: Fields, key: string, m: Fields) {
    exists i: nat :: ItemAt(parent, key, i, m)
  }

  ghost predicate IsClaim(parent: Fields, m: Fields) {
    ListedAt(parent, "key_synthesized_claims", m) || ListedAt(parent, "accepted_claims", m) || ListedAt(parent, "claims", m)
  }

  ghost predicate IsDirectFact(parent: Fields, m: Fields) {
    && GivesFact(m)
    && (ListedAt(parent, "retained_facts", m) || ListedAt(parent, "observed_facts", m) || ListedAt(parent, "facts", m)
        || ListedAt(parent, "retained_evidence", m))
  }

  ghost predicate IsReference(parent: Fields, m: Fields) {
    exists i: nat :: At(Obj(parent), [Key("evidence_references"), Index(i)]) == Some(Obj(m))
  }

  predicate Blank(s: string) {
    forall i :: 0 <= i < |s| ==> IsSpace(s[i])
  }

  function TextUnder(m: Fields, key: string): string {
    if key in m && m[key].Str? && !Blank(m[key].text) then m[key].text else ""
  }

  /** The texts among six fields that are not blank, one per line. */
  function StatedText(m: Fields): string {
    ClaimMeaning.Lines([TextUnder(m, "claim"), TextUnder(m, "text"), TextUnder(m, "statement"), TextUnder(m, "supports"),
                        TextUnder(m, "evidence"), TextUnder(m, "summary")])
  }

  lemma CitedIff(m: Fields, id: string)
    ensures id in SupportedChildIds(m) <==> CitesChild(m, id)
  {
    ClaimMeaning.HoldsIff(m, "child_result_id", id);
    ClaimMeaning.ListedUnderIff(m, SUPPORTED_CHILD_KEYS, id);
    assert SUPPORTED_CHILD_KEYS[0] == "supported_by_child_result_ids"
        && SUPPORTED_CHILD_KEYS[1] == "supporting_child_result_ids" && SUPPORTED_CHILD_KEYS[2] == "child_result_ids";
  }

  lemma GivesFactIff(m: Fields)
    ensures ScaffoldGate.NamesFact(m) <==> GivesFact(m)
  {
  }

  lemma {:induction false} AmongObjects(items: seq<Value>, m: Fields)
    ensures m in ObjectsAmong(items) <==> exists i: nat :: i < |items| && items[i] == Obj(m)
  {
    if items != [] {
      AmongObjects(items[..|items| - 1], m);
    }
  }

  lemma AtItem(v: Value, i: nat)
    ensures At(v, [Index(i)]) == if v.Arr? && i < |v.items| then Some(v.items[i]) else None
  {
    assert [Index(i)][1..] == [];
  }

  lemma ItemUnderKey(m: Fields, key: string, i: nat)
    ensures At(Obj(m), [Key(key), Index(i)])
         == if key in m && m[key].Arr? && i < |m[key].items| then Some(m[key].items[i]) else None
  {
    assert [Key(key), Index(i)] == [Key(key)] + [Index(i)];
    ProtocolFidelity.AtKey(m, key, [Index(i)]);
    if key in m {
      AtItem(m[key], i);
    }
  }

  lemma ListedIff(parent: Fields, key: string, m: Fields)
    ensures m in ObjectsAmong(Items(Get(ResultOf(parent), key))) <==> ListedAt(parent, key, m)
  {
    AmongObjects(Items(Get(ResultOf(parent), key)), m);
    forall i: nat ensures ItemAt(parent, key, i, m)
      <==> i < |Items(Get(ResultOf(parent), key))| && Items(Get(ResultOf(parent), key))[i] == Obj(m) {
      assert [Key("result"), Key(key), Index(i)] == [Key("result")] + [Key(key), Index(i)];
      ProtocolFidelity.AtKey(parent, "result", [Key(key), Index(i)]);
      if "result" in parent && parent["result"].Obj? {
        ItemUnderKey(parent["result"].fields, key, i);
      }
    }
  }

  lemma ReferenceListedIff(parent: Fields, m: Fields)
    ensures m in ObjectsAmong(Items(Get(parent, "evidence_references"))) <==> IsReference(parent, m)
  {
    AmongObjects(Items(Get(parent, "evidence_references")), m);
    forall i: nat ensures At(Obj(parent), [Key("evidence_references"), Index(i)]) == Some(Obj(m))
      <==> i < |Items(Get(parent, "evidence_references"))| && Items(Get(parent, "evidence_references"))[i] == Obj(m) {
      ItemUnderKey(parent, "evidence_references", i);
    }
  }

  lemma {:induction false} UnderKeys(m: Fields, keys: seq<string>, x: Fields)
    ensures x in MappingsUnder(m, keys) <==> exists i :: 0 <= i < |keys| && x in ObjectsAmong(Items(Get(m, keys[i])))
  {
    if keys != [] {
      var n := |keys| - 1;
      UnderKeys(m, keys[..n], x);
      assert forall i :: 0 <= i < n ==> keys[..n][i] == keys[i];
    }
  }

  lemma ClaimIff(parent: Fields, m: Fields)
    ensures m in MappingsUnder(ResultOf(parent), CLAIM_KEYS) <==> IsClaim(parent, m)
  {
    UnderKeys(ResultOf(parent), CLAIM_KEYS, m);
    assert CLAIM_KEYS[0] == "key_synthesized_claims" && CLAIM_KEYS[1] == "accepted_claims" && CLAIM_KEYS[2] == "claims";
    ListedIff(parent, "key_synthesized_claims", m);
    ListedIff(parent, "accepted_claims", m);
    ListedIff(parent, "claims", m);
  }

  lemma {:induction false} DirectAre(ms: seq<Fields>, m: Fields)
    ensures m in DirectFacts(ms) <==> m in ms && GivesFact(m)
  {
    if ms != [] {
      DirectAre(ms[..|ms| - 1], m);
      assert ms == ms[..|ms| - 1] + [ms[|ms| - 1]];
    }
  }

  lemma FactIff(parent: Fields, m: Fields)
    ensures m in DirectFacts(MappingsUnder(ResultOf(parent), DIRECT_KEYS)) <==> IsDirectFact(parent, m)
  {
    DirectAre(MappingsUnder(ResultOf(parent), DIRECT_KEYS), m);
    FourLists(parent, m);
  }

  lemma FourKeys()
    ensures |DIRECT_KEYS| == 4 && DIRECT_KEYS[0] == "retained_facts" && DIRECT_KEYS[1] == "observed_facts"
    ensures DIRECT_KEYS[2] == "facts" && DIRECT_KEYS[3] == "retained_evidence"
  {
  }

  lemma FourLists(parent: Fields, m: Fields)
    ensures m in MappingsUnder(ResultOf(parent), DIRECT_KEYS)
       <==> ListedAt(parent, "retained_facts", m) || ListedAt(parent, "observed_facts", m) || ListedAt(parent, "facts", m)
            || ListedAt(parent, "retained_evidence", m)
  {
    UnderKeys(ResultOf(parent), DIRECT_KEYS, m);
    FourKeys();
    ListedIff(parent, "retained_facts", m);
    ListedIff(parent, "observed_facts", m);
    ListedIff(parent, "facts", m);
    ListedIff(parent, "retained_evidence", m);
  }

  lemma TextUnderIs(m: Fields, key: string)
    ensures TextUnder(m, key) == if Get(m, key).Str? && NotBlank(Get(m, key).text) then Get(m, key).text else ""
  {
    if Get(m, key).Str? {
      var s := Get(m, key).text;
      if NotBlank(s) {
        var c :| c in s && !IsSpace(c);
        var i :| 0 <= i < |s| && s[i] == c;
      }
      if !Blank(s) {
        var i :| 0 <= i < |s| && !IsSpace(s[i]);
        assert s[i] in s;
      }
    }
  }

  function TextsAt(m: Fields, keys: seq<string>): seq<string> {
    seq(|keys|, i requires 0 <= i < |keys| => TextUnder(m, keys[i]))
  }

  lemma {:induction false} TextsAre(m: Fields, keys: seq<string>)
    ensures TextsUnder(m, keys) == ClaimMeaning.NonEmpty(TextsAt(m, keys))
  {
    if keys != [] {
      var n := |keys| - 1;
      TextsAre(m, keys[..n]);
      TextUnderIs(m, keys[n]);
      assert TextsAt(m, keys)[..n] == TextsAt(m, keys[..n]);
    }
  }

  lemma TextIsStated(m: Fields)
    ensures CitedText(m) == StatedText(m)
  {
    TextsAre(m, TEXT_KEYS);
    ClaimMeaning.LinesAreJoined(TextsAt(m, TEXT_KEYS));
    SixTexts(m);
  }

  lemma SixTexts(m: Fields)
    ensures TextsAt(m, TEXT_KEYS)
         == [TextUnder(m, "claim"), TextUnder(m, "text"), TextUnder(m, "statement"), TextUnder(m, "supports"),
             TextUnder(m, "evidence"), TextUnder(m, "summary")]
  {
  }

  // ---------- The children ----------

  /** The id of a child: the node's id, a mark, and the order padded to three places. */
  predicate HasId(nodeId: string, c: Child, id: string) {
    nodeId != "" && c.order.Some? && id == nodeId + ":child_result:" + Padded(c.order.value)
  }

  lemma HasIdIff(nodeId: string, c: Child, id: string)
    ensures HasId(nodeId, c, id) <==> ChildId(nodeId, c) == Some(id)
  {
  }

  predicate AllZeros(s: string) {
    forall i :: 0 <= i < |s| ==> s[i] == '0'
  }

  lemma {:induction false} ZerosMean(n: int)
    ensures |Zeros(n)| == (if n > 0 then n else 0) && AllZeros(Zeros(n))
  {
    if n > 0 {
      ZerosMean(n - 1);
    }
  }

  /** Zeros, then the digits: as many characters as the width asks for, or as there are digits. */
  lemma DigitsMean(m: nat, width: int) returns (zeros: string)
    ensures Digits(m, width) == zeros + Decimal(m) && AllZeros(zeros)
    ensures |zeros| == if width > |Decimal(m)| then width - |Decimal(m)| else 0
  {
    zeros := Zeros(width - |Decimal(m)|);
    ZerosMean(width - |Decimal(m)|);
  }

  /** Orders are padded to three characters, the sign of a negative one included. */
  lemma PaddedMeans(n: int)
    ensures Padded(n) == if n >= 0 then Digits(n, 3) else "-" + Digits(-n, 2)
  {
  }

  /** The last child with this id. */
  ghost predicate LastWithId(state: ParentState, id: string, i: nat) {
    && i < |state.children| && HasId(state.nodeId, state.children[i], id)
    && forall j :: i < j < |state.children| ==> !HasId(state.nodeId, state.children[j], id)
  }

  /** The chunk a cited child id is held to: that of the last child with the id, or a text no child has as its chunk. */
  ghost predicate HeldTo(state: ParentState, id: string, chunk: string) {
    if exists i: nat :: LastWithId(state, id, i) && state.children[i].chunkId != ""
    then exists i: nat :: LastWithId(state, id, i) && state.children[i].chunkId == chunk
    else chunk == "missing://" + id
  }

  type Naming = Child -> Option<string>

  /** The dictionary of children under any naming: the last one of a name wins. */
  function LastNamed(children: seq<Child>, name: Naming): map<string, Child> {
    if children == [] then map[]
    else
      var before, last := LastNamed(children[..|children| - 1], name), children[|children| - 1];
      if name(last).Some? then before[name(last).value := last] else before
  }

  lemma {:induction false} RecordsAreLastNamed(nodeId: string, children: seq<Child>, name: Naming)
    requires forall c :: name(c) == ChildId(nodeId, c)
    ensures Records(nodeId, children) == LastNamed(children, name)
  {
    if children != [] {
      RecordsAreLastNamed(nodeId, children[..|children| - 1], name);
    }
  }

  ghost predicate LastOf(children: seq<Child>, name: Naming, id: string, i: nat) {
    i < |children| && name(children[i]) == Some(id) && forall j :: i < j < |children| ==> name(children[j]) != Some(id)
  }

  lemma {:induction false} LastNamedIs(children: seq<Child>, name: Naming, id: string, i: nat)
    requires LastOf(children, name, id, i)
    ensures id in LastNamed(children, name) && LastNamed(children, name)[id] == children[i]
  {
    if i < |children| - 1 {
      LastNamedIs(children[..|children| - 1], name, id, i);
    }
  }

  lemma {:induction false} LastExists(children: seq<Child>, name: Naming, id: string) returns (i: nat)
    requires id in LastNamed(children, name)
    ensures LastOf(children, name, id, i)
  {
    var n := |children| - 1;
    if name(children[n]) == Some(id) {
      i := n;
    } else {
      i := LastExists(children[..n], name, id);
    }
  }

  lemma LastWithIdIff(state: ParentState, name: Naming, id: string, i: nat)
    requires forall c :: name(c) == ChildId(state.nodeId, c)
    ensures LastWithId(state, id, i) <==> LastOf(state.children, name, id, i)
  {
    forall c ensures HasId(state.nodeId, c, id) <==> name(c) == Some(id) {
      HasIdIff(state.nodeId, c, id);
    }
  }

  lemma RecordIsLast(state: ParentState, id: string)
    ensures var records := Records(state.nodeId, state.children);
            && (forall i: nat :: LastWithId(state, id, i) ==> id in records && records[id] == state.children[i])
            && (id in records ==> exists i: nat :: LastWithId(state, id, i))
  {
    var name := (c: Child) => ChildId(state.nodeId, c);
    RecordsAreLastNamed(state.nodeId, state.children, name);
    forall i: nat | LastWithId(state, id, i)
      ensures id in LastNamed(state.children, name) && LastNamed(state.children, name)[id] == state.children[i]
    {
      LastWithIdIff(state, name, id, i);
      LastNamedIs(state.children, name, id, i);
    }
    if id in LastNamed(state.children, name) {
      var i := LastExists(state.children, name, id);
      LastWithIdIff(state, name, id, i);
    }
  }

  lemma HeldToIff(state: ParentState, id: string, chunk: string)
    ensures HeldTo(state, id, chunk) <==> chunk == ChunkFor(Records(state.nodeId, state.children), id)
  {
    RecordIsLast(state, id);
  }

  // ---------- The normalised parent ----------

  /** How a cited child is written for TraceGuard. */
  predicate WrittenFor(x: Fields, id: string, chunk: string, text: string) {
    x == map["chunk_id" := Str(chunk), "supports_fact_ids" := Arr([Str(id)]), "quoted_evidence" := Str(text)]
  }

  /** A claim cites a child: the reference names it, at the chunk it is held to. */
  ghost predicate FromClaim(state: ParentState, parent: Fields, x: Fields) {
    exists m, id, chunk ::
      IsClaim(parent, m) && CitesChild(m, id) && HeldTo(state, id, chunk) && WrittenFor(x, id, chunk, StatedText(m))
  }

  /** A reference names a child: at the chunk it states, or else at the one it is held to. */
  ghost predicate ToAChild(state: ParentState, m: Fields, x: Fields) {
    exists id, chunk ::
      && ClaimMeaning.Holds(m, "child_result_id", id)
      && (if ClaimMeaning.HoldsNone(m, "chunk_id") then HeldTo(state, id, chunk) else ClaimMeaning.Holds(m, "chunk_id", chunk))
      && WrittenFor(x, id, chunk, StatedText(m))
  }

  /** A reference as it is written: to a child, or as it is when it gives a fact and no child. */
  ghost predicate Rewritten(state: ParentState, m: Fields, x: Fields) {
    ToAChild(state, m, x) || (ClaimMeaning.HoldsNone(m, "child_result_id") && GivesFact(m) && x == m)
  }

  ghost predicate FromReference(state: ParentState, parent: Fields, x: Fields) {
    exists m :: IsReference(parent, m) && Rewritten(state, m, x)
  }

  function NormalizedOf(state: ParentState, parent: Fields): Normalized {
    Normalize(parent, Records(state.nodeId, state.children))
  }

  lemma WrittenForIff(x: Fields, id: string, chunk: string, text: string)
    ensures WrittenFor(x, id, chunk, text) <==> x == CiteFields(Cite(id, chunk, text))
  {
  }

  lemma {:induction false} CitesAre(claims: seq<Fields>, records: map<string, Child>, c: Cite)
    ensures c in CitesOfAll(claims, records)
       <==> CitedAmong(claims, records, c)
  {
    if claims != [] {
      var front, last := claims[..|claims| - 1], claims[|claims| - 1];
      CitesAre(front, records, c);
      CitesOfOne(last, records, c);
      OneMoreClaim(front, last, records, c);
      assert claims == front + [last];
    }
  }

  ghost predicate CitedAmong(claims: seq<Fields>, records: map<string, Child>, c: Cite) {
    exists m :: m in claims && CitedIn(m, records, c)
  }

  predicate CitedIn(m: Fields, records: map<string, Child>, c: Cite) {
    c.childId in SupportedChildIds(m) && c == Cite(c.childId, ChunkFor(records, c.childId), CitedText(m))
  }

  lemma OneMoreClaim(front: seq<Fields>, last: Fields, records: map<string, Child>, c: Cite)
    ensures CitedAmong(front + [last], records, c) <==> CitedAmong(front, records, c) || CitedIn(last, records, c)
  {
    if CitedIn(last, records, c) {
      assert last in front + [last];
    }
  }

  lemma CitesOfOne(m: Fields, records: map<string, Child>, c: Cite)
    ensures c in CitesOf(m, records) <==> CitedIn(m, records, c)
  {
    var ids := SupportedChildIds(m);
    if c.childId in ids {
      var i :| 0 <= i < |ids| && ids[i] == c.childId;
      assert CitesOf(m, records)[i] == Cite(ids[i], ChunkFor(records, ids[i]), CitedText(m));
    }
  }

  lemma FromClaimIff(state: ParentState, parent: Fields, x: Fields)
    ensures FromClaim(state, parent, x)
       <==> x in CitesAsFields(CitesOfAll(MappingsUnder(ResultOf(parent), CLAIM_KEYS), Records(state.nodeId, state.children)))
  {
    var records, claims := Records(state.nodeId, state.children), MappingsUnder(ResultOf(parent), CLAIM_KEYS);
    var cites := CitesOfAll(claims, records);
    if FromClaim(state, parent, x) {
      var m, id, chunk :|
        IsClaim(parent, m) && CitesChild(m, id) && HeldTo(state, id, chunk) && WrittenFor(x, id, chunk, StatedText(m));
      ClaimIsWritten(state, parent, m, id, chunk, x);
    }
    if x in CitesAsFields(cites) {
      var i :| 0 <= i < |cites| && CitesAsFields(cites)[i] == x;
      assert cites[i] in cites;
      CitesAre(claims, records, cites[i]);
      var m :| m in claims && CitedIn(m, records, cites[i]);
      WrittenIsClaim(state, parent, m, cites[i], x);
    }
  }

  lemma ClaimIsWritten(state: ParentState, parent: Fields, m: Fields, id: string, chunk: string, x: Fields)
    requires IsClaim(parent, m) && CitesChild(m, id) && HeldTo(state, id, chunk) && WrittenFor(x, id, chunk, StatedText(m))
    ensures x in CitesAsFields(CitesOfAll(MappingsUnder(ResultOf(parent), CLAIM_KEYS), Records(state.nodeId, state.children)))
  {
    var records, claims := Records(state.nodeId, state.children), MappingsUnder(ResultOf(parent), CLAIM_KEYS);
    var cites, c := CitesOfAll(claims, records), Cite(id, chunk, StatedText(m));
    ClaimIff(parent, m);
    CitedIff(m, id);
    HeldToIff(state, id, chunk);
    TextIsStated(m);
    CitesAre(claims, records, c);
    WrittenForIff(x, id, chunk, StatedText(m));
    var i :| 0 <= i < |cites| && cites[i] == c;
    assert CitesAsFields(cites)[i] == x;
  }

  lemma WrittenIsClaim(state: ParentState, parent: Fields, m: Fields, c: Cite, x: Fields)
    requires m in MappingsUnder(ResultOf(parent), CLAIM_KEYS) && c.childId in SupportedChildIds(m) && x == CiteFields(c)
    requires c == Cite(c.childId, ChunkFor(Records(state.nodeId, state.children), c.childId), CitedText(m))
    ensures FromClaim(state, parent, x)
  {
    ClaimIff(parent, m);
    CitedIff(m, c.childId);
    HeldToIff(state, c.childId, c.chunkId);
    TextIsStated(m);
    WrittenForIff(x, c.childId, c.chunkId, c.text);
  }

  lemma {:induction false} ReferencesAre(refs: seq<Fields>, records: map<string, Child>, x: Fields)
    ensures x in ReferenceFields(refs, records) <==> exists m :: m in refs && WrittenAs(m, records, x)
  {
    if refs != [] {
      var front, last := refs[..|refs| - 1], refs[|refs| - 1];
      ReferencesAre(front, records, x);
      LastReference(refs, records, x);
      assert refs == front + [last];
    }
  }

  lemma LastReference(refs: seq<Fields>, records: map<string, Child>, x: Fields)
    requires refs != []
    ensures x in ReferenceFields(refs, records)
       <==> x in ReferenceFields(refs[..|refs| - 1], records) || WrittenAs(refs[|refs| - 1], records, x)
  {
  }

  predicate WrittenAs(m: Fields, records: map<string, Child>, x: Fields) {
    match Classify(m, records)
    case ToChild(cite) => x == CiteFields(cite)
    case ToFact(fields) => x == fields
    case ToNothing => false
  }

  lemma RewrittenIff(state: ParentState, m: Fields, x: Fields)
    ensures Rewritten(state, m, x) <==> WrittenAs(m, Records(state.nodeId, state.children), x)
  {
    var records := Records(state.nodeId, state.children);
    GivesFactIff(m);
    TextIsStated(m);
    if NonEmptyString(m, "child_result_id").Some? {
      ToChildIff(state, m, NonEmptyString(m, "child_result_id").value, x);
    } else {
      NoChildNamed(state, m, x);
      assert Classify(m, records) == if GivesFact(m) then ToFact(m) else ToNothing;
    }
  }

  lemma NoChildNamed(state: ParentState, m: Fields, x: Fields)
    requires NonEmptyString(m, "child_result_id").None?
    ensures Rewritten(state, m, x) <==> GivesFact(m) && x == m
  {
    forall id ensures !ClaimMeaning.Holds(m, "child_result_id", id) {
      ClaimMeaning.HoldsIff(m, "child_result_id", id);
    }
    assert !ToAChild(state, m, x);
  }

  lemma ToChildIff(state: ParentState, m: Fields, id: string, x: Fields)
    requires NonEmptyString(m, "child_result_id") == Some(id)
    ensures var stated, records := NonEmptyString(m, "chunk_id"), Records(state.nodeId, state.children);
            Rewritten(state, m, x)
            <==> x == CiteFields(Cite(id, if stated.Some? then stated.value else ChunkFor(records, id), CitedText(m)))
  {
    var stated, records := NonEmptyString(m, "chunk_id"), Records(state.nodeId, state.children);
    var chunk := if stated.Some? then stated.value else ChunkFor(records, id);
    ClaimMeaning.HoldsIff(m, "child_result_id", id);
    forall other ensures ClaimMeaning.Holds(m, "child_result_id", other) <==> other == id {
      ClaimMeaning.HoldsIff(m, "child_result_id", other);
    }
    forall c ensures (ClaimMeaning.Holds(m, "chunk_id", c) <==> stated == Some(c))
                     && (HeldTo(state, id, c) <==> c == ChunkFor(records, id)) {
      ClaimMeaning.HoldsIff(m, "chunk_id", c);
      HeldToIff(state, id, c);
    }
    ClaimMeaning.HoldsIff(m, "chunk_id", chunk);
    TextIsStated(m);
    WrittenForIff(x, id, chunk, StatedText(m));
  }

  lemma FromReferenceIff(state: ParentState, parent: Fields, x: Fields)
    ensures FromReference(state, parent, x)
       <==> x in ReferenceFields(ObjectsAmong(Items(Get(parent, "evidence_references"))), Records(state.nodeId, state.children))
  {
    var refs, records := ObjectsAmong(Items(Get(parent, "evidence_references"))), Records(state.nodeId, state.children);
    ReferencesAre(refs, records, x);
    forall m ensures (m in refs <==> IsReference(parent, m)) && (Rewritten(state, m, x) <==> WrittenAs(m, records, x)) {
      ReferenceListedIff(parent, m);
      RewrittenIff(state, m, x);
    }
  }

  /** The normalised parent: the direct facts, and the references written for claims and for references. */
  lemma NormalizedMeans(state: ParentState, parent: Fields, x: Fields)
    ensures x in NormalizedOf(state, parent).retained <==> IsDirectFact(parent, x)
    ensures x in NormalizedOf(state, parent).references <==> FromClaim(state, parent, x) || FromReference(state, parent, x)
  {
    FactIff(parent, x);
    FromClaimIff(state, parent, x);
    FromReferenceIff(state, parent, x);
  }

  // ---------- The gate ----------

  /** Some child of the run has an id and a chunk. */
  ghost predicate HasEvidence(state: ParentState) {
    exists c :: c in state.children && state.nodeId != "" && c.order.Some? && c.chunkId != ""
  }

  lemma HasEvidenceIff(state: ParentState)
    ensures HasEvidence(state) <==> Manifest(state.nodeId, state.children) != []
  {
    var manifest := Manifest(state.nodeId, state.children);
    if manifest != [] {
      ManifestIsChildren(state.nodeId, state.children, manifest[0]);
    }
    if HasEvidence(state) {
      var c :| c in state.children && state.nodeId != "" && c.order.Some? && c.chunkId != "";
      ManifestIsChildren(state.nodeId, state.children, EvidenceOf(state.nodeId, c).value);
    }
  }

  /** The parent claims something: a claim is listed, a reference is written, or a fact is given directly. */
  ghost predicate ClaimsSomething(state: ParentState, parent: Fields) {
    (exists m :: IsClaim(parent, m)) || (exists x :: FromReference(state, parent, x)) || (exists m :: IsDirectFact(parent, m))
  }

  lemma SomeMember<T(!new)>(s: seq<T>)
    ensures |s| > 0 <==> exists x :: x in s
  {
    if s != [] {
      assert s[0] in s;
    }
  }

  lemma ClaimsSomethingIff(state: ParentState, parent: Fields)
    ensures ClaimsSomething(state, parent) <==> NormalizedOf(state, parent).claimCount > 0
  {
    var claims := MappingsUnder(ResultOf(parent), CLAIM_KEYS);
    var refs := ReferenceFields(ObjectsAmong(Items(Get(parent, "evidence_references"))), Records(state.nodeId, state.children));
    var facts := DirectFacts(MappingsUnder(ResultOf(parent), DIRECT_KEYS));
    SomeMember(claims);
    SomeMember(refs);
    SomeMember(facts);
    forall m ensures (m in claims <==> IsClaim(parent, m)) && (m in facts <==> IsDirectFact(parent, m))
                     && (m in refs <==> FromReference(state, parent, m)) {
      ClaimIff(parent, m);
      FactIff(parent, m);
      FromReferenceIff(state, parent, m);
    }
  }

  /** Every claim that a written mapping makes cites its fact's entry in the manifest. */
  ghost predicate AllCite(m: Fields, surface: string, manifest: seq<Evidence>) {
    forall c :: ClaimMeaning.ClaimOf(c, m, surface) ==> ClaimMeaning.Cites(c, manifest)
  }

  lemma AllCiteIff(m: Fields, surface: string, manifest: seq<Evidence>)
    ensures AllCite(m, surface, manifest) <==> MappingSupported(m, surface, ByFact(manifest))
  {
    ClaimMeaning.MappingClaims(m, surface);
    forall c ensures ClaimMeaning.Cites(c, manifest) <==> Supported(c, ByFact(manifest)) {
      ClaimMeaning.CitesIff(c, manifest);
    }
  }

  /** Some direct fact or written reference makes a claim. */
  ghost predicate MakesClaim(state: ParentState, parent: Fields) {
    || (exists m, c :: IsDirectFact(parent, m) && ClaimMeaning.ClaimOf(c, m, ClaimMeaning.SurfaceName(0)))
    || (exists x, c :: (FromClaim(state, parent, x) || FromReference(state, parent, x))
          && ClaimMeaning.ClaimOf(c, x, ClaimMeaning.SurfaceName(6)))
  }

  lemma SurfacesAre()
    ensures RETAINED_SURFACE == ClaimMeaning.SurfaceName(0) && REFERENCE_SURFACE == ClaimMeaning.SurfaceName(6)
  {
    ClaimMeaning.ResultKeys();
  }

  lemma ListMakes(ms: seq<Fields>, surface: string)
    ensures ClaimsFromItems(AsList(ms).items, surface) != [] <==> exists m, c :: m in ms && ClaimMeaning.ClaimOf(c, m, surface)
  {
    var claims := ClaimsFromItems(AsList(ms).items, surface);
    if claims != [] {
      ItemMakes(ms, surface, claims[0]);
    }
    if m, c :| m in ms && ClaimMeaning.ClaimOf(c, m, surface) {
      ItemMakes(ms, surface, c);
    }
  }

  lemma ItemMakes(ms: seq<Fields>, surface: string, c: Claim)
    ensures c in ClaimsFromItems(AsList(ms).items, surface) <==> exists m :: m in ms && ClaimMeaning.ClaimOf(c, m, surface)
  {
    ItemsClaims(ms, surface, c);
    forall m ensures c in ClaimsFromMapping(m, surface) <==> ClaimMeaning.ClaimOf(c, m, surface) {
      ClaimMeaning.MappingClaim(m, surface, c);
    }
  }

  lemma MakesClaimIff(state: ParentState, parent: Fields)
    ensures MakesClaim(state, parent) <==> HasClaim(NormalizedOf(state, parent))
  {
    var n := NormalizedOf(state, parent);
    SurfacesAre();
    ListMakes(n.retained, RETAINED_SURFACE);
    ListMakes(n.references, REFERENCE_SURFACE);
    forall x ensures (x in n.retained <==> IsDirectFact(parent, x))
                     && (x in n.references <==> FromClaim(state, parent, x) || FromReference(state, parent, x)) {
      NormalizedMeans(state, parent, x);
    }
  }

  lemma PartsCiteIff(state: ParentState, parent: Fields, manifest: seq<Evidence>)
    ensures PartsSupported(NormalizedOf(state, parent), ByFact(manifest))
       <==> && (forall m :: IsDirectFact(parent, m) ==> AllCite(m, ClaimMeaning.SurfaceName(0), manifest))
            && (forall x :: FromClaim(state, parent, x) || FromReference(state, parent, x) ==>
                  AllCite(x, ClaimMeaning.SurfaceName(6), manifest))
  {
    var n := NormalizedOf(state, parent);
    SurfacesAre();
    forall x ensures (x in n.retained <==> IsDirectFact(parent, x))
                     && (x in n.references <==> FromClaim(state, parent, x) || FromReference(state, parent, x)) {
      NormalizedMeans(state, parent, x);
    }
    forall m, surface ensures AllCite(m, surface, manifest) <==> MappingSupported(m, surface, ByFact(manifest)) {
      AllCiteIff(m, surface, manifest);
    }
  }

  /** The gate accepts exactly when there is evidence, something is claimed, and every claim cites its child's entry. */
  lemma GateAcceptsIff(state: ParentState, parent: Fields, summary: string)
    ensures Accepts(Judge(state, parent, summary))
       <==> && HasEvidence(state) && ClaimsSomething(state, parent) && MakesClaim(state, parent)
            && (forall m :: IsDirectFact(parent, m) ==>
                  AllCite(m, ClaimMeaning.SurfaceName(0), Manifest(state.nodeId, state.children)))
            && (forall x :: FromClaim(state, parent, x) || FromReference(state, parent, x) ==>
                  AllCite(x, ClaimMeaning.SurfaceName(6), Manifest(state.nodeId, state.children)))
  {
    AcceptedIffPartsSupported(state, parent, summary);
    HasEvidenceIff(state);
    ClaimsSomethingIff(state, parent);
    MakesClaimIff(state, parent);
    PartsCiteIff(state, parent, Manifest(state.nodeId, state.children));
  }

  /** When the gate refuses early, does not apply, or judges. */
  lemma GateOutcome(state: ParentState, parent: Fields, summary: string)
    ensures Judge(state, parent, summary) == RejectedEarly <==> !HasEvidence(state)
    ensures Judge(state, parent, summary) == NotApplicable <==> HasEvidence(state) && !ClaimsSomething(state, parent)
    ensures Judge(state, parent, summary).Judged? <==> HasEvidence(state) && ClaimsSomething(state, parent)
  {
    HasEvidenceIff(state);
    ClaimsSomethingIff(state, parent);
  }

  /** The entry is the evidence of this child: its id, chunk and text, and its call if it has one. */
  predicate EntryOf(nodeId: string, c: Child, e: Evidence) {
    && HasId(nodeId, c, e.factId) && c.chunkId != "" && e.chunkId == c.chunkId && e.text == c.text
    && e.childCallId == if c.callId == "" then None else Some(c.callId)
  }

  lemma EntryOfIff(nodeId: string, c: Child, e: Evidence)
    ensures EvidenceOf(nodeId, c) == Some(e) <==> EntryOf(nodeId, c, e)
  {
    HasIdIff(nodeId, c, e.factId);
  }

  /** The manifest's entries come in the order of the children they are the evidence of. */
  lemma {:induction false} ManifestInOrder(nodeId: string, children: seq<Child>) returns (positions: seq<nat>)
    ensures |positions| == |Manifest(nodeId, children)|
    ensures forall i, j :: 0 <= i < j < |positions| ==> positions[i] < positions[j]
    ensures forall i :: 0 <= i < |positions| ==>
              positions[i] < |children| && EntryOf(nodeId, children[positions[i]], Manifest(nodeId, children)[i])
  {
    if children == [] {
      positions := [];
    } else {
      var n := |children| - 1;
      positions := ManifestInOrder(nodeId, children[..n]);
      if EvidenceOf(nodeId, children[n]).Some? {
        EntryOfIff(nodeId, children[n], EvidenceOf(nodeId, children[n]).value);
        positions := positions + [n];
      }
    }
  }
}
