/** Two concrete kinds of cell: one that passes, and one whose repair offers a handle that the gate refuses. */
module CellWitnesses {
  import opened Options
  import opened Json
  import opened Text
  import opened Ordering
  import opened TraceGuard
  import opened ParentPaths
  import opened RepairReferences
  import opened RepairPatch
  import opened RepairSafety
  import opened RepairCompleteness
  import opened RepairOutcome
  import opened RepairBlocks
  import opened FreshEvidence
  import EvidenceText
  import opened LiveCell
  import opened CommitSoundness

  // ---------- Fixtures and answers ----------

  function ExpectedFact(f: string, chunk: string, text: string): Value {
    Obj(map["fact_id" := Str(f), "chunk_id" := Str(chunk), "text" := Str(text)])
  }

  /** An observed fact that states its chunk as its evidence handle. */
  function ShownFact(f: string, chunk: string, text: string): Value {
    Obj(map["fact_id" := Str(f), HANDLE_KEY := Str(chunk), "text" := Str(text)])
  }

  /** An observed fact that states one chunk as its evidence handle and another as its chunk. */
  function TwoChunkFact(f: string, handle: string, chunk: string, text: string): Value {
    Obj(map["fact_id" := Str(f), HANDLE_KEY := Str(handle), "chunk_id" := Str(chunk), "text" := Str(text)])
  }

  function ChildOutputOf(facts: seq<Value>): Fields {
    map["observed_facts" := Arr(facts)]
  }

  /** A fixture with a single chunk. */
  function OneChunkFixture(chunk: string, facts: seq<Value>): Fixture {
    Fixture("fixture", [chunk], [chunk], facts)
  }

  function OneRecord(chunk: string, familyId: string, facts: seq<Value>): seq<ChildRecord> {
    [ChildRecord(CallId("fixture", familyId, 1), chunk, ChildOutputOf(facts))]
  }

  /** A cell over such a fixture is decided by what its one child and its parent answer. */
  lemma OneChunkCell(chunk: string, expected: seq<Value>, facts: seq<Value>, familyId: string, script: Script, str: Rendering)
    requires script(0) == Output(ChildOutputOf(facts)) && script(1).Output?
    ensures RunCell(OneChunkFixture(chunk, expected), familyId, script, str)
         == ConcludedBy(Gather(OneChunkFixture(chunk, expected), OneRecord(chunk, familyId, facts), script(1).fields, str),
                        script, 2)
  {
    var fixture := OneChunkFixture(chunk, expected);
    OneSelected(fixture.chunkIds);
    assert Uninterrupted(script, 0) == 0;
    assert Uninterrupted(script, 1) == 1;
    assert Records(fixture, familyId, script, 1) == OneRecord(chunk, familyId, facts);
  }

  lemma OneSelected(chunkIds: seq<string>)
    requires |chunkIds| == 1
    ensures SelectedAmong(chunkIds, chunkIds) == chunkIds
  {
    assert chunkIds[0] in chunkIds && chunkIds[..0] == [];
    assert SelectedAmong(chunkIds[..0], chunkIds) == [];
  }

  lemma OneChunkCoverage(chunk: string, expected: seq<Value>, familyId: string, facts: seq<Value>)
    ensures Coverage(OneChunkFixture(chunk, expected), OneRecord(chunk, familyId, facts))
  {
    var records := OneRecord(chunk, familyId, facts);
    assert records[0] in records;
    assert (set c | c in [chunk]) == {chunk};
    assert (set r | r in records :: r.chunkId) == {chunk};
  }

  // ---------- Evidence ----------

  lemma ShowsItsKey(f: string, chunk: string, text: string, fact: Value, allowed: map<HandleKey, Evidence>)
    requires fact == ShownFact(f, chunk, text) || exists c :: fact == TwoChunkFact(f, chunk, c, text)
    requires (f, chunk) in allowed && allowed[(f, chunk)].text == text && Normalized(text) != ""
    ensures Shows(fact, (f, chunk), allowed)
  {
    assert Stated(fact) == Some(((f, chunk), text));
  }

  lemma ObservedInRecord(chunk: string, familyId: string, facts: seq<Value>, fact: Value, key: HandleKey,
                         allowed: map<HandleKey, Evidence>)
    requires fact in facts && Shows(fact, key, allowed)
    ensures Observed(OneRecord(chunk, familyId, facts), key, allowed)
  {
    var record := OneRecord(chunk, familyId, facts)[0];
    assert record in OneRecord(chunk, familyId, facts) && ObservedFacts(record) == facts;
  }

  function FixtureEvidence(f: string, chunk: string, text: string, n: nat): Evidence {
    Evidence(f, chunk, text, Some("child_" + FourDigits(n)))
  }

  lemma ManifestOfOne(chunk: string, f: string, text: string)
    ensures FixtureManifest(OneChunkFixture(chunk, [ExpectedFact(f, chunk, text)])) == [FixtureEvidence(f, chunk, text, 1)]
  {
    var facts := [ExpectedFact(f, chunk, text)];
    assert EvidenceOfFacts(facts, 0) == [];
    assert EvidenceOfFacts(facts, 1) == [] + [FixtureEvidence(f, chunk, text, 1)];
  }

  lemma ManifestOfTwo(chunk: string, f: string, a: string, b: string, text: string)
    ensures FixtureManifest(OneChunkFixture(chunk, [ExpectedFact(f, a, text), ExpectedFact(f, b, text)]))
         == [FixtureEvidence(f, a, text, 1), FixtureEvidence(f, b, text, 2)]
  {
    var facts := [ExpectedFact(f, a, text), ExpectedFact(f, b, text)];
    assert EvidenceOfFacts(facts, 0) == [];
    assert EvidenceOfFacts(facts, 1) == [] + [FixtureEvidence(f, a, text, 1)];
    assert EvidenceOfFacts(facts, 2) == EvidenceOfFacts(facts, 1) + [FixtureEvidence(f, b, text, 2)];
  }

  /** Dictionary of a list with distinct keys: every entry is found under its key. */
  lemma {:induction false} DistinctByKey(evidence: seq<Evidence>, i: nat)
    requires DistinctKeys(evidence) && i < |evidence|
    ensures KeyOf(evidence[i]) in ByKey(evidence) && ByKey(evidence)[KeyOf(evidence[i])] == evidence[i]
  {
    if i < |evidence| - 1 {
      DistinctByKey(evidence[..|evidence| - 1], i);
    }
  }

  lemma OneWordIsNotBlank(text: string)
    requires |text| == 1 && !IsSpace(text[0])
    ensures Normalized(text) == text
  {
    assert text[1..] == [] && WordEnd(text) == 1 && text[..1] == text;
    assert Words(text) == [text] + Words(text[1..]) == [text];
  }

  // ---------- A cell that passes ----------

  /** The child shows the fixture's one fact, and the parent cites it with its chunk. */
  function PassingAnswer(f: string, chunk: string, text: string, call: nat): Answer {
    Output(if call == 0 then ChildOutputOf([ShownFact(f, chunk, text)])
           else map["evidence_references" := Obj(map["fact_id" := Str(f), "chunk_id" := Str(chunk)])])
  }

  lemma OnlyReferenceClaims(parent: Fields, m: Fields)
    requires parent == map["evidence_references" := Obj(m)]
    ensures ParentClaims(parent) == ClaimsFromMapping(m, "evidence_references")
  {
    assert Get(parent, "result") == Null;
    assert [] + ClaimsFromMapping(m, "evidence_references") == ClaimsFromMapping(m, "evidence_references");
  }

  lemma CitingClaims(parent: Fields, f: string, chunk: string)
    requires parent == map["evidence_references" := Obj(map["fact_id" := Str(f), "chunk_id" := Str(chunk)])]
    requires f != "" && chunk != ""
    ensures exists text :: ParentClaims(parent) == [Claim(Some(f), Some(chunk), "evidence_references", text)]
  {
    var m: Fields := map["fact_id" := Str(f), "chunk_id" := Str(chunk)];
    OnlyReferenceClaims(parent, m);
    CitingMapping(m, f, chunk);
    OneFactOneClaim(m, f, chunk, "evidence_references");
  }

  lemma CitingMapping(m: Fields, f: string, chunk: string)
    requires m == map["fact_id" := Str(f), "chunk_id" := Str(chunk)] && f != "" && chunk != ""
    ensures SupportedFactIds(m) == [f] && ChunkId(m) == Some(chunk)
  {
    SingleFactId(m);
  }

  lemma OneFactObserved(chunk: string, familyId: string, f: string, text: string)
    requires Normalized(text) != ""
    ensures var fixture := [FixtureEvidence(f, chunk, text, 1)];
            Observed(OneRecord(chunk, familyId, [ShownFact(f, chunk, text)]), (f, chunk), ByKey(fixture))
  {
    var fixture, facts := [FixtureEvidence(f, chunk, text, 1)], [ShownFact(f, chunk, text)];
    DistinctByKey(fixture, 0);
    ShowsItsKey(f, chunk, text, facts[0], ByKey(fixture));
    ObservedInRecord(chunk, familyId, facts, facts[0], (f, chunk), ByKey(fixture));
  }

  lemma OneFactFresh(fixture: seq<Evidence>, records: seq<ChildRecord>)
    requires |fixture| == 1 && Observed(records, KeyOf(fixture[0]), ByKey(fixture))
    ensures FreshPass(fixture, records)
    ensures var manifest := FreshManifest(fixture, records); forall e :: e in manifest ==> KeyOf(e) == KeyOf(fixture[0])
    ensures exists e :: e in FreshManifest(fixture, records) && KeyOf(e) == KeyOf(fixture[0])
  {
    var manifest := FreshManifest(fixture, records);
    FreshPassExact(fixture, records);
    FreshManifestExact(fixture, records);
    FreshKeysInFixture(fixture, manifest);
    assert KeyOf(fixture[0]) in Keys(manifest);
    forall e | e in manifest ensures KeyOf(e) == KeyOf(fixture[0]) {
      assert KeyOf(e) in Keys(fixture);
    }
  }

  /** The rebuilt manifest of a fixture with one fact, shown by its child, holds that fact with its chunk. */
  lemma OneFactManifest(chunk: string, familyId: string, f: string, text: string)
    requires Normalized(text) != ""
    ensures var fixture := FixtureManifest(OneChunkFixture(chunk, [ExpectedFact(f, chunk, text)]));
            var records := OneRecord(chunk, familyId, [ShownFact(f, chunk, text)]);
            var manifest := FreshManifest(fixture, records);
            FreshPass(fixture, records) && f in ByFact(manifest) && ByFact(manifest)[f].chunkId == chunk
  {
    ManifestOfOne(chunk, f, text);
    OneFactObserved(chunk, familyId, f, text);
    OneFactFresh([FixtureEvidence(f, chunk, text, 1)], OneRecord(chunk, familyId, [ShownFact(f, chunk, text)]));
  }

  lemma EvidencePasses(e: Evidenced, f: string, chunk: string, script: Script, n: nat)
    requires e.coverage && e.observed && f in ByFact(e.manifest) && ByFact(e.manifest)[f].chunkId == chunk
    requires exists text :: ParentClaims(e.parent) == [Claim(Some(f), Some(chunk), "evidence_references", text)]
    ensures var o := ConcludedBy(e, script, n); o.Completed? && o.artifact.mandatoryPass
  {
    AcceptanceIsSupport(e.manifest, e.parent);
    PassExact(e, script(n), script(n + 1), n);
  }

  /** The cell's fixture, and the evidence gathered once its child has answered. */
  function PassingFixture(chunk: string, f: string, text: string): Fixture {
    OneChunkFixture(chunk, [ExpectedFact(f, chunk, text)])
  }

  function PassingEvidence(chunk: string, familyId: string, f: string, text: string, parent: Fields, str: Rendering): Evidenced {
    Gather(PassingFixture(chunk, f, text), OneRecord(chunk, familyId, [ShownFact(f, chunk, text)]), parent, str)
  }

  lemma PassingCellEvidence(chunk: string, familyId: string, f: string, text: string, parent: Fields, str: Rendering)
    requires Normalized(text) != ""
    ensures var e := PassingEvidence(chunk, familyId, f, text, parent, str);
            && e.parent == parent && e.coverage && e.observed
            && f in ByFact(e.manifest) && ByFact(e.manifest)[f].chunkId == chunk
  {
    OneChunkCoverage(chunk, [ExpectedFact(f, chunk, text)], familyId, [ShownFact(f, chunk, text)]);
    OneFactManifest(chunk, familyId, f, text);
  }

  /** Such a cell passes, in any family. */
  lemma PassingCell(chunk: string, familyId: string, f: string, text: string, script: Script, str: Rendering)
    requires f != "" && chunk != "" && Normalized(text) != ""
    requires script(0) == PassingAnswer(f, chunk, text, 0) && script(1) == PassingAnswer(f, chunk, text, 1)
    ensures var o := RunCell(PassingFixture(chunk, f, text), familyId, script, str);
            o.Completed? && o.artifact.mandatoryPass
  {
    var parent := script(1).fields;
    OneChunkCell(chunk, [ExpectedFact(f, chunk, text)], [ShownFact(f, chunk, text)], familyId, script, str);
    PassingCellEvidence(chunk, familyId, f, text, parent, str);
    CitingClaims(parent, f, chunk);
    EvidencePasses(PassingEvidence(chunk, familyId, f, text, parent, str), f, chunk, script, 2);
  }

  // ---------- The child's words decide ----------

  /** What the one child's record says of the fixture's one entry. */
  lemma OneFactStated(chunk: string, familyId: string, f: string, text: string, t: string)
    ensures var d := FixtureEvidence(f, chunk, text, 1);
            EvidenceText.StatesEntry(OneRecord(chunk, familyId, [ShownFact(f, chunk, t)])[0], d)
            <==> EvidenceText.StatesText(f, t, text)
  {
    var r, d, fact := OneRecord(chunk, familyId, [ShownFact(f, chunk, t)])[0], FixtureEvidence(f, chunk, text, 1), ShownFact(f, chunk, t);
    assert fact in r.output["observed_facts"].items && EvidenceText.FactSays(fact, (f, chunk), t);
    assert EvidenceText.Lists(r, (f, chunk), t);
    forall other | EvidenceText.Lists(r, (f, chunk), other) ensures other == t {
      var shown :| shown in r.output["observed_facts"].items && EvidenceText.FactSays(shown, (f, chunk), other);
      assert shown == fact;
    }
  }

  /** The fact is in the rebuilt manifest exactly when the child states its text, and then it is complete. */
  lemma OneFactManifestIff(chunk: string, familyId: string, f: string, text: string, t: string)
    ensures var fixture := [FixtureEvidence(f, chunk, text, 1)];
            var records := OneRecord(chunk, familyId, [ShownFact(f, chunk, t)]);
            && (FreshPass(fixture, records) <==> EvidenceText.StatesText(f, t, text))
            && (EvidenceText.StatesText(f, t, text)
                <==> exists e :: e in FreshManifest(fixture, records) && KeyOf(e) == (f, chunk))
  {
    var fixture, records := [FixtureEvidence(f, chunk, text, 1)], OneRecord(chunk, familyId, [ShownFact(f, chunk, t)]);
    OneFactStated(chunk, familyId, f, text, t);
    assert fixture[0] == FixtureEvidence(f, chunk, text, 1);
    assert EvidenceText.LastOfKey(fixture, fixture[0]);
    EvidenceText.StatedEntryIsThere(fixture, records, fixture[0]);
    assert records[0] in records;
    FreshPassExact(fixture, records);
    FreshManifestExact(fixture, records);
    assert (f, chunk) in Keys(FreshManifest(fixture, records))
      <==> exists e :: e in FreshManifest(fixture, records) && KeyOf(e) == (f, chunk);
  }

  lemma StatedCellPasses(e: Evidenced, chunk: string, familyId: string, f: string, text: string, t: string, parent: Fields,
                         str: Rendering, script: Script)
    requires f != "" && chunk != "" && parent == PassingAnswer(f, chunk, text, 1).fields
    requires e == Gather(PassingFixture(chunk, f, text), OneRecord(chunk, familyId, [ShownFact(f, chunk, t)]), parent, str)
    ensures var o := ConcludedBy(e, script, 2); o.Completed? && (o.artifact.mandatoryPass <==> EvidenceText.StatesText(f, t, text))
  {
    var records := OneRecord(chunk, familyId, [ShownFact(f, chunk, t)]);
    ManifestOfOne(chunk, f, text);
    OneFactManifestIff(chunk, familyId, f, text, t);
    if EvidenceText.StatesText(f, t, text) {
      OneChunkCoverage(chunk, [ExpectedFact(f, chunk, text)], familyId, [ShownFact(f, chunk, t)]);
      KeyedByFact(FreshManifest([FixtureEvidence(f, chunk, text, 1)], records), f, chunk, [FixtureEvidence(f, chunk, text, 1)], records);
      CitingClaims(parent, f, chunk);
      EvidencePasses(e, f, chunk, script, 2);
    } else {
      PassExact(e, script(2), script(3), 2);
    }
  }

  lemma KeyedByFact(manifest: seq<Evidence>, f: string, chunk: string, fixture: seq<Evidence>, records: seq<ChildRecord>)
    requires manifest == FreshManifest(fixture, records) && |fixture| == 1 && KeyOf(fixture[0]) == (f, chunk)
    requires exists e :: e in manifest && KeyOf(e) == (f, chunk)
    ensures f in ByFact(manifest) && ByFact(manifest)[f].chunkId == chunk
  {
    FreshManifestExact(fixture, records);
    FreshKeysInFixture(fixture, manifest);
    forall e | e in manifest ensures KeyOf(e) == (f, chunk) {
      assert KeyOf(e) in Keys(fixture);
    }
  }

  /**
    * The cell of a fixture with one fact, whose parent cites it, passes exactly when the child's text has a word and
    * agrees with the fixture's up to white space, with or without the fact's label.
    */
  lemma ShownTextDecides(chunk: string, familyId: string, f: string, text: string, t: string, script: Script, str: Rendering)
    requires f != "" && chunk != ""
    requires script(0) == Output(ChildOutputOf([ShownFact(f, chunk, t)])) && script(1) == PassingAnswer(f, chunk, text, 1)
    ensures var o := RunCell(PassingFixture(chunk, f, text), familyId, script, str);
            o.Completed? && (o.artifact.mandatoryPass <==> EvidenceText.StatesText(f, t, text))
  {
    OneChunkCell(chunk, [ExpectedFact(f, chunk, text)], [ShownFact(f, chunk, t)], familyId, script, str);
    StatedCellPasses(Gather(PassingFixture(chunk, f, text), OneRecord(chunk, familyId, [ShownFact(f, chunk, t)]),
                            script(1).fields, str), chunk, familyId, f, text, t, script(1).fields, str, script);
  }

  // ---------- A cell whose repair cannot succeed ----------

  /** The child shows both entries of the fact, but files both under chunk `a`. */
  function ConflictingFacts(f: string, a: string, b: string, text: string): seq<Value> {
    [ShownFact(f, a, text), TwoChunkFact(f, b, a, text)]
  }

  lemma HandleOf(m: Fields, f: string, a: string, record: ChildRecord, str: Rendering)
    requires CanonicalFactId(m, str) == f && CanonicalChunkId(m, str) == a && f != "" && a != ""
    ensures HandlesOfFact(Obj(m), record, str) == {(f, a)}
  {
  }

  lemma FactIdOf(m: Fields, f: string, str: Rendering)
    requires OnlyFactIdKey(m) && Get(m, "fact_id") == Str(f) && f != ""
    ensures CanonicalFactId(m, str) == f
  {
    SingleFactId(m);
  }

  lemma ChunkOf(m: Fields, a: string, str: Rendering)
    requires a != ""
    requires Get(m, "chunk_id") == Str(a) || (Get(m, "chunk_id") == Null && Get(m, HANDLE_KEY) == Str(a))
    ensures CanonicalChunkId(m, str) == a
  {
    var s := CanonicalUnder(m, CHUNK_KEYS, str);
    assert s[0] == CanonicalString(Get(m, "chunk_id"), str) && s[1] == CanonicalString(Get(m, HANDLE_KEY), str);
    if s[0] == "" {
      assert s[1..][0] == s[1] == a;
      assert FirstNonEmpty(s) == FirstNonEmpty(s[1..]) == a;
    }
  }

  lemma ShownHandle(m: Fields, f: string, a: string, text: string, record: ChildRecord, str: Rendering)
    requires Obj(m) == ShownFact(f, a, text) && f != "" && a != ""
    ensures HandlesOfFact(Obj(m), record, str) == {(f, a)}
  {
    FactIdOf(m, f, str);
    ChunkOf(m, a, str);
    HandleOf(m, f, a, record, str);
  }

  lemma TwoChunkHandle(m: Fields, f: string, a: string, b: string, text: string, record: ChildRecord, str: Rendering)
    requires Obj(m) == TwoChunkFact(f, b, a, text) && f != "" && a != ""
    ensures HandlesOfFact(Obj(m), record, str) == {(f, a)}
  {
    FactIdOf(m, f, str);
    ChunkOf(m, a, str);
    HandleOf(m, f, a, record, str);
  }

  lemma ConflictingHandles(chunk: string, familyId: string, f: string, a: string, b: string, text: string, str: Rendering)
    requires f != "" && a != ""
    ensures HandlesOfChildren(OneRecord(chunk, familyId, ConflictingFacts(f, a, b, text)), str) == {(f, a)}
  {
    var facts := ConflictingFacts(f, a, b, text);
    var records := OneRecord(chunk, familyId, facts);
    ShownHandle(facts[0].fields, f, a, text, records[0], str);
    TwoChunkHandle(facts[1].fields, f, a, b, text, records[0], str);
    TwoFactHandles(facts, records[0], (f, a), str);
    assert ObservedFacts(records[0]) == facts;
    assert HandlesOfChildren(records[..0], str) == {};
  }

  lemma TwoFactHandles(facts: seq<Value>, record: ChildRecord, handle: (string, string), str: Rendering)
    requires |facts| == 2
    requires HandlesOfFact(facts[0], record, str) == {handle} == HandlesOfFact(facts[1], record, str)
    ensures HandlesOfFacts(facts, record, str) == {handle}
  {
    var one := facts[..1];
    assert one[..0] == [] && HandlesOfFacts(one[..0], record, str) == {};
    assert HandlesOfFacts(one, record, str) == {handle};
  }

  lemma ConflictingObserved(chunk: string, familyId: string, f: string, a: string, b: string, text: string)
    requires a != b && Normalized(text) != ""
    ensures var fixture := [FixtureEvidence(f, a, text, 1), FixtureEvidence(f, b, text, 2)];
            var records := OneRecord(chunk, familyId, ConflictingFacts(f, a, b, text));
            && DistinctKeys(fixture)
            && Observed(records, (f, a), ByKey(fixture)) && Observed(records, (f, b), ByKey(fixture))
  {
    var fixture := [FixtureEvidence(f, a, text, 1), FixtureEvidence(f, b, text, 2)];
    var facts := ConflictingFacts(f, a, b, text);
    DistinctByKey(fixture, 0);
    DistinctByKey(fixture, 1);
    ShowsItsKey(f, a, text, facts[0], ByKey(fixture));
    ShowsItsKey(f, b, text, facts[1], ByKey(fixture));
    ObservedInRecord(chunk, familyId, facts, facts[0], (f, a), ByKey(fixture));
    ObservedInRecord(chunk, familyId, facts, facts[1], (f, b), ByKey(fixture));
  }

  /** Two observed entries of a fact come out in the order of their chunks. */
  lemma TwoEntriesFresh(fixture: seq<Evidence>, records: seq<ChildRecord>, f: string, a: string, b: string)
    requires |fixture| == 2 && KeyOf(fixture[0]) == (f, a) && KeyOf(fixture[1]) == (f, b) && DistinctKeys(fixture)
    requires Observed(records, (f, a), ByKey(fixture)) && Observed(records, (f, b), ByKey(fixture))
    requires a != b && LexLeq(a, b)
    ensures var manifest := FreshManifest(fixture, records);
            && FreshPass(fixture, records) && |manifest| == 2
            && KeyOf(manifest[0]) == (f, a) && KeyOf(manifest[1]) == (f, b)
  {
    TwoKeysFresh(fixture, records);
    TwoKeysInOrder(fixture, records);
    TwoEntriesInOrder(FreshManifest(fixture, records), f, a, b);
  }

  lemma TwoKeysFresh(fixture: seq<Evidence>, records: seq<ChildRecord>)
    requires |fixture| == 2 && DistinctKeys(fixture)
    requires Observed(records, KeyOf(fixture[0]), ByKey(fixture)) && Observed(records, KeyOf(fixture[1]), ByKey(fixture))
    ensures FreshPass(fixture, records) && |FreshManifest(fixture, records)| == 2
  {
    FreshPassExact(fixture, records);
  }

  lemma TwoKeysInOrder(fixture: seq<Evidence>, records: seq<ChildRecord>)
    requires |fixture| == 2 && |FreshManifest(fixture, records)| == 2
    ensures var manifest := FreshManifest(fixture, records);
            && EvidenceLeq(manifest[0], manifest[1]) && KeyOf(manifest[0]) != KeyOf(manifest[1])
            && forall i :: 0 <= i < 2 ==> KeyOf(manifest[i]) == KeyOf(fixture[0]) || KeyOf(manifest[i]) == KeyOf(fixture[1])
  {
    var manifest := FreshManifest(fixture, records);
    FreshManifestExact(fixture, records);
    FreshKeysInFixture(fixture, manifest);
    assert KeyOf(manifest[0]) in Keys(manifest) && KeyOf(manifest[1]) in Keys(manifest);
  }

  lemma TwoEntriesInOrder(manifest: seq<Evidence>, f: string, a: string, b: string)
    requires |manifest| == 2 && EvidenceLeq(manifest[0], manifest[1]) && KeyOf(manifest[0]) != KeyOf(manifest[1])
    requires forall i :: 0 <= i < 2 ==> KeyOf(manifest[i]) == (f, a) || KeyOf(manifest[i]) == (f, b)
    requires a != b && LexLeq(a, b)
    ensures KeyOf(manifest[0]) == (f, a) && KeyOf(manifest[1]) == (f, b)
  {
    EntryOrderOfChunks(manifest[0], manifest[1]);
    if KeyOf(manifest[0]) == (f, b) {
      LexAntisymmetric(a, b);
    }
  }

  lemma EntryOrderOfChunks(x: Evidence, y: Evidence)
    requires EvidenceLeq(x, y) && x.factId == y.factId && x.chunkId != y.chunkId
    ensures LexLeq(x.chunkId, y.chunkId)
  {
    var p, q := [x.factId, x.chunkId, x.text], [y.factId, y.chunkId, y.text];
    assert TupleLeq(p[1..], q[1..]);
    assert p[1..][0] == x.chunkId && q[1..][0] == y.chunkId;
  }

  lemma GatherOf(fixture: Fixture, expected: seq<Evidence>, records: seq<ChildRecord>, parent: Fields, str: Rendering)
    requires FixtureManifest(fixture) == expected
    ensures var e := Gather(fixture, records, parent, str);
            && e.parent == parent && e.manifest == FreshManifest(expected, records)
            && e.handles == HandlesOfChildren(records, str)
            && e.coverage == Coverage(fixture, records) && e.observed == FreshPass(expected, records)
  {
  }

  /** The cell's fixture, and the evidence gathered once its child has answered. */
  function ConflictingFixture(chunk: string, f: string, a: string, b: string, text: string): Fixture {
    OneChunkFixture(chunk, [ExpectedFact(f, a, text), ExpectedFact(f, b, text)])
  }

  function ConflictingEvidence(chunk: string, familyId: string, f: string, a: string, b: string, text: string,
                               parent: Fields, str: Rendering): Evidenced {
    Gather(ConflictingFixture(chunk, f, a, b, text), OneRecord(chunk, familyId, ConflictingFacts(f, a, b, text)), parent, str)
  }

  lemma ConflictingCellEvidence(chunk: string, familyId: string, f: string, a: string, b: string, text: string, parent: Fields,
                                str: Rendering)
    requires f != "" && a != "" && a != b && LexLeq(a, b) && Normalized(text) != ""
    ensures var e := ConflictingEvidence(chunk, familyId, f, a, b, text, parent, str);
            e.parent == parent && e.coverage && e.observed && Conflicting(e.manifest, e.handles, f, a, b)
  {
    var expected := [FixtureEvidence(f, a, text, 1), FixtureEvidence(f, b, text, 2)];
    var records := OneRecord(chunk, familyId, ConflictingFacts(f, a, b, text));
    ManifestOfTwo(chunk, f, a, b, text);
    GatherOf(ConflictingFixture(chunk, f, a, b, text), expected, records, parent, str);
    ConflictingObserved(chunk, familyId, f, a, b, text);
    ConflictingHandles(chunk, familyId, f, a, b, text, str);
    OneChunkCoverage(chunk, [ExpectedFact(f, a, text), ExpectedFact(f, b, text)], familyId, ConflictingFacts(f, a, b, text));
    TwoEntriesFresh(expected, records, f, a, b);
    ConflictingOf(FreshManifest(expected, records), HandlesOfChildren(records, str), f, a, b);
  }

  lemma ConflictingOf(manifest: seq<Evidence>, handles: ChildHandles, f: string, a: string, b: string)
    requires |manifest| == 2 && KeyOf(manifest[0]) == (f, a) && KeyOf(manifest[1]) == (f, b)
    requires a != b && a != "" && handles == {(f, a)}
    ensures Conflicting(manifest, handles, f, a, b)
  {
  }

  lemma ConflictFails(e: Evidenced, c: Candidate, script: Script, n: nat, f: string, a: string, b: string)
    requires Conflicting(e.manifest, e.handles, f, a, b) && Bare(e.parent, c, f)
    requires script(n) == Output(map["evidence_references" := Obj(c.mapping[HANDLE_KEY := Str(a)])])
    ensures Eligible(e.parent, e.manifest, e.handles) && AllAnswered(script(n).fields, e.Refs())
    ensures var o := ConcludedBy(e, script, n); o.Completed? && !o.artifact.mandatoryPass
  {
    ConflictingEntriesDefeatRepair(e.parent, c, script(n).fields, e.manifest, e.handles, f, a, b);
    RefusedPatchFails(e, script, n);
  }

  lemma FinishFails(e: Evidenced, effective: Fields, repaired: Option<Fields>, retried: Option<Fields>, block: Block)
    requires !Validate(e.manifest, effective).accepted
    ensures !e.Finish(effective, repaired, retried, block).mandatoryPass
  {
  }

  lemma RefusedPatchFails(e: Evidenced, script: Script, n: nat)
    requires Eligible(e.parent, e.manifest, e.handles) && script(n).Output?
    requires !Validate(e.manifest, e.Patched(script(n).fields)).accepted
    ensures var o := ConcludedBy(e, script, n); o.Completed? && !o.artifact.mandatoryPass
  {
    var patched := e.Patched(script(n).fields);
    FinishFails(e, e.parent, None, None, e.Initial());
    FinishFails(e, patched, Some(patched), None, e.Attempted(script(n).fields));
    assert e.Attempted(script(n).fields).repairAccept == Some(false);
    RefusedPatchEnds(e, script(n), script(n + 1), n);
  }

  lemma RefusedPatchEnds(e: Evidenced, repair: Answer, retry: Answer, n: nat)
    requires repair.Output? && e.Attempted(repair.fields).repairAccept == Some(false)
    ensures var patched := e.Patched(repair.fields);
            e.Conclude(repair, retry, n) ==
            if !e.Initial().eligible then Completed(e.Finish(e.parent, None, None, e.Initial()), n, 0)
            else Completed(e.Finish(patched, Some(patched), None, e.Attempted(repair.fields)), n + 1, 1)
  {
  }

  lemma ConflictingCell(chunk: string, familyId: string, f: string, a: string, b: string, text: string, script: Script,
                        str: Rendering)
    requires script(0) == Output(ChildOutputOf(ConflictingFacts(f, a, b, text))) && script(1).Output?
    ensures RunCell(ConflictingFixture(chunk, f, a, b, text), familyId, script, str)
         == ConcludedBy(ConflictingEvidence(chunk, familyId, f, a, b, text, script(1).fields, str), script, 2)
  {
    OneChunkCell(chunk, [ExpectedFact(f, a, text), ExpectedFact(f, b, text)], ConflictingFacts(f, a, b, text), familyId,
                 script, str);
  }

  /**
    * A cell with complete evidence and an eligible parent whose repair answers every reference, and which still
    * fails, whatever its retry answers: the fixture lists two chunks for a fact, and the child files both under one.
    */
  lemma ConflictingCellFails(chunk: string, familyId: string, f: string, a: string, b: string, text: string, c: Candidate,
                             script: Script, str: Rendering)
    requires f != "" && a != "" && a != b && LexLeq(a, b) && Normalized(text) != ""
    requires script(0) == Output(ChildOutputOf(ConflictingFacts(f, a, b, text)))
    requires script(1).Output? && Bare(script(1).fields, c, f)
    requires script(2) == Output(map["evidence_references" := Obj(c.mapping[HANDLE_KEY := Str(a)])])
    ensures var e := ConflictingEvidence(chunk, familyId, f, a, b, text, script(1).fields, str);
            && e.coverage && e.observed && Eligible(e.parent, e.manifest, e.handles)
            && AllAnswered(script(2).fields, e.Refs())
    ensures var o := RunCell(ConflictingFixture(chunk, f, a, b, text), familyId, script, str);
            o.Completed? && !o.artifact.mandatoryPass
  {
    ConflictingCell(chunk, familyId, f, a, b, text, script, str);
    ConflictingCellEvidence(chunk, familyId, f, a, b, text, script(1).fields, str);
    ConflictFails(ConflictingEvidence(chunk, familyId, f, a, b, text, script(1).fields, str), c, script, 2, f, a, b);
  }
}
