/** The manifest rebuilt from this run's children: fixture facts that some child actually showed. */
module FreshEvidence {
  import opened Options
  import opened Json
  import opened Text
  import opened Ordering
  import opened TraceGuard
  import opened RepairReferences

  // ---------- Whitespace-normalised text ----------

  /** The longest prefix without whitespace ends here. */
  function WordEnd(s: string): (n: nat)
    ensures n <= |s|
    ensures forall i :: 0 <= i < n ==> !IsSpace(s[i])
    ensures n < |s| ==> IsSpace(s[n])
  {
    if s == [] || IsSpace(s[0]) then 0 else 1 + WordEnd(s[1..])
  }

  /** `text.split()` */
  function Words(text: string): seq<string>
    decreases |text|
  {
    if text == [] then []
    else if IsSpace(text[0]) then Words(text[1..])
    else [text[..WordEnd(text)]] + Words(text[WordEnd(text)..])
  }

  /** `" ".join(text.split())` */
  function Normalized(text: string): string {
    Join(Words(text), ' ')
  }

  predicate TextMatches(factId: string, childText: string, fixtureText: string) {
    var child, fixture := Normalized(childText), Normalized(fixtureText);
    var prefix := "FACT:" + factId + " ";
    child != "" && (child == fixture || (prefix <= fixture && child == fixture[|prefix|..]))
  }

  // ---------- Building the manifest ----------

  type HandleKey = (string, string)

  function KeyOf(e: Evidence): HandleKey {
    (e.factId, e.chunkId)
  }

  /** The fixture as a dictionary by fact and chunk: the last entry of a key wins. */
  function ByKey(fixture: seq<Evidence>): (d: map<HandleKey, Evidence>)
    ensures forall k :: k in d ==> d[k] in fixture && KeyOf(d[k]) == k
    ensures forall e :: e in fixture ==> KeyOf(e) in d
  {
    if fixture == [] then map[]
    else ByKey(fixture[..|fixture| - 1])[KeyOf(fixture[|fixture| - 1]) := fixture[|fixture| - 1]]
  }

  /** The key and text of a fact that states all three of its fields as strings. */
  function Stated(fact: Value): Option<(HandleKey, string)> {
    if fact.Obj? && Get(fact.fields, "fact_id").Str? && Get(fact.fields, HANDLE_KEY).Str? && Get(fact.fields, "text").Str? then
      Some(((fact.fields["fact_id"].text, fact.fields[HANDLE_KEY].text), fact.fields["text"].text))
    else None
  }

  /** The fact states the key of a fixture entry, with that entry's text. */
  predicate Shows(fact: Value, key: HandleKey, allowed: map<HandleKey, Evidence>) {
    && Stated(fact).Some?
    && Stated(fact).value.0 == key
    && key in allowed
    && TextMatches(key.0, Stated(fact).value.1, allowed[key].text)
  }

  function Keys(evidence: seq<Evidence>): set<HandleKey> {
    set e | e in evidence :: KeyOf(e)
  }

  lemma KeysAppend(evidence: seq<Evidence>, e: Evidence)
    ensures Keys(evidence + [e]) == Keys(evidence) + {KeyOf(e)}
  {
  }

  function Observe(evidence: seq<Evidence>, fact: Value, record: ChildRecord, allowed: map<HandleKey, Evidence>): seq<Evidence> {
    if Stated(fact).Some? && Shows(fact, Stated(fact).value.0, allowed) && Stated(fact).value.0 !in Keys(evidence) then
      var key := Stated(fact).value.0;
      evidence + [Evidence(key.0, key.1, allowed[key].text, Some(record.callId))]
    else evidence
  }

  function ObserveFacts(evidence: seq<Evidence>, facts: seq<Value>, record: ChildRecord,
                        allowed: map<HandleKey, Evidence>): seq<Evidence> {
    if facts == [] then evidence
    else Observe(ObserveFacts(evidence, facts[..|facts| - 1], record, allowed), facts[|facts| - 1], record, allowed)
  }

  function ObserveRecords(records: seq<ChildRecord>, allowed: map<HandleKey, Evidence>): seq<Evidence> {
    if records == [] then []
    else
      var last := records[|records| - 1];
      ObserveFacts(ObserveRecords(records[..|records| - 1], allowed), ObservedFacts(last), last, allowed)
  }

  predicate EvidenceLeq(a: Evidence, b: Evidence) {
    TupleLeq([a.factId, a.chunkId, a.text], [b.factId, b.chunkId, b.text])
  }

  function FreshManifest(fixture: seq<Evidence>, records: seq<ChildRecord>): seq<Evidence> {
    Sorted(ObserveRecords(records, ByKey(fixture)), EvidenceLeq)
  }

  predicate FreshPass(fixture: seq<Evidence>, records: seq<ChildRecord>) {
    var manifest := FreshManifest(fixture, records);
    manifest != [] && |manifest| == |fixture|
  }

  method BuildFreshChildEvidenceManifest(fixture: seq<Evidence>, records: seq<ChildRecord>)
    returns (manifest: seq<Evidence>)
    ensures manifest == FreshManifest(fixture, records)
  {
    var allowed := ByKey(fixture);
    var evidence: seq<Evidence> := [];
    for n := 0 to |records|
      invariant evidence == ObserveRecords(records[..n], allowed)
    {
      assert records[..n + 1][..n] == records[..n];
      evidence := CollectObserved(evidence, records[n], allowed);
    }
    assert records[..|records|] == records;
    manifest := Sorted(evidence, EvidenceLeq);
  }

  method CollectObserved(evidence: seq<Evidence>, record: ChildRecord, allowed: map<HandleKey, Evidence>)
    returns (extended: seq<Evidence>)
    ensures extended == ObserveFacts(evidence, ObservedFacts(record), record, allowed)
  {
    extended := evidence;
    var seen := Keys(evidence);
    var facts := ObservedFacts(record);
    for k := 0 to |facts|
      invariant extended == ObserveFacts(evidence, facts[..k], record, allowed)
      invariant seen == Keys(extended)
    {
      assert facts[..k + 1][..k] == facts[..k];
      var stated := Stated(facts[k]);
      if stated.None? {
        continue;
      }
      var key, text := stated.value.0, stated.value.1;
      if key in seen || key !in allowed || !TextMatches(key.0, text, allowed[key].text) {
        continue;
      }
      var entry := Evidence(key.0, key.1, allowed[key].text, Some(record.callId));
      KeysAppend(extended, entry);
      seen := seen + {key};
      extended := extended + [entry];
    }
    assert facts[..|facts|] == facts;
  }

  // ---------- What is in it ----------

  /** Some child of the run shows the key with the fixture's text. */
  ghost predicate Observed(records: seq<ChildRecord>, key: HandleKey, allowed: map<HandleKey, Evidence>) {
    exists r, f :: r in records && f in ObservedFacts(r) && Shows(f, key, allowed)
  }

  ghost predicate DistinctKeys(evidence: seq<Evidence>) {
    forall i, j :: 0 <= i < j < |evidence| ==> KeyOf(evidence[i]) != KeyOf(evidence[j])
  }

  /** Each entry repeats a fixture entry's key and text. */
  ghost predicate FromFixture(evidence: seq<Evidence>, allowed: map<HandleKey, Evidence>) {
    forall e :: e in evidence ==> KeyOf(e) in allowed && e.text == allowed[KeyOf(e)].text
  }

  lemma ObserveAdds(evidence: seq<Evidence>, fact: Value, record: ChildRecord, allowed: map<HandleKey, Evidence>)
    requires DistinctKeys(evidence) && FromFixture(evidence, allowed)
    ensures var after := Observe(evidence, fact, record, allowed);
            && DistinctKeys(after)
            && FromFixture(after, allowed)
            && forall k :: k in Keys(after) <==> k in Keys(evidence) || Shows(fact, k, allowed)
  {
    if Stated(fact).Some? && Shows(fact, Stated(fact).value.0, allowed) && Stated(fact).value.0 !in Keys(evidence) {
      var key := Stated(fact).value.0;
      var entry := Evidence(key.0, key.1, allowed[key].text, Some(record.callId));
      KeysAppend(evidence, entry);
      forall i | 0 <= i < |evidence| ensures KeyOf(evidence[i]) != key {
        assert evidence[i] in evidence;
      }
    }
  }

  lemma {:induction false} ObserveFactsAdds(evidence: seq<Evidence>, facts: seq<Value>, record: ChildRecord,
                                            allowed: map<HandleKey, Evidence>)
    requires DistinctKeys(evidence) && FromFixture(evidence, allowed)
    ensures var after := ObserveFacts(evidence, facts, record, allowed);
            && DistinctKeys(after)
            && FromFixture(after, allowed)
            && forall k :: k in Keys(after) <==> k in Keys(evidence) || exists f :: f in facts && Shows(f, k, allowed)
  {
    if facts != [] {
      var front, last := facts[..|facts| - 1], facts[|facts| - 1];
      ObserveFactsAdds(evidence, front, record, allowed);
      assert facts == front + [last];
      var before := ObserveFacts(evidence, front, record, allowed);
      var after := ObserveFacts(evidence, facts, record, allowed);
      ObserveAdds(before, last, record, allowed);
      forall k
        ensures k in Keys(after) <==> k in Keys(evidence) || exists f :: f in facts && Shows(f, k, allowed)
      {
        if exists f :: f in facts && Shows(f, k, allowed) {
          var f :| f in facts && Shows(f, k, allowed);
          assert f in front || f == last;
        }
      }
    }
  }

  lemma {:induction false} ObserveRecordsExact(records: seq<ChildRecord>, allowed: map<HandleKey, Evidence>)
    ensures var evidence := ObserveRecords(records, allowed);
            && DistinctKeys(evidence)
            && FromFixture(evidence, allowed)
            && forall k :: k in Keys(evidence) <==> Observed(records, k, allowed)
  {
    if records != [] {
      var front, last := records[..|records| - 1], records[|records| - 1];
      ObserveRecordsExact(front, allowed);
      ObserveFactsAdds(ObserveRecords(front, allowed), ObservedFacts(last), last, allowed);
      assert records == front + [last];
      forall k ensures k in Keys(ObserveRecords(records, allowed)) <==> Observed(records, k, allowed) {
        if Observed(records, k, allowed) {
          var r, f :| r in records && f in ObservedFacts(r) && Shows(f, k, allowed);
          assert r in front || r == last;
        }
        if Observed(front, k, allowed) {
          var r, f :| r in front && f in ObservedFacts(r) && Shows(f, k, allowed);
          assert r in records;
        }
      }
    }
  }

  lemma EvidenceLeqTotal()
    ensures TotalPreorder(EvidenceLeq)
  {
    forall a, b ensures EvidenceLeq(a, b) || EvidenceLeq(b, a) {
      TupleTotal([a.factId, a.chunkId, a.text], [b.factId, b.chunkId, b.text]);
    }
    forall a, b, c | EvidenceLeq(a, b) && EvidenceLeq(b, c) ensures EvidenceLeq(a, c) {
      TupleTransitive([a.factId, a.chunkId, a.text], [b.factId, b.chunkId, b.text], [c.factId, c.chunkId, c.text]);
    }
  }

  lemma DistinctSplit(front: seq<Evidence>, last: Evidence)
    ensures DistinctKeys(front + [last]) <==> DistinctKeys(front) && KeyOf(last) !in Keys(front)
  {
    var all := front + [last];
    if DistinctKeys(all) {
      forall i, j | 0 <= i < j < |front| ensures KeyOf(front[i]) != KeyOf(front[j]) {
        assert all[i] == front[i] && all[j] == front[j];
      }
      forall e | e in front ensures KeyOf(e) != KeyOf(last) {
        var i :| 0 <= i < |front| && front[i] == e;
        assert all[i] == e && all[|front|] == last;
      }
    }
    if DistinctKeys(front) && KeyOf(last) !in Keys(front) {
      forall i, j | 0 <= i < j < |all| ensures KeyOf(all[i]) != KeyOf(all[j]) {
        assert front[i] in front;
      }
    }
  }

  lemma {:induction false} KeyCount(evidence: seq<Evidence>)
    ensures |Keys(evidence)| <= |evidence|
    ensures |Keys(evidence)| == |evidence| <==> DistinctKeys(evidence)
  {
    if evidence == [] {
      assert Keys(evidence) == {};
    } else {
      var front, last := evidence[..|evidence| - 1], evidence[|evidence| - 1];
      KeyCount(front);
      assert evidence == front + [last];
      KeysAppend(front, last);
      DistinctSplit(front, last);
      if KeyOf(last) in Keys(front) {
        assert Keys(evidence) == Keys(front);
      }
    }
  }

  /** Sorted, duplicate-free, contained in the fixture, and holding exactly the keys some child showed. */
  lemma FreshManifestExact(fixture: seq<Evidence>, records: seq<ChildRecord>)
    ensures var manifest, allowed := FreshManifest(fixture, records), ByKey(fixture);
            && SortedBy(manifest, EvidenceLeq)
            && DistinctKeys(manifest)
            && FromFixture(manifest, allowed)
            && forall k :: k in Keys(manifest) <==> Observed(records, k, allowed)
  {
    var allowed := ByKey(fixture);
    var evidence, manifest := ObserveRecords(records, allowed), FreshManifest(fixture, records);
    ObserveRecordsExact(records, allowed);
    EvidenceLeqTotal();
    SortedIsSorted(evidence, EvidenceLeq);
    forall e ensures e in manifest <==> e in evidence {
      SortedMembers(evidence, EvidenceLeq, e);
    }
    assert Keys(manifest) == Keys(evidence);
    KeyCount(evidence);
    KeyCount(manifest);
  }

  /** Freshness is exactly: a non-empty fixture whose keys are distinct and all shown by children of this run. */
  lemma FreshPassExact(fixture: seq<Evidence>, records: seq<ChildRecord>)
    ensures FreshPass(fixture, records)
      <==> fixture != [] && DistinctKeys(fixture)
           && forall e :: e in fixture ==> Observed(records, KeyOf(e), ByKey(fixture))
  {
    var manifest, allowed := FreshManifest(fixture, records), ByKey(fixture);
    FreshManifestExact(fixture, records);
    FreshKeysInFixture(fixture, manifest);
    AllKeysObserved(fixture, records, manifest);
    CountsCoincide(manifest, fixture);
  }

  /** Duplicate-free and contained: equal counts mean equal key sets without duplicates. */
  lemma CountsCoincide(manifest: seq<Evidence>, fixture: seq<Evidence>)
    requires DistinctKeys(manifest) && Keys(manifest) <= Keys(fixture)
    ensures |manifest| == |fixture| <==> DistinctKeys(fixture) && Keys(fixture) <= Keys(manifest)
  {
    KeyCount(manifest);
    KeyCount(fixture);
    Subset(Keys(manifest), Keys(fixture));
    assert Keys(fixture) <= Keys(manifest) <==> Keys(fixture) == Keys(manifest);
  }

  lemma FreshKeysInFixture(fixture: seq<Evidence>, manifest: seq<Evidence>)
    requires FromFixture(manifest, ByKey(fixture))
    ensures Keys(manifest) <= Keys(fixture)
  {
    forall k | k in Keys(manifest) ensures k in Keys(fixture) {
      var e :| e in manifest && KeyOf(e) == k;
      assert ByKey(fixture)[k] in fixture && KeyOf(ByKey(fixture)[k]) == k;
    }
  }

  lemma AllKeysObserved(fixture: seq<Evidence>, records: seq<ChildRecord>, manifest: seq<Evidence>)
    requires forall k :: k in Keys(manifest) <==> Observed(records, k, ByKey(fixture))
    ensures Keys(fixture) <= Keys(manifest) <==> forall e :: e in fixture ==> Observed(records, KeyOf(e), ByKey(fixture))
  {
    if Keys(fixture) <= Keys(manifest) {
      forall e | e in fixture ensures Observed(records, KeyOf(e), ByKey(fixture)) {
        assert KeyOf(e) in Keys(fixture);
      }
    }
  }

  lemma Subset(a: set<HandleKey>, b: set<HandleKey>)
    requires a <= b
    ensures |a| <= |b|
    ensures |a| == |b| ==> a == b
  {
    assert b == a + (b - a);
    assert |b| == |a| + |b - a|;
  }

  /** A fixture with one chunk per fact yields a manifest with one entry per fact. */
  lemma FreshFactsUnique(fixture: seq<Evidence>, records: seq<ChildRecord>)
    requires forall d, e :: d in fixture && e in fixture && d.factId == e.factId ==> d.chunkId == e.chunkId
    ensures UniqueFacts(FreshManifest(fixture, records))
  {
    var manifest, allowed := FreshManifest(fixture, records), ByKey(fixture);
    FreshManifestExact(fixture, records);
    forall i, j | 0 <= i < |manifest| && 0 <= j < |manifest| && manifest[i].factId == manifest[j].factId ensures i == j {
      var d, e := allowed[KeyOf(manifest[i])], allowed[KeyOf(manifest[j])];
      assert manifest[i] in manifest && manifest[j] in manifest;
      assert KeyOf(manifest[i]) == KeyOf(manifest[j]);
    }
  }
}
