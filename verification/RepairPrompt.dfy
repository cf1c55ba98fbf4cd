/** The deterministic input of a repair prompt: what is kept of the claim, the manifest, the parent and the children. */
module RepairPrompt {
  import opened Options
  import opened Json
  import opened Text
  import opened Ordering
  import opened TraceGuard
  import opened CanonicalJson
  import opened ChildRecords

  // ---------- Child records ----------

  datatype FullRecord = FullRecord(callId: string, parentCallId: Option<string>, chunkId: string, output: ChildOutput)

  datatype PromptChild = PromptChild(chunkId: string, output: ChildOutput)

  /** The compact JSON text of a child output, used as a sort key. */
  type Dump = ChildOutput -> string

  ghost predicate Injective(dump: Dump) {
    forall a, b :: dump(a) == dump(b) ==> a == b
  }

  function NormalizeRecord(record: Mapping, str: TreeRendering): FullRecord {
    var parentCallId := Lookup(record, "parent_call_id");
    FullRecord(Read(Lookup(record, "call_id"), str),
               if parentCallId.TNull? then None else Some(Read(parentCallId, str)),
               Read(Lookup(record, "chunk_id"), str),
               SortedOutput(RawOutput(Lookup(record, "output"), str)))
  }

  function RecordKey(r: FullRecord, dump: Dump): seq<string> {
    [r.chunkId, r.callId, if r.parentCallId.Some? then r.parentCallId.value else "", dump(r.output)]
  }

  function RecordLeq(dump: Dump): (FullRecord, FullRecord) -> bool {
    (a: FullRecord, b: FullRecord) => TupleLeq(RecordKey(a, dump), RecordKey(b, dump))
  }

  function NormalizeEach(records: seq<Mapping>, str: TreeRendering): seq<FullRecord> {
    seq(|records|, i requires 0 <= i < |records| => NormalizeRecord(records[i], str))
  }

  function NormalizeRecords(records: seq<Mapping>, str: TreeRendering, dump: Dump): seq<FullRecord> {
    Sorted(NormalizeEach(records, str), RecordLeq(dump))
  }

  function ChildLeq(dump: Dump): (PromptChild, PromptChild) -> bool {
    (a: PromptChild, b: PromptChild) => TupleLeq([a.chunkId, dump(a.output)], [b.chunkId, dump(b.output)])
  }

  function ForPrompt(records: seq<FullRecord>): seq<PromptChild> {
    seq(|records|, i requires 0 <= i < |records| => PromptChild(records[i].chunkId, records[i].output))
  }

  function PromptChildren(records: seq<Mapping>, str: TreeRendering, dump: Dump): seq<PromptChild> {
    UniqueSorted(ForPrompt(NormalizeRecords(records, str, dump)), ChildLeq(dump))
  }

  method NormalizeRepairPromptChildRecords(records: seq<Mapping>, str: TreeRendering, dump: Dump) returns (children: seq<PromptChild>)
    ensures children == PromptChildren(records, str, dump)
  {
    children := UniqueSortedEntries(ForPrompt(NormalizeRecords(records, str, dump)), ChildLeq(dump));
  }

  // ---------- The manifest ----------

  datatype ManifestEntry = ManifestEntry(factId: string, chunkId: string, text: string)

  predicate AllowedLeq(a: Evidence, b: Evidence) {
    TupleLeq([a.factId, a.chunkId, if a.childCallId.Some? then a.childCallId.value else "", a.text],
             [b.factId, b.chunkId, if b.childCallId.Some? then b.childCallId.value else "", b.text])
  }

  predicate EntryLeq(a: ManifestEntry, b: ManifestEntry) {
    TupleLeq([a.factId, a.chunkId, a.text], [b.factId, b.chunkId, b.text])
  }

  function EntryOf(e: Evidence): ManifestEntry {
    ManifestEntry(e.factId, e.chunkId, e.text)
  }

  function Entries(manifest: seq<Evidence>): seq<ManifestEntry> {
    seq(|manifest|, i requires 0 <= i < |manifest| => EntryOf(manifest[i]))
  }

  function PromptManifest(manifest: seq<Evidence>): seq<ManifestEntry> {
    UniqueSorted(Entries(Sorted(manifest, AllowedLeq)), EntryLeq)
  }

  method NormalizeRepairPromptEvidenceManifest(manifest: seq<Evidence>) returns (entries: seq<ManifestEntry>)
    ensures entries == PromptManifest(manifest)
  {
    entries := UniqueSortedEntries(Entries(Sorted(manifest, AllowedLeq)), EntryLeq);
  }

  // ---------- The orders used ----------

  lemma TupleOrder<T(!new)>(key: T -> seq<string>, leq: (T, T) -> bool)
    requires forall a, b :: leq(a, b) <==> TupleLeq(key(a), key(b))
    ensures TotalPreorder(leq)
    ensures (forall a, b :: key(a) == key(b) ==> a == b) ==> Antisymmetric(leq)
  {
    forall a, b ensures leq(a, b) || leq(b, a) {
      TupleTotal(key(a), key(b));
    }
    forall a, b, c | leq(a, b) && leq(b, c) ensures leq(a, c) {
      TupleTransitive(key(a), key(b), key(c));
    }
    if forall a, b :: key(a) == key(b) ==> a == b {
      forall a, b | leq(a, b) && leq(b, a) ensures a == b {
        TupleAntisymmetric(key(a), key(b));
      }
    }
  }

  lemma FactOrder()
    ensures TotalPreorder(FactLeq) && Antisymmetric(FactLeq)
  {
    var key := (f: FactEntry) => [f.factId, f.chunkId, f.text];
    forall a: FactEntry, b: FactEntry | key(a) == key(b) ensures a == b {
      assert key(a)[0] == key(b)[0] && key(a)[1] == key(b)[1] && key(a)[2] == key(b)[2];
    }
    TupleOrder(key, FactLeq);
  }

  lemma EntryOrder()
    ensures TotalPreorder(EntryLeq) && Antisymmetric(EntryLeq)
  {
    var key := (e: ManifestEntry) => [e.factId, e.chunkId, e.text];
    forall a: ManifestEntry, b: ManifestEntry | key(a) == key(b) ensures a == b {
      assert key(a)[0] == key(b)[0] && key(a)[1] == key(b)[1] && key(a)[2] == key(b)[2];
    }
    TupleOrder(key, EntryLeq);
  }

  lemma TextOrder()
    ensures TotalPreorder(LexLeq) && Antisymmetric(LexLeq)
  {
    forall a: string, b: string ensures LexLeq(a, b) || LexLeq(b, a) {
      LexTotal(a, b);
    }
    forall a: string, b: string, c: string | LexLeq(a, b) && LexLeq(b, c) ensures LexLeq(a, c) {
      LexTransitive(a, b, c);
    }
    forall a: string, b: string | LexLeq(a, b) && LexLeq(b, a) ensures a == b {
      LexAntisymmetric(a, b);
    }
  }

  lemma ChildOrder(dump: Dump)
    requires Injective(dump)
    ensures TotalPreorder(ChildLeq(dump)) && Antisymmetric(ChildLeq(dump))
  {
    var key := (c: PromptChild) => [c.chunkId, dump(c.output)];
    forall a: PromptChild, b: PromptChild | key(a) == key(b) ensures a == b {
      assert key(a)[0] == key(b)[0] && key(a)[1] == key(b)[1];
    }
    TupleOrder(key, ChildLeq(dump));
  }

  // ---------- What the manifest and the children say ----------

  function ManifestSays(manifest: seq<Evidence>): set<ManifestEntry> {
    set e | e in manifest :: EntryOf(e)
  }

  /** A child as the prompt sees it: its chunk, and its facts and gaps in no order. */
  datatype Seen = Seen(chunkId: string, facts: multiset<FactEntry>, gaps: multiset<string>)

  function SeenIn(record: Mapping, str: TreeRendering): Seen {
    var raw := RawOutput(Lookup(record, "output"), str);
    Seen(Read(Lookup(record, "chunk_id"), str), multiset(raw.facts), multiset(raw.gaps))
  }

  function ChildrenSay(records: seq<Mapping>, str: TreeRendering): set<Seen> {
    set r | r in records :: SeenIn(r, str)
  }

  lemma EntriesMember(manifest: seq<Evidence>, entry: ManifestEntry)
    ensures entry in Entries(Sorted(manifest, AllowedLeq)) <==> entry in ManifestSays(manifest)
  {
    var sorted := Sorted(manifest, AllowedLeq);
    forall e ensures e in sorted <==> e in manifest {
      SortedMembers(manifest, AllowedLeq, e);
    }
    if entry in Entries(sorted) {
      var i :| 0 <= i < |sorted| && Entries(sorted)[i] == entry;
      assert sorted[i] in manifest;
    }
    if entry in ManifestSays(manifest) {
      var e :| e in manifest && EntryOf(e) == entry;
      var i :| 0 <= i < |sorted| && sorted[i] == e;
      assert Entries(sorted)[i] == entry;
    }
  }

  /** The manifest part is the same exactly for the same entries, in any order and however often. */
  lemma PromptManifestIff(a: seq<Evidence>, b: seq<Evidence>)
    ensures PromptManifest(a) == PromptManifest(b) <==> ManifestSays(a) == ManifestSays(b)
  {
    EntryOrder();
    UniqueSortedIff(Entries(Sorted(a, AllowedLeq)), Entries(Sorted(b, AllowedLeq)), EntryLeq);
    forall e ensures (e in Entries(Sorted(a, AllowedLeq)) <==> e in ManifestSays(a))
                  && (e in Entries(Sorted(b, AllowedLeq)) <==> e in ManifestSays(b)) {
      EntriesMember(a, e);
      EntriesMember(b, e);
    }
  }

  function PromptChildOf(record: Mapping, str: TreeRendering): PromptChild {
    var full := NormalizeRecord(record, str);
    PromptChild(full.chunkId, full.output)
  }

  lemma PromptChildIff(a: Mapping, b: Mapping, str: TreeRendering)
    ensures PromptChildOf(a, str) == PromptChildOf(b, str) <==> SeenIn(a, str) == SeenIn(b, str)
  {
    var x, y := RawOutput(Lookup(a, "output"), str), RawOutput(Lookup(b, "output"), str);
    FactOrder();
    TextOrder();
    SortedIff(x.facts, y.facts, FactLeq);
    SortedIff(x.gaps, y.gaps, LexLeq);
  }

  lemma FullRecordMember(records: seq<Mapping>, str: TreeRendering, dump: Dump, f: FullRecord)
    ensures f in NormalizeRecords(records, str, dump) <==> exists r :: r in records && NormalizeRecord(r, str) == f
  {
    SortedMembers(NormalizeEach(records, str), RecordLeq(dump), f);
    NormalizeEachIsMapped(records, str);
    MappedMember(records, (r: Mapping) => NormalizeRecord(r, str), f);
  }

  lemma PromptChildMember(records: seq<Mapping>, str: TreeRendering, dump: Dump, c: PromptChild)
    ensures c in ForPrompt(NormalizeRecords(records, str, dump)) <==> exists r :: r in records && PromptChildOf(r, str) == c
  {
    var full := NormalizeRecords(records, str, dump);
    var shorten := (f: FullRecord) => PromptChild(f.chunkId, f.output);
    assert ForPrompt(full) == Mapped(full, shorten);
    MappedMember(full, shorten, c);
    if f :| f in full && shorten(f) == c {
      FullRecordMember(records, str, dump, f);
    }
    if r :| r in records && PromptChildOf(r, str) == c {
      FullRecordMember(records, str, dump, NormalizeRecord(r, str));
      assert shorten(NormalizeRecord(r, str)) == c;
    }
  }

  /** The child part is the same exactly when the children say the same, whatever their order, repetition and call ids. */
  lemma PromptChildrenIff(a: seq<Mapping>, b: seq<Mapping>, str: TreeRendering, dump: Dump)
    requires Injective(dump)
    ensures PromptChildren(a, str, dump) == PromptChildren(b, str, dump) <==> ChildrenSay(a, str) == ChildrenSay(b, str)
  {
    ChildOrder(dump);
    var x, y := ForPrompt(NormalizeRecords(a, str, dump)), ForPrompt(NormalizeRecords(b, str, dump));
    UniqueSortedIff(x, y, ChildLeq(dump));
    if ChildrenSay(a, str) == ChildrenSay(b, str) {
      forall c ensures c in x <==> c in y {
        SameChildren(a, b, str, dump, c);
        SameChildren(b, a, str, dump, c);
      }
    }
    if forall c :: c in x <==> c in y {
      SameSayings(a, b, str, dump);
      SameSayings(b, a, str, dump);
    }
  }

  lemma SameChildren(a: seq<Mapping>, b: seq<Mapping>, str: TreeRendering, dump: Dump, c: PromptChild)
    requires ChildrenSay(a, str) == ChildrenSay(b, str)
    ensures c in ForPrompt(NormalizeRecords(a, str, dump)) ==> c in ForPrompt(NormalizeRecords(b, str, dump))
  {
    PromptChildMember(a, str, dump, c);
    PromptChildMember(b, str, dump, c);
    if r :| r in a && PromptChildOf(r, str) == c {
      assert SeenIn(r, str) in ChildrenSay(b, str);
      var r' :| r' in b && SeenIn(r', str) == SeenIn(r, str);
      PromptChildIff(r, r', str);
    }
  }

  lemma SameSayings(a: seq<Mapping>, b: seq<Mapping>, str: TreeRendering, dump: Dump)
    requires forall c :: c in ForPrompt(NormalizeRecords(a, str, dump)) ==> c in ForPrompt(NormalizeRecords(b, str, dump))
    ensures ChildrenSay(a, str) <= ChildrenSay(b, str)
  {
    forall s | s in ChildrenSay(a, str) ensures s in ChildrenSay(b, str) {
      var r :| r in a && SeenIn(r, str) == s;
      var c := PromptChildOf(r, str);
      PromptChildMember(a, str, dump, c);
      PromptChildMember(b, str, dump, c);
      var r' :| r' in b && PromptChildOf(r', str) == c;
      PromptChildIff(r, r', str);
    }
  }

  // ---------- The prompt input ----------

  datatype PromptInput = PromptInput(rejectedClaim: Tree, manifest: seq<ManifestEntry>, parent: Tree,
                                     children: seq<PromptChild>)

  /** What the protocol hands over. */
  datatype Contract = Contract(rejectedClaim: Tree, manifest: seq<Evidence>, parent: Tree, children: seq<Mapping>)

  /** The library behaviour the prompt depends on. */
  datatype Context = Context(volatile: KeyTest, str: TreeRendering, dump: Dump)

  function FromContract(c: Contract, x: Context): PromptInput {
    PromptInput(Stable(c.rejectedClaim, x.volatile), PromptManifest(c.manifest),
                Stable(c.parent, x.volatile), PromptChildren(c.children, x.str, x.dump))
  }

  ghost predicate WellFormedContract(c: Contract) {
    WellFormed(c.rejectedClaim) && WellFormed(c.parent)
  }

  ghost predicate SaysTheSame(a: Contract, b: Contract, x: Context) {
    && Meaning(a.rejectedClaim, x.volatile) == Meaning(b.rejectedClaim, x.volatile)
    && ManifestSays(a.manifest) == ManifestSays(b.manifest)
    && Meaning(a.parent, x.volatile) == Meaning(b.parent, x.volatile)
    && ChildrenSay(a.children, x.str) == ChildrenSay(b.children, x.str)
  }

  /**
    * Two repairs get the same prompt input exactly when they say the same: manifest entries and children as
    * sets, facts and gaps of a child as multisets, trees without key order and volatile keys.
    */
  lemma PromptInputIff(a: Contract, b: Contract, x: Context)
    requires WellFormedContract(a) && WellFormedContract(b) && Injective(x.dump)
    ensures FromContract(a, x) == FromContract(b, x) <==> SaysTheSame(a, b, x)
  {
    StableIffSameMeaning(a.rejectedClaim, b.rejectedClaim, x.volatile);
    PromptManifestIff(a.manifest, b.manifest);
    StableIffSameMeaning(a.parent, b.parent, x.volatile);
    PromptChildrenIff(a.children, b.children, x.str, x.dump);
  }

  // ---------- Canonicalising again ----------

  function EntryAsEvidence(e: ManifestEntry): Evidence {
    Evidence(e.factId, e.chunkId, e.text, None)
  }

  function ChildAsRecord(c: PromptChild): Mapping {
    [Member("chunk_id", TStr(c.chunkId)), Member("output", OutputAsTree(c.output))]
  }

  /** A prompt input read as a contract again. */
  function AsContract(p: PromptInput): Contract {
    Contract(p.rejectedClaim, EntriesAsEvidence(p.manifest), p.parent, ChildrenAsRecords(p.children))
  }

  lemma ChildReadsBack(c: PromptChild, str: TreeRendering)
    ensures SeenIn(ChildAsRecord(c), str) == Seen(c.chunkId, multiset(c.output.facts), multiset(c.output.gaps))
  {
    var m := ChildAsRecord(c);
    assert DistinctKeys(m);
    LookupMember(m, m[0]);
    LookupMember(m, m[1]);
    OutputReadsBack(c.output, str);
  }

  /** A record and the prompt's view of it say the same. */
  lemma PromptChildKeeps(record: Mapping, str: TreeRendering)
    ensures SeenIn(ChildAsRecord(PromptChildOf(record, str)), str) == SeenIn(record, str)
  {
    var raw := RawOutput(Lookup(record, "output"), str);
    FactOrder();
    TextOrder();
    SortedIsSorted(raw.facts, FactLeq);
    SortedIsSorted(raw.gaps, LexLeq);
    ChildReadsBack(PromptChildOf(record, str), str);
  }

  function ChildrenAsRecords(children: seq<PromptChild>): seq<Mapping> {
    seq(|children|, i requires 0 <= i < |children| => ChildAsRecord(children[i]))
  }

  lemma PromptChildrenMembers(records: seq<Mapping>, str: TreeRendering, dump: Dump, c: PromptChild)
    ensures c in PromptChildren(records, str, dump) <==> exists r :: r in records && PromptChildOf(r, str) == c
  {
    UniqueSortedMembers(ForPrompt(NormalizeRecords(records, str, dump)), ChildLeq(dump), c);
    PromptChildMember(records, str, dump, c);
  }

  lemma PromptChildrenSayNoMore(records: seq<Mapping>, str: TreeRendering, dump: Dump, i: nat)
    requires i < |PromptChildren(records, str, dump)|
    ensures SeenIn(ChildAsRecord(PromptChildren(records, str, dump)[i]), str) in ChildrenSay(records, str)
  {
    var child := PromptChildren(records, str, dump)[i];
    PromptChildrenMembers(records, str, dump, child);
    var r :| r in records && PromptChildOf(r, str) == child;
    PromptChildKeeps(r, str);
  }

  lemma PromptChildrenSayNoLess(records: seq<Mapping>, str: TreeRendering, dump: Dump, r: Mapping)
    requires r in records
    ensures SeenIn(r, str) in ChildrenSay(ChildrenAsRecords(PromptChildren(records, str, dump)), str)
  {
    var children := PromptChildren(records, str, dump);
    PromptChildrenMembers(records, str, dump, PromptChildOf(r, str));
    PromptChildKeeps(r, str);
    var i :| 0 <= i < |children| && children[i] == PromptChildOf(r, str);
    assert ChildrenAsRecords(children)[i] in ChildrenAsRecords(children);
  }

  lemma PromptChildrenKeep(records: seq<Mapping>, str: TreeRendering, dump: Dump)
    ensures ChildrenSay(ChildrenAsRecords(PromptChildren(records, str, dump)), str) == ChildrenSay(records, str)
  {
    var children := PromptChildren(records, str, dump);
    forall r | r in ChildrenAsRecords(children) ensures SeenIn(r, str) in ChildrenSay(records, str) {
      var i :| 0 <= i < |children| && ChildrenAsRecords(children)[i] == r;
      PromptChildrenSayNoMore(records, str, dump, i);
    }
    forall r | r in records ensures SeenIn(r, str) in ChildrenSay(ChildrenAsRecords(children), str) {
      PromptChildrenSayNoLess(records, str, dump, r);
    }
  }

  function EntriesAsEvidence(entries: seq<ManifestEntry>): seq<Evidence> {
    seq(|entries|, i requires 0 <= i < |entries| => EntryAsEvidence(entries[i]))
  }

  lemma PromptManifestKeeps(manifest: seq<Evidence>)
    ensures ManifestSays(EntriesAsEvidence(PromptManifest(manifest))) == ManifestSays(manifest)
  {
    var entries := PromptManifest(manifest);
    forall e ensures e in entries <==> e in ManifestSays(manifest) {
      UniqueSortedMembers(Entries(Sorted(manifest, AllowedLeq)), EntryLeq, e);
      EntriesMember(manifest, e);
    }
    forall e ensures e in ManifestSays(EntriesAsEvidence(entries)) <==> e in entries {
      if e in entries {
        var i :| 0 <= i < |entries| && entries[i] == e;
        assert EntriesAsEvidence(entries)[i] in EntriesAsEvidence(entries);
      }
    }
  }

  /** Canonicalising a prompt input again changes nothing. */
  lemma PromptInputIsFixed(c: Contract, x: Context)
    requires WellFormedContract(c) && Injective(x.dump)
    ensures FromContract(AsContract(FromContract(c, x)), x) == FromContract(c, x)
  {
    var again := AsContract(FromContract(c, x));
    StableKeepsMeaning(c.rejectedClaim, x.volatile);
    StableKeepsMeaning(c.parent, x.volatile);
    PromptManifestKeeps(c.manifest);
    PromptChildrenKeep(c.children, x.str, x.dump);
    PromptInputIff(again, c, x);
  }

  /** The prompt's input as the source builds it: taken from the contract, then canonicalised a second time. */
  method TraceguardRepairPromptPayload(c: Contract, x: Context) returns (input: PromptInput)
    requires WellFormedContract(c) && Injective(x.dump)
    ensures input == FromContract(c, x)
  {
    var once := FromContractInputs(c, x);
    input := FromContractInputs(AsContract(once), x);
    PromptInputIsFixed(c, x);
  }

  method FromContractInputs(c: Contract, x: Context) returns (input: PromptInput)
    ensures input == FromContract(c, x)
  {
    var manifest := NormalizeRepairPromptEvidenceManifest(c.manifest);
    var children := NormalizeRepairPromptChildRecords(c.children, x.str, x.dump);
    input := PromptInput(Stable(c.rejectedClaim, x.volatile), manifest, Stable(c.parent, x.volatile), children);
  }

  // ---------- When the full records forget the input order ----------

  /** The records differ only in that one has no parent call id and the other an empty one. */
  predicate Tie(x: FullRecord, y: FullRecord) {
    x.parentCallId == None && y == x.(parentCallId := Some(""))
  }

  ghost predicate TieFree(records: seq<FullRecord>) {
    forall x, y :: x in records && y in records ==> !Tie(x, y)
  }

  lemma RecordOrder(dump: Dump)
    ensures TotalPreorder(RecordLeq(dump))
  {
    TupleOrder((r: FullRecord) => RecordKey(r, dump), RecordLeq(dump));
  }

  /** Records whose keys tie are equal or differ in that way. */
  lemma TiedRecords(x: FullRecord, y: FullRecord, dump: Dump)
    requires Injective(dump) && RecordLeq(dump)(x, y) && RecordLeq(dump)(y, x)
    ensures x == y || Tie(x, y) || Tie(y, x)
  {
    var a, b := RecordKey(x, dump), RecordKey(y, dump);
    TupleAntisymmetric(a, b);
    assert a[0] == b[0] && a[1] == b[1] && a[2] == b[2] && a[3] == b[3];
  }

  lemma TieFreeHasNoTies(records: seq<FullRecord>, dump: Dump)
    requires Injective(dump) && TieFree(records)
    ensures NoTies(Sorted(records, RecordLeq(dump)), RecordLeq(dump))
  {
    var sorted := Sorted(records, RecordLeq(dump));
    forall x, y | x in sorted && y in sorted && RecordLeq(dump)(x, y) && RecordLeq(dump)(y, x) ensures x == y {
      SortedMembers(records, RecordLeq(dump), x);
      SortedMembers(records, RecordLeq(dump), y);
      TiedRecords(x, y, dump);
    }
  }

  lemma NormalizeEachIsMapped(records: seq<Mapping>, str: TreeRendering)
    ensures NormalizeEach(records, str) == Mapped(records, (r: Mapping) => NormalizeRecord(r, str))
  {
  }

  lemma NormalizeEachPermutes(a: seq<Mapping>, b: seq<Mapping>, str: TreeRendering)
    requires multiset(a) == multiset(b)
    ensures multiset(NormalizeEach(a, str)) == multiset(NormalizeEach(b, str))
  {
    var f := (r: Mapping) => NormalizeRecord(r, str);
    NormalizeEachIsMapped(a, str);
    NormalizeEachIsMapped(b, str);
    MappedPermutes(a, b, f);
  }

  lemma TieFreeForgetsOrder(a: seq<Mapping>, b: seq<Mapping>, str: TreeRendering, dump: Dump)
    requires Injective(dump) && TieFree(NormalizeEach(a, str)) && multiset(a) == multiset(b)
    ensures NormalizeRecords(a, str, dump) == NormalizeRecords(b, str, dump)
  {
    RecordOrder(dump);
    TieFreeHasNoTies(NormalizeEach(a, str), dump);
    NormalizeEachPermutes(a, b, str);
    SortedIsSorted(NormalizeEach(a, str), RecordLeq(dump));
    SortedIsSorted(NormalizeEach(b, str), RecordLeq(dump));
    SortedListsEqual(NormalizeRecords(a, str, dump), NormalizeRecords(b, str, dump), RecordLeq(dump));
  }

  /** Two tied records, put first in either order, come out in that order. */
  lemma TieKeepsInputOrder(p: Mapping, q: Mapping, rest: seq<Mapping>, str: TreeRendering, dump: Dump)
    ensures Tie(NormalizeRecord(p, str), NormalizeRecord(q, str)) ==>
              NormalizeRecords([p, q] + rest, str, dump) != NormalizeRecords([q, p] + rest, str, dump)
  {
    var x, y := NormalizeRecord(p, str), NormalizeRecord(q, str);
    NormalizeTwo(p, q, rest, str);
    NormalizeTwo(q, p, rest, str);
    if Tie(x, y) {
      RecordOrder(dump);
      TieIsTied(x, y, dump);
      SortedTieKeepsOrder(x, y, NormalizeEach(rest, str), RecordLeq(dump));
    }
  }

  lemma TieIsTied(x: FullRecord, y: FullRecord, dump: Dump)
    requires Tie(x, y)
    ensures RecordLeq(dump)(x, y) && RecordLeq(dump)(y, x) && x != y
  {
    assert RecordKey(x, dump) == RecordKey(y, dump);
    TupleTotal(RecordKey(x, dump), RecordKey(y, dump));
  }

  lemma NormalizeTwo(p: Mapping, q: Mapping, rest: seq<Mapping>, str: TreeRendering)
    ensures NormalizeEach([p, q] + rest, str) == [NormalizeRecord(p, str), NormalizeRecord(q, str)] + NormalizeEach(rest, str)
  {
    NormalizeEachIsMapped([p, q] + rest, str);
    NormalizeEachIsMapped(rest, str);
    MappedTwo(p, q, rest, (r: Mapping) => NormalizeRecord(r, str));
  }

  lemma TwoToFront(a: seq<Mapping>, p: Mapping, q: Mapping) returns (rest: seq<Mapping>)
    requires p in a && q in a && p != q
    ensures multiset(a) == multiset([p, q] + rest) == multiset([q, p] + rest)
  {
    var others := MovedToFront(a, p);
    assert q in multiset(a);
    assert q in [p] + others;
    rest := MovedToFront(others, q);
    assert [p, q] + rest == [p] + ([q] + rest);
    assert multiset([p] + others) == multiset([p]) + multiset(others);
    assert multiset([p] + ([q] + rest)) == multiset([p]) + multiset([q] + rest);
    assert multiset([p, q] + rest) == multiset([p, q]) + multiset(rest);
    assert multiset([q, p] + rest) == multiset([q, p]) + multiset(rest);
    assert multiset([p, q]) == multiset([q, p]);
  }

  /** Every rearrangement of the records gives the same list. */
  ghost predicate ForgetsOrder(a: seq<Mapping>, str: TreeRendering, dump: Dump) {
    forall b: seq<Mapping> | multiset(b) == multiset(a) :: NormalizeRecords(b, str, dump) == NormalizeRecords(a, str, dump)
  }

  /** The full records depend on the input order exactly when two of them differ only by a missing against an empty
      parent call id. */
  lemma FullRecordsForgetOrderIff(a: seq<Mapping>, str: TreeRendering, dump: Dump)
    requires Injective(dump)
    ensures ForgetsOrder(a, str, dump) <==> TieFree(NormalizeEach(a, str))
  {
    if TieFree(NormalizeEach(a, str)) {
      forall b: seq<Mapping> | multiset(b) == multiset(a)
        ensures NormalizeRecords(b, str, dump) == NormalizeRecords(a, str, dump)
      {
        TieFreeForgetsOrder(a, b, str, dump);
      }
    }
    if ForgetsOrder(a, str, dump) {
      forall x, y | x in NormalizeEach(a, str) && y in NormalizeEach(a, str) ensures !Tie(x, y) {
        ForgettingHasNoTie(a, str, dump, x, y);
      }
    }
  }

  lemma ForgettingHasNoTie(a: seq<Mapping>, str: TreeRendering, dump: Dump, x: FullRecord, y: FullRecord)
    requires ForgetsOrder(a, str, dump) && x in NormalizeEach(a, str) && y in NormalizeEach(a, str)
    ensures !Tie(x, y)
  {
    var i :| 0 <= i < |a| && NormalizeRecord(a[i], str) == x;
    var j :| 0 <= j < |a| && NormalizeRecord(a[j], str) == y;
    if a[i] != a[j] {
      var rest := TwoToFront(a, a[i], a[j]);
      BothOrdersSame(a, a[i], a[j], rest, str, dump);
    }
  }

  lemma BothOrdersSame(a: seq<Mapping>, p: Mapping, q: Mapping, rest: seq<Mapping>, str: TreeRendering, dump: Dump)
    requires ForgetsOrder(a, str, dump) && multiset(a) == multiset([p, q] + rest) == multiset([q, p] + rest)
    ensures !Tie(NormalizeRecord(p, str), NormalizeRecord(q, str))
  {
    OrderForgotten(a, [p, q] + rest, str, dump);
    OrderForgotten(a, [q, p] + rest, str, dump);
    TieKeepsInputOrder(p, q, rest, str, dump);
  }

  lemma OrderForgotten(a: seq<Mapping>, b: seq<Mapping>, str: TreeRendering, dump: Dump)
    requires ForgetsOrder(a, str, dump) && multiset(b) == multiset(a)
    ensures NormalizeRecords(b, str, dump) == NormalizeRecords(a, str, dump)
  {
  }
}
