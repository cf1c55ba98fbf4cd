/** What a repair prompt is given, field by field and in which order. */
module PromptMeaning {
  import opened Options
  import opened Json
  import opened Text
  import opened Ordering
  import opened TraceGuard
  import opened CanonicalJson
  import opened ChildRecords
  import opened RepairPrompt
  import opened ClaimMeaning

  // ---------- Canonical objects ----------

  /** The keys of a canonical object ascend, and none of them is run-specific. */
  lemma StableKeysAscend(members: seq<Member>, volatile: KeyTest)
    requires WellFormed(TObj(members))
    ensures Stable(TObj(members), volatile).TObj?
    ensures var stable := Stable(TObj(members), volatile).members;
            && (forall i, j :: 0 <= i < j < |stable| ==> LexLeq(stable[i].key, stable[j].key) && stable[i].key != stable[j].key)
            && (forall i :: 0 <= i < |stable| ==> !volatile(stable[i].key))
  {
    StableKeepsMeaning(TObj(members), volatile);
  }

  // ---------- What is read of a child ----------

  /** The value under a key as text: nothing when absent or null, a string as it is, the rest rendered. */
  function TextAt(m: Mapping, key: string, str: TreeRendering): string {
    match Lookup(m, key)
    case TNull => ""
    case TStr(s) => s
    case v => str(v)
  }

  function ItemTexts(m: Mapping, key: string, str: TreeRendering): seq<string> {
    match Lookup(m, key)
    case TArr(items) =>
      seq(|items|, i requires 0 <= i < |items| =>
        match items[i]
        case TNull => ""
        case TStr(s) => s
        case v => str(v))
    case _ => []
  }

  function FirstText(texts: seq<string>): string {
    if texts == [] then "" else if texts[0] != "" then texts[0] else FirstText(texts[1..])
  }

  lemma {:induction false} FirstTextIs(ts: seq<Tree>, str: TreeRendering)
    ensures FirstRead(ts, str) == FirstText(Reads(ts, str))
  {
    if ts != [] {
      FirstTextIs(ts[1..], str);
      assert Reads(ts, str)[1..] == Reads(ts[1..], str);
    }
  }

  lemma ReadsUnder(m: Mapping, keys: seq<string>, str: TreeRendering)
    ensures |Reads(Under(m, keys), str)| == |keys|
    ensures forall i :: 0 <= i < |keys| ==> Reads(Under(m, keys), str)[i] == TextAt(m, keys[i], str)
  {
  }

  /** The chunk of an observed fact: `chunk_id`, failing that `evidence_chunk_id`, failing that `source_chunk_id`. */
  lemma ChunkIdMeans(m: Mapping, str: TreeRendering)
    ensures ChunkIdOf(m, str)
         == FirstText([TextAt(m, "chunk_id", str), TextAt(m, "evidence_chunk_id", str), TextAt(m, "source_chunk_id", str)])
  {
    FirstTextIs(Under(m, CHUNK_KEYS), str);
    ReadsUnder(m, CHUNK_KEYS, str);
    assert Reads(Under(m, CHUNK_KEYS), str)
        == [TextAt(m, "chunk_id", str), TextAt(m, "evidence_chunk_id", str), TextAt(m, "source_chunk_id", str)];
  }

  /** The text: the stated texts line by line; without any, the first text field that reads as something. */
  lemma TextMeans(m: Mapping, str: TreeRendering)
    ensures TextOf(m, str) ==
            if StatedText(Unordered(m)) != "" then StatedText(Unordered(m))
            else FirstText([TextAt(m, "quoted_evidence", str), TextAt(m, "text", str), TextAt(m, "statement", str),
                            TextAt(m, "claim", str), TextAt(m, "summary", str)])
  {
    TextIsStated(Unordered(m));
    FirstTextIs(Under(m, CLAIM_TEXT_KEYS), str);
    FiveTextsRead(m, str);
  }

  lemma FiveTextsRead(m: Mapping, str: TreeRendering)
    ensures Reads(Under(m, CLAIM_TEXT_KEYS), str)
         == [TextAt(m, "quoted_evidence", str), TextAt(m, "text", str), TextAt(m, "statement", str),
             TextAt(m, "claim", str), TextAt(m, "summary", str)]
  {
    ReadsUnder(m, CLAIM_TEXT_KEYS, str);
  }

  lemma ItemsRead(m: Mapping, key: string, str: TreeRendering)
    ensures Reads(ItemsOf(Lookup(m, key)), str) == ItemTexts(m, key, str)
  {
  }

  lemma ReadsJoin(a: seq<Tree>, b: seq<Tree>, str: TreeRendering)
    ensures Reads(a + b, str) == Reads(a, str) + Reads(b, str)
  {
  }

  lemma ListsRead(m: Mapping, keys: seq<string>, str: TreeRendering)
    requires |keys| == 3
    ensures Reads(ListedUnder(m, keys), str) == ItemTexts(m, keys[0], str) + ItemTexts(m, keys[1], str) + ItemTexts(m, keys[2], str)
  {
    assert keys[..2][..1] == keys[..1] && keys[..1][..0] == [];
    assert ListedUnder(m, keys[..1]) == ItemsOf(Lookup(m, keys[0]));
    ItemsRead(m, keys[0], str);
    ItemsRead(m, keys[1], str);
    ItemsRead(m, keys[2], str);
    ReadsJoin(ListedUnder(m, keys[..1]), ItemsOf(Lookup(m, keys[1])), str);
    ReadsJoin(ListedUnder(m, keys[..2]), ItemsOf(Lookup(m, keys[2])), str);
  }

  function FactTexts(m: Mapping, str: TreeRendering): seq<string> {
    [TextAt(m, "fact_id", str), TextAt(m, "supports_fact_id", str)]
    + (ItemTexts(m, "fact_ids", str) + ItemTexts(m, "supports_fact_ids", str) + ItemTexts(m, "supported_fact_ids", str))
  }

  lemma FactTextsAre(m: Mapping, str: TreeRendering)
    ensures Reads(FactIdCandidates(m), str) == FactTexts(m, str)
  {
    ReadsJoin(Under(m, CLAIM_FACT_KEYS), ListedUnder(m, CLAIM_FACT_LIST_KEYS), str);
    TwoTexts(m, str);
    ListsRead(m, CLAIM_FACT_LIST_KEYS, str);
  }

  lemma TwoTexts(m: Mapping, str: TreeRendering)
    ensures Reads(Under(m, CLAIM_FACT_KEYS), str) == [TextAt(m, "fact_id", str), TextAt(m, "supports_fact_id", str)]
  {
    ReadsUnder(m, CLAIM_FACT_KEYS, str);
  }

  /** The fact: the first that the mapping names by a string; without one, the first fact field that reads as something. */
  lemma FactIdMeans(m: Mapping, str: TreeRendering)
    ensures if exists f :: NamesFact(Unordered(m), f) then FirstFact(Unordered(m), FactIdOf(m, str))
            else FactIdOf(m, str) == FirstText(FactTexts(m, str))
  {
    NoFactNamed(Unordered(m));
    if SupportedFactIds(Unordered(m)) != [] {
      FirstFactIs(Unordered(m), FactIdOf(m, str));
    } else {
      FirstTextIs(FactIdCandidates(m), str);
      FactTextsAre(m, str);
    }
  }

  /** The facts of an output are read from the objects it lists, in order, each by these three readings. */
  lemma FactEntryMeans(m: Mapping, str: TreeRendering)
    ensures FactEntryOf(m, str) == FactEntry(FactIdOf(m, str), ChunkIdOf(m, str), TextOf(m, str))
    ensures FactEntriesOf([TObj(m)], str) == [FactEntryOf(m, str)]
  {
    assert [TObj(m)][..0] == [];
    assert Mappings([TObj(m)]) == [m];
  }

  // ---------- The order of the parts ----------

  /** A child in the prompt: facts by id, chunk and text, gaps by text. */
  lemma ChildIsSorted(record: Mapping, str: TreeRendering)
    ensures var output := PromptChildOf(record, str).output;
            && (forall i, j :: 0 <= i < j < |output.facts| ==>
                  TupleLeq([output.facts[i].factId, output.facts[i].chunkId, output.facts[i].text],
                           [output.facts[j].factId, output.facts[j].chunkId, output.facts[j].text]))
            && (forall i, j :: 0 <= i < j < |output.gaps| ==> LexLeq(output.gaps[i], output.gaps[j]))
  {
    var raw := RawOutput(Lookup(record, "output"), str);
    FactOrder();
    TextOrder();
    SortedIsSorted(raw.facts, FactLeq);
    SortedIsSorted(raw.gaps, LexLeq);
  }

  /** The children: by chunk and then by the text of their output, none twice, each that of some record. */
  lemma ChildrenAreSorted(records: seq<Mapping>, str: TreeRendering, dump: Dump)
    requires Injective(dump)
    ensures var cs := PromptChildren(records, str, dump);
            && (forall i, j :: 0 <= i < j < |cs| ==>
                  TupleLeq([cs[i].chunkId, dump(cs[i].output)], [cs[j].chunkId, dump(cs[j].output)]) && cs[i] != cs[j])
            && (forall c :: c in cs <==> exists r :: r in records && PromptChildOf(r, str) == c)
  {
    var all := ForPrompt(NormalizeRecords(records, str, dump));
    ChildOrder(dump);
    SortedIsSorted(all, ChildLeq(dump));
    DedupStaysSorted(Sorted(all, ChildLeq(dump)), ChildLeq(dump));
    forall c ensures c in PromptChildren(records, str, dump) <==> exists r :: r in records && PromptChildOf(r, str) == c {
      PromptChildrenMembers(records, str, dump, c);
    }
  }

  /** The manifest: by fact, chunk and text, none twice, each entry the three fields of an evidence. */
  lemma ManifestIsSorted(manifest: seq<Evidence>)
    ensures var es := PromptManifest(manifest);
            && (forall i, j :: 0 <= i < j < |es| ==>
                  TupleLeq([es[i].factId, es[i].chunkId, es[i].text], [es[j].factId, es[j].chunkId, es[j].text])
                  && es[i] != es[j])
            && (forall e :: e in es <==> exists x :: x in manifest && e == ManifestEntry(x.factId, x.chunkId, x.text))
  {
    var all := Entries(Sorted(manifest, AllowedLeq));
    EntryOrder();
    SortedIsSorted(all, EntryLeq);
    DedupStaysSorted(Sorted(all, EntryLeq), EntryLeq);
    forall e ensures e in PromptManifest(manifest)
                     <==> exists x :: x in manifest && e == ManifestEntry(x.factId, x.chunkId, x.text) {
      UniqueSortedMembers(all, EntryLeq, e);
      EntriesMember(manifest, e);
    }
  }

  /** The full records: by chunk, call, parent call (an absent one like an empty one) and the text of their output. */
  lemma RecordsAreSorted(records: seq<Mapping>, str: TreeRendering, dump: Dump, i: nat, j: nat)
    requires i < j < |NormalizeRecords(records, str, dump)|
    ensures var a, b := NormalizeRecords(records, str, dump)[i], NormalizeRecords(records, str, dump)[j];
            TupleLeq([a.chunkId, a.callId, Given(a.parentCallId), dump(a.output)],
                     [b.chunkId, b.callId, Given(b.parentCallId), dump(b.output)])
  {
    RecordOrder(dump);
    SortedIsSorted(NormalizeEach(records, str), RecordLeq(dump));
  }

  function Given(o: Option<string>): string {
    match o
    case Some(s) => s
    case None => ""
  }

  /** A full record: the four fields of the record, an absent parent call id told from an empty one. */
  lemma FullRecordMeans(record: Mapping, str: TreeRendering)
    ensures var f := NormalizeRecord(record, str);
            && f.callId == TextAt(record, "call_id", str) && f.chunkId == TextAt(record, "chunk_id", str)
            && (f.parentCallId == None <==> Lookup(record, "parent_call_id") == TNull)
            && Given(f.parentCallId) == TextAt(record, "parent_call_id", str)
            && PromptChildOf(record, str) == PromptChild(f.chunkId, f.output)
  {
  }
}
