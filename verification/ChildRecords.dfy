/** Child records as a run leaves them, key order included, and the texts the repair prompt reads from them. */
module ChildRecords {
  import opened Options
  import opened Json
  import opened Text
  import opened Ordering
  import opened TraceGuard
  import opened CanonicalJson

  /** A JSON object as its members in insertion order. */
  type Mapping = seq<Member>

  /** `str()` of a JSON value that is neither null nor a string: it shows key order and every key. */
  type TreeRendering = Tree -> string

  datatype FactEntry = FactEntry(factId: string, chunkId: string, text: string)

  datatype ChildOutput = ChildOutput(facts: seq<FactEntry>, gaps: seq<string>)

  function Read(t: Tree, str: TreeRendering): string {
    match t
    case TNull => ""
    case TStr(s) => s
    case _ => str(t)
  }

  function Reads(ts: seq<Tree>, str: TreeRendering): seq<string> {
    seq(|ts|, i requires 0 <= i < |ts| => Read(ts[i], str))
  }

  /** The first candidate that does not read as the empty string. */
  function FirstRead(candidates: seq<Tree>, str: TreeRendering): string {
    if candidates == [] then ""
    else if Read(candidates[0], str) != "" then Read(candidates[0], str)
    else FirstRead(candidates[1..], str)
  }

  function ItemsOf(t: Tree): seq<Tree> {
    match t
    case TArr(items) => items
    case _ => []
  }

  function Under(m: Mapping, keys: seq<string>): seq<Tree> {
    seq(|keys|, i requires 0 <= i < |keys| => Lookup(m, keys[i]))
  }

  function ListedUnder(m: Mapping, keys: seq<string>): seq<Tree> {
    if keys == [] then []
    else ListedUnder(m, keys[..|keys| - 1]) + ItemsOf(Lookup(m, keys[|keys| - 1]))
  }

  function FactIdCandidates(m: Mapping): seq<Tree> {
    Under(m, CLAIM_FACT_KEYS) + ListedUnder(m, CLAIM_FACT_LIST_KEYS)
  }

  function FactIdOf(m: Mapping, str: TreeRendering): string {
    var factIds := SupportedFactIds(Unordered(m));
    if factIds != [] then factIds[0] else FirstRead(FactIdCandidates(m), str)
  }

  function ChunkIdOf(m: Mapping, str: TreeRendering): string {
    FirstRead(Under(m, CHUNK_KEYS), str)
  }

  function TextOf(m: Mapping, str: TreeRendering): string {
    var text := ClaimText(Unordered(m));
    if text != "" then text else FirstRead(Under(m, CLAIM_TEXT_KEYS), str)
  }

  function FactEntryOf(m: Mapping, str: TreeRendering): FactEntry {
    FactEntry(FactIdOf(m, str), ChunkIdOf(m, str), TextOf(m, str))
  }

  /** The objects in a list, in order. */
  function Mappings(items: seq<Tree>): seq<Mapping> {
    if items == [] then []
    else
      var last := items[|items| - 1];
      Mappings(items[..|items| - 1]) + if last.TObj? then [last.members] else []
  }

  function FactEntriesOf(items: seq<Tree>, str: TreeRendering): seq<FactEntry> {
    var facts := Mappings(items);
    seq(|facts|, i requires 0 <= i < |facts| => FactEntryOf(facts[i], str))
  }

  function NonNull(items: seq<Tree>): seq<Tree> {
    if items == [] then []
    else
      var last := items[|items| - 1];
      NonNull(items[..|items| - 1]) + if last.TNull? then [] else [last]
  }

  /** The lists of observed facts and residual gaps of a raw output; anything but an object has none. */
  function ListIn(output: Tree, key: string): seq<Tree> {
    if output.TObj? then ItemsOf(Lookup(output.members, key)) else []
  }

  /** The facts and gaps as read, in their order. */
  function RawOutput(output: Tree, str: TreeRendering): ChildOutput {
    ChildOutput(FactEntriesOf(ListIn(output, "observed_facts"), str),
                Reads(NonNull(ListIn(output, "residual_gaps")), str))
  }

  predicate FactLeq(a: FactEntry, b: FactEntry) {
    TupleLeq([a.factId, a.chunkId, a.text], [b.factId, b.chunkId, b.text])
  }

  function SortedOutput(output: ChildOutput): ChildOutput {
    ChildOutput(Sorted(output.facts, FactLeq), Sorted(output.gaps, LexLeq))
  }

  method NormalizeChildObservedFacts(value: Tree, str: TreeRendering) returns (facts: seq<FactEntry>)
    ensures facts == Sorted(FactEntriesOf(ItemsOf(value), str), FactLeq)
  {
    var items := ItemsOf(value);
    facts := [];
    for i := 0 to |items|
      invariant facts == FactEntriesOf(items[..i], str)
    {
      OneMoreFact(items[..i], items[i], str);
      assert items[..i + 1] == items[..i] + [items[i]];
      if items[i].TObj? {
        facts := facts + [FactEntryOf(items[i].members, str)];
      }
    }
    assert items[..|items|] == items;
    facts := Sorted(facts, FactLeq);
  }

  lemma OneMoreFact(items: seq<Tree>, t: Tree, str: TreeRendering)
    ensures FactEntriesOf(items + [t], str)
         == FactEntriesOf(items, str) + FactsFrom(str)(t)
  {
    assert (items + [t])[..|items|] == items;
  }

  /** What one item of a list contributes. */
  function FactsFrom(str: TreeRendering): Tree -> seq<FactEntry> {
    (t: Tree) => if t.TObj? then [FactEntryOf(t.members, str)] else []
  }

  function GapsFrom(str: TreeRendering): Tree -> seq<string> {
    (t: Tree) => if t.TNull? then [] else [Read(t, str)]
  }

  lemma {:induction false} FactsAreFlat(items: seq<Tree>, str: TreeRendering)
    ensures FactEntriesOf(items, str) == FlatMapped(items, FactsFrom(str))
  {
    if items == [] {
      assert Mappings(items) == [];
    } else {
      var front, last := items[..|items| - 1], items[|items| - 1];
      assert items == front + [last];
      FactsAreFlat(front, str);
      FlatStep(front, last, str);
    }
  }

  lemma FlatStep(front: seq<Tree>, last: Tree, str: TreeRendering)
    requires FactEntriesOf(front, str) == FlatMapped(front, FactsFrom(str))
    ensures FactEntriesOf(front + [last], str) == FlatMapped(front + [last], FactsFrom(str))
  {
    OneMoreFact(front, last, str);
    FlatMappedSnoc(front, last, FactsFrom(str));
  }

  lemma {:induction false} GapsAreFlat(items: seq<Tree>, str: TreeRendering)
    ensures Reads(NonNull(items), str) == FlatMapped(items, GapsFrom(str))
  {
    if items != [] {
      GapsAreFlat(items[..|items| - 1], str);
    }
  }

  /** Reordering the observed facts and the gaps reorders what is read. */
  lemma RearrangedLists(a: seq<Tree>, b: seq<Tree>, str: TreeRendering)
    requires multiset(a) == multiset(b)
    ensures multiset(FactEntriesOf(a, str)) == multiset(FactEntriesOf(b, str))
    ensures multiset(Reads(NonNull(a), str)) == multiset(Reads(NonNull(b), str))
  {
    FactsAreFlat(a, str);
    FactsAreFlat(b, str);
    GapsAreFlat(a, str);
    GapsAreFlat(b, str);
    FlatMappedPermutes(a, b, FactsFrom(str));
    FlatMappedPermutes(a, b, GapsFrom(str));
  }

  // ---------- Canonical outputs read back ----------

  function FactAsMapping(f: FactEntry): Mapping {
    [Member("fact_id", TStr(f.factId)), Member(HANDLE_KEY, TStr(f.chunkId)), Member("text", TStr(f.text))]
  }

  function FactsAsTrees(facts: seq<FactEntry>): seq<Tree> {
    seq(|facts|, i requires 0 <= i < |facts| => TObj(FactAsMapping(facts[i])))
  }

  function TextsAsTrees(texts: seq<string>): seq<Tree> {
    seq(|texts|, i requires 0 <= i < |texts| => TStr(texts[i]))
  }

  function OutputAsTree(output: ChildOutput): Tree {
    TObj([Member("observed_facts", TArr(FactsAsTrees(output.facts))),
          Member("residual_gaps", TArr(TextsAsTrees(output.gaps)))])
  }

  /** The mapping has no read key but these three. */
  ghost predicate OnlyFactKeys(m: Mapping) {
    forall k :: k in Keys(m) ==> k == "fact_id" || k == HANDLE_KEY || k == "text"
  }

  lemma FactMapping(f: FactEntry)
    ensures var m := FactAsMapping(f);
            && OnlyFactKeys(m) && DistinctKeys(m)
            && Lookup(m, "fact_id") == TStr(f.factId) && Lookup(m, HANDLE_KEY) == TStr(f.chunkId)
            && Lookup(m, "text") == TStr(f.text)
  {
    var m := FactAsMapping(f);
    assert DistinctKeys(m);
    LookupMember(m, m[0]);
    LookupMember(m, m[1]);
    LookupMember(m, m[2]);
  }

  lemma MissingKey(m: Mapping, key: string)
    requires key !in Keys(m)
    ensures Lookup(m, key) == TNull && key !in Unordered(m)
  {
    forall i | 0 <= i < |m| ensures m[i].key != key {
      assert m[i] in m;
    }
  }

  lemma {:induction false} FirstReadOnly(s: seq<Tree>, i: nat, str: TreeRendering)
    requires forall j :: 0 <= j < |s| && j != i ==> Read(s[j], str) == ""
    ensures FirstRead(s, str) == if i < |s| then Read(s[i], str) else ""
  {
    if s != [] {
      FirstReadOnly(s[1..], if i > 0 then i - 1 else |s|, str);
    }
  }

  /** Only one of the keys is there: its reading is the first. */
  lemma FirstUnderOnly(m: Mapping, keys: seq<string>, i: nat, str: TreeRendering)
    requires i < |keys| && forall j :: 0 <= j < |keys| && j != i ==> keys[j] !in Keys(m)
    ensures FirstRead(Under(m, keys), str) == Read(Lookup(m, keys[i]), str)
  {
    forall j | 0 <= j < |keys| && j != i ensures Under(m, keys)[j] == TNull {
      MissingKey(m, keys[j]);
    }
    FirstReadOnly(Under(m, keys), i, str);
  }

  lemma {:induction false} NothingListed(m: Mapping, keys: seq<string>)
    requires forall j :: 0 <= j < |keys| ==> keys[j] !in Keys(m)
    ensures ListedUnder(m, keys) == []
  {
    if keys != [] {
      NothingListed(m, keys[..|keys| - 1]);
      MissingKey(m, keys[|keys| - 1]);
    }
  }

  lemma UnorderedOnly(m: Mapping)
    requires OnlyFactKeys(m)
    ensures forall k :: k in Unordered(m) ==> k == "fact_id" || k == HANDLE_KEY || k == "text"
  {
    forall k | k in Unordered(m) ensures k in Keys(m) {
    }
  }

  lemma SupportedReadsBack(m: Mapping, factId: string)
    requires OnlyFactKeys(m) && Lookup(m, "fact_id") == TStr(factId)
    ensures SupportedFactIds(Unordered(m)) == if factId != "" then [factId] else []
  {
    UnorderedOnly(m);
    LookupMeaning(m, "fact_id", NO_KEY);
    SingleFactId(Unordered(m));
  }

  lemma CandidateReadsBack(m: Mapping, factId: string, str: TreeRendering)
    requires OnlyFactKeys(m) && Lookup(m, "fact_id") == TStr(factId)
    ensures FirstRead(FactIdCandidates(m), str) == factId
  {
    NothingListed(m, CLAIM_FACT_LIST_KEYS);
    FirstUnderOnly(m, CLAIM_FACT_KEYS, 0, str);
    assert FactIdCandidates(m) == Under(m, CLAIM_FACT_KEYS);
  }

  lemma FactIdReadsBack(m: Mapping, factId: string, str: TreeRendering)
    requires OnlyFactKeys(m) && Lookup(m, "fact_id") == TStr(factId)
    ensures FactIdOf(m, str) == factId
  {
    SupportedReadsBack(m, factId);
    CandidateReadsBack(m, factId, str);
  }

  lemma ClaimTextReadsBack(m: Mapping, text: string)
    requires OnlyFactKeys(m) && Lookup(m, "text") == TStr(text)
    ensures ClaimText(Unordered(m)) == text
  {
    NoOtherText(m);
    LookupMeaning(m, "text", NO_KEY);
    assert NonEmptyString(Unordered(m), "text") == if text != "" then Some(text) else None;
    StringsUnderOnly(Unordered(m), CLAIM_TEXT_KEYS, 1);
  }

  lemma NoOtherText(m: Mapping)
    requires OnlyFactKeys(m)
    ensures forall j :: 0 <= j < |CLAIM_TEXT_KEYS| && j != 1 ==> CLAIM_TEXT_KEYS[j] !in Unordered(m)
  {
    UnorderedOnly(m);
  }

  lemma TextReadsBack(m: Mapping, text: string, str: TreeRendering)
    requires OnlyFactKeys(m) && Lookup(m, "text") == TStr(text)
    ensures TextOf(m, str) == text
  {
    ClaimTextReadsBack(m, text);
    FirstUnderOnly(m, CLAIM_TEXT_KEYS, 1, str);
  }

  lemma FactReadsBack(f: FactEntry, str: TreeRendering)
    ensures FactEntryOf(FactAsMapping(f), str) == f
  {
    var m := FactAsMapping(f);
    FactMapping(f);
    FactIdReadsBack(m, f.factId, str);
    TextReadsBack(m, f.text, str);
    FirstUnderOnly(m, CHUNK_KEYS, 1, str);
  }

  lemma {:induction false} AllMappings(facts: seq<FactEntry>)
    ensures |Mappings(FactsAsTrees(facts))| == |facts|
    ensures forall i :: 0 <= i < |facts| ==> Mappings(FactsAsTrees(facts))[i] == FactAsMapping(facts[i])
  {
    if facts != [] {
      var last := |facts| - 1;
      AllMappings(facts[..last]);
      assert FactsAsTrees(facts)[..last] == FactsAsTrees(facts[..last]);
    }
  }

  lemma FactsReadBack(facts: seq<FactEntry>, str: TreeRendering)
    ensures FactEntriesOf(FactsAsTrees(facts), str) == facts
  {
    AllMappings(facts);
    forall i | 0 <= i < |facts| ensures FactEntriesOf(FactsAsTrees(facts), str)[i] == facts[i] {
      FactReadsBack(facts[i], str);
    }
  }

  lemma {:induction false} TextsReadBack(texts: seq<string>, str: TreeRendering)
    ensures Reads(NonNull(TextsAsTrees(texts)), str) == texts
  {
    if texts != [] {
      var last := |texts| - 1;
      TextsReadBack(texts[..last], str);
      assert TextsAsTrees(texts)[..last] == TextsAsTrees(texts[..last]);
    }
  }

  lemma OutputReadsBack(output: ChildOutput, str: TreeRendering)
    ensures RawOutput(OutputAsTree(output), str) == output
  {
    var m := OutputAsTree(output).members;
    assert DistinctKeys(m);
    LookupMember(m, m[0]);
    LookupMember(m, m[1]);
    FactsReadBack(output.facts, str);
    TextsReadBack(output.gaps, str);
  }
}
