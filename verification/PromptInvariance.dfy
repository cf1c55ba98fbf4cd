/** Which child records give a repair prompt that key order and run-specific keys cannot change. */
module PromptInvariance {
  import opened Json
  import opened Text
  import opened Ordering
  import opened TraceGuard
  import opened CanonicalJson
  import opened Variants
  import opened ChildRecords
  import opened RepairPrompt

  // ---------- What a record hands to `str` ----------

  /** Whether a value goes through `str` when it is read. */
  predicate Shown(t: Tree) {
    !t.TNull? && !t.TStr?
  }

  /**
    * `str` never gives the empty string and shows at least the keys, their order, the strings and the nesting
    * of a value; it may confuse numbers.
    */
  ghost predicate Legible(str: TreeRendering) {
    && (forall t :: Shown(t) ==> str(t) != "")
    && (forall t, u :: Shown(t) && Shown(u) && str(t) == str(u) ==> SameShape(t, u))
  }

  /** No key that is read from a child record is run-specific. */
  ghost predicate KeepsReadKeys(volatile: KeyTest) {
    && !volatile("output") && !volatile("observed_facts") && !volatile("residual_gaps")
    && AllKept(CHUNK_KEYS, volatile) && AllKept(CLAIM_FACT_KEYS, volatile)
    && AllKept(CLAIM_FACT_LIST_KEYS, volatile) && AllKept(CLAIM_TEXT_KEYS, volatile)
  }

  ghost predicate AllKept(keys: seq<string>, volatile: KeyTest) {
    forall i :: 0 <= i < |keys| ==> !volatile(keys[i])
  }

  /** The first candidate that is neither null nor the empty string. */
  function Chosen(candidates: seq<Tree>): Tree {
    if candidates == [] then TStr("")
    else if candidates[0] == TNull || candidates[0] == TStr("") then Chosen(candidates[1..])
    else candidates[0]
  }

  /** The three values that an observed fact is read from. */
  datatype FactSlots = FactSlots(factId: Tree, chunkId: Tree, text: Tree)

  function FactIdSlot(m: Mapping): Tree {
    var factIds := SupportedFactIds(Unordered(m));
    if factIds != [] then TStr(factIds[0]) else Chosen(FactIdCandidates(m))
  }

  function TextSlot(m: Mapping): Tree {
    var text := ClaimText(Unordered(m));
    if text != "" then TStr(text) else Chosen(Under(m, CLAIM_TEXT_KEYS))
  }

  function FactSlotsOf(m: Mapping): FactSlots {
    FactSlots(FactIdSlot(m), Chosen(Under(m, CHUNK_KEYS)), TextSlot(m))
  }

  function FactsOf(record: Mapping): seq<FactSlots> {
    Mapped(Mappings(ListIn(Lookup(record, "output"), "observed_facts")), FactSlotsOf)
  }

  function FactIdSlots(facts: seq<FactSlots>): seq<Tree> {
    seq(|facts|, i requires 0 <= i < |facts| => facts[i].factId)
  }

  function FactChunkSlots(facts: seq<FactSlots>): seq<Tree> {
    seq(|facts|, i requires 0 <= i < |facts| => facts[i].chunkId)
  }

  function FactTextSlots(facts: seq<FactSlots>): seq<Tree> {
    seq(|facts|, i requires 0 <= i < |facts| => facts[i].text)
  }

  /** The places of a record that the prompt reads. */
  datatype Place = RecordChunk | FactId | FactChunk | FactText | Gap

  /** The values read at a place, in order. */
  function Slots(record: Mapping, place: Place): seq<Tree> {
    match place
    case RecordChunk => [Lookup(record, "chunk_id")]
    case FactId => FactIdSlots(FactsOf(record))
    case FactChunk => FactChunkSlots(FactsOf(record))
    case FactText => FactTextSlots(FactsOf(record))
    case Gap => NonNull(ListIn(Lookup(record, "output"), "residual_gaps"))
  }

  /** The record hands the value to `str`. */
  ghost predicate Hands(record: Mapping, v: Tree) {
    Shown(v) && exists place :: v in Slots(record, place)
  }

  /** Nothing the record hands to `str` can vary. */
  ghost predicate Steady(record: Mapping, volatile: KeyTest) {
    forall v :: Hands(record, v) ==> !Varies(v, volatile)
  }

  // ---------- The prompt reads exactly the slots ----------

  lemma {:induction false} FirstReadIsChosen(candidates: seq<Tree>, str: TreeRendering)
    requires Legible(str)
    ensures FirstRead(candidates, str) == Read(Chosen(candidates), str)
  {
    if candidates != [] {
      FirstReadIsChosen(candidates[1..], str);
      assert Shown(candidates[0]) ==> str(candidates[0]) != "";
    }
  }

  function ReadFact(f: FactSlots, str: TreeRendering): FactEntry {
    FactEntry(Read(f.factId, str), Read(f.chunkId, str), Read(f.text, str))
  }

  lemma FactIsRead(m: Mapping, str: TreeRendering)
    requires Legible(str)
    ensures FactEntryOf(m, str) == ReadFact(FactSlotsOf(m), str)
  {
    FactIdIsRead(m, str);
    FirstReadIsChosen(Under(m, CHUNK_KEYS), str);
    TextIsRead(m, str);
  }

  lemma FactIdIsRead(m: Mapping, str: TreeRendering)
    requires Legible(str)
    ensures FactIdOf(m, str) == Read(FactIdSlot(m), str)
  {
    FirstReadIsChosen(FactIdCandidates(m), str);
  }

  lemma TextIsRead(m: Mapping, str: TreeRendering)
    requires Legible(str)
    ensures TextOf(m, str) == Read(TextSlot(m), str)
  {
    FirstReadIsChosen(Under(m, CLAIM_TEXT_KEYS), str);
  }

  function ReadFacts(facts: seq<FactSlots>, str: TreeRendering): seq<FactEntry> {
    Mapped(facts, (f: FactSlots) => ReadFact(f, str))
  }

  lemma SeenIsRead(record: Mapping, str: TreeRendering)
    requires Legible(str)
    ensures SeenIn(record, str)
         == Seen(Read(Lookup(record, "chunk_id"), str), multiset(ReadFacts(FactsOf(record), str)),
                 multiset(Reads(Slots(record, Gap), str)))
  {
    var items := ListIn(Lookup(record, "output"), "observed_facts");
    forall i | 0 <= i < |Mappings(items)|
      ensures FactEntriesOf(items, str)[i] == ReadFacts(FactsOf(record), str)[i] {
      FactIsRead(Mappings(items)[i], str);
    }
    assert FactEntriesOf(items, str) == ReadFacts(FactsOf(record), str);
  }

  // ---------- Relations between trees carry over to the slots ----------

  type Relation = (Tree, Tree) -> bool

  ghost predicate Pairwise(ts: seq<Tree>, us: seq<Tree>, rel: Relation) {
    |ts| == |us| && forall i :: 0 <= i < |ts| ==> rel(ts[i], us[i])
  }

  /** Related objects have related values under every key that is not run-specific. */
  ghost predicate Alike(a: Mapping, b: Mapping, rel: Relation, volatile: KeyTest) {
    forall k :: !volatile(k) ==> rel(Lookup(a, k), Lookup(b, k))
  }

  ghost predicate Descends(t: Tree, u: Tree, rel: Relation, volatile: KeyTest) {
    match t
    case TArr(items) => u.TArr? && Pairwise(items, u.items, rel)
    case TObj(members) => u.TObj? && Alike(members, u.members, rel, volatile)
    case _ => u == t
  }

  ghost predicate Structural(rel: Relation, volatile: KeyTest) {
    && (forall t, u :: rel(t, u) ==> Descends(t, u, rel, volatile))
    && (forall s :: rel(TStr(s), TStr(s)))
  }

  lemma {:induction false} ChosenRelated(ts: seq<Tree>, us: seq<Tree>, rel: Relation, volatile: KeyTest)
    requires Structural(rel, volatile) && Pairwise(ts, us, rel)
    ensures rel(Chosen(ts), Chosen(us))
  {
    if ts != [] {
      assert rel(ts[0], us[0]);
      ChosenRelated(ts[1..], us[1..], rel, volatile);
    }
  }

  lemma UnderRelated(a: Mapping, b: Mapping, keys: seq<string>, rel: Relation, volatile: KeyTest)
    requires Alike(a, b, rel, volatile) && AllKept(keys, volatile)
    ensures Pairwise(Under(a, keys), Under(b, keys), rel)
  {
  }

  lemma ItemsRelated(t: Tree, u: Tree, rel: Relation, volatile: KeyTest)
    requires Structural(rel, volatile) && rel(t, u)
    ensures Pairwise(ItemsOf(t), ItemsOf(u), rel)
  {
    assert Descends(t, u, rel, volatile);
  }

  lemma PairwiseAppend(a: seq<Tree>, b: seq<Tree>, c: seq<Tree>, d: seq<Tree>, rel: Relation)
    requires Pairwise(a, b, rel) && Pairwise(c, d, rel)
    ensures Pairwise(a + c, b + d, rel)
  {
    forall i | 0 <= i < |a + c| ensures rel((a + c)[i], (b + d)[i]) {
      if i >= |a| {
        assert rel(c[i - |a|], d[i - |a|]);
      }
    }
  }

  lemma {:induction false} ListedRelated(a: Mapping, b: Mapping, keys: seq<string>, rel: Relation, volatile: KeyTest)
    requires Structural(rel, volatile) && Alike(a, b, rel, volatile) && AllKept(keys, volatile)
    ensures Pairwise(ListedUnder(a, keys), ListedUnder(b, keys), rel)
  {
    if keys != [] {
      var front, last := keys[..|keys| - 1], keys[|keys| - 1];
      ListedRelated(a, b, front, rel, volatile);
      assert !volatile(last);
      ItemsRelated(Lookup(a, last), Lookup(b, last), rel, volatile);
      PairwiseAppend(ListedUnder(a, front), ListedUnder(b, front), ItemsOf(Lookup(a, last)), ItemsOf(Lookup(b, last)), rel);
    }
  }

  lemma StringRelated(a: Mapping, b: Mapping, key: string, rel: Relation, volatile: KeyTest)
    requires Structural(rel, volatile) && Alike(a, b, rel, volatile) && !volatile(key)
    ensures NonEmptyString(Unordered(a), key) == NonEmptyString(Unordered(b), key)
  {
    LookupMeaning(a, key, NO_KEY);
    LookupMeaning(b, key, NO_KEY);
    assert Descends(Lookup(a, key), Lookup(b, key), rel, volatile);
  }

  lemma {:induction false} StringsRelated(a: Mapping, b: Mapping, keys: seq<string>, rel: Relation, volatile: KeyTest)
    requires Structural(rel, volatile) && Alike(a, b, rel, volatile) && AllKept(keys, volatile)
    ensures StringsUnder(Unordered(a), keys) == StringsUnder(Unordered(b), keys)
  {
    if keys != [] {
      StringsRelated(a, b, keys[..|keys| - 1], rel, volatile);
      StringRelated(a, b, keys[|keys| - 1], rel, volatile);
    }
  }

  function Meanings(items: seq<Tree>): seq<Value> {
    seq(|items|, i requires 0 <= i < |items| => Meaning(items[i], NO_KEY))
  }

  lemma {:induction false} StringItemsRelated(ts: seq<Tree>, us: seq<Tree>, rel: Relation, volatile: KeyTest)
    requires Structural(rel, volatile) && Pairwise(ts, us, rel)
    ensures NonEmptyStrings(Meanings(ts)) == NonEmptyStrings(Meanings(us))
  {
    if ts != [] {
      StringItemsRelated(ts[1..], us[1..], rel, volatile);
      assert Meanings(ts)[1..] == Meanings(ts[1..]) && Meanings(us)[1..] == Meanings(us[1..]);
      assert Descends(ts[0], us[0], rel, volatile);
    }
  }

  lemma ListedStringsRelated(a: Mapping, b: Mapping, key: string, rel: Relation, volatile: KeyTest)
    requires Structural(rel, volatile) && Alike(a, b, rel, volatile) && !volatile(key)
    ensures ListedStrings(Unordered(a), key) == ListedStrings(Unordered(b), key)
  {
    var t, u := Lookup(a, key), Lookup(b, key);
    LookupMeaning(a, key, NO_KEY);
    LookupMeaning(b, key, NO_KEY);
    assert Descends(t, u, rel, volatile);
    if t.TArr? {
      StringItemsRelated(t.items, u.items, rel, volatile);
    }
  }

  lemma {:induction false} AllListedRelated(a: Mapping, b: Mapping, keys: seq<string>, rel: Relation, volatile: KeyTest)
    requires Structural(rel, volatile) && Alike(a, b, rel, volatile) && AllKept(keys, volatile)
    ensures StringsListedUnder(Unordered(a), keys) == StringsListedUnder(Unordered(b), keys)
  {
    if keys != [] {
      AllListedRelated(a, b, keys[..|keys| - 1], rel, volatile);
      ListedStringsRelated(a, b, keys[|keys| - 1], rel, volatile);
    }
  }

  ghost predicate FactsRelated(f: FactSlots, g: FactSlots, rel: Relation) {
    rel(f.factId, g.factId) && rel(f.chunkId, g.chunkId) && rel(f.text, g.text)
  }

  lemma FactSlotsRelated(a: Mapping, b: Mapping, rel: Relation, volatile: KeyTest)
    requires Structural(rel, volatile) && KeepsReadKeys(volatile) && Alike(a, b, rel, volatile)
    ensures FactsRelated(FactSlotsOf(a), FactSlotsOf(b), rel)
  {
    FactIdRelated(a, b, rel, volatile);
    TextRelated(a, b, rel, volatile);
    UnderRelated(a, b, CHUNK_KEYS, rel, volatile);
    ChosenRelated(Under(a, CHUNK_KEYS), Under(b, CHUNK_KEYS), rel, volatile);
  }

  lemma FactIdRelated(a: Mapping, b: Mapping, rel: Relation, volatile: KeyTest)
    requires Structural(rel, volatile) && KeepsReadKeys(volatile) && Alike(a, b, rel, volatile)
    ensures rel(FactIdSlot(a), FactIdSlot(b))
  {
    StringsRelated(a, b, CLAIM_FACT_KEYS, rel, volatile);
    AllListedRelated(a, b, CLAIM_FACT_LIST_KEYS, rel, volatile);
    UnderRelated(a, b, CLAIM_FACT_KEYS, rel, volatile);
    ListedRelated(a, b, CLAIM_FACT_LIST_KEYS, rel, volatile);
    ChosenRelated(FactIdCandidates(a), FactIdCandidates(b), rel, volatile);
  }

  lemma TextRelated(a: Mapping, b: Mapping, rel: Relation, volatile: KeyTest)
    requires Structural(rel, volatile) && KeepsReadKeys(volatile) && Alike(a, b, rel, volatile)
    ensures rel(TextSlot(a), TextSlot(b))
  {
    StringsRelated(a, b, CLAIM_TEXT_KEYS, rel, volatile);
    UnderRelated(a, b, CLAIM_TEXT_KEYS, rel, volatile);
    ChosenRelated(Under(a, CLAIM_TEXT_KEYS), Under(b, CLAIM_TEXT_KEYS), rel, volatile);
  }

  ghost predicate AllAlike(a: seq<Mapping>, b: seq<Mapping>, rel: Relation, volatile: KeyTest) {
    |a| == |b| && forall i :: 0 <= i < |a| ==> Alike(a[i], b[i], rel, volatile)
  }

  lemma {:induction false} MappingsRelated(ts: seq<Tree>, us: seq<Tree>, rel: Relation, volatile: KeyTest)
    requires Structural(rel, volatile) && Pairwise(ts, us, rel)
    ensures AllAlike(Mappings(ts), Mappings(us), rel, volatile)
  {
    if ts != [] {
      var last := |ts| - 1;
      MappingsRelated(ts[..last], us[..last], rel, volatile);
      assert rel(ts[last], us[last]);
      assert Descends(ts[last], us[last], rel, volatile);
      if ts[last].TObj? {
        OneMoreAlike(Mappings(ts[..last]), Mappings(us[..last]), ts[last].members, us[last].members, rel, volatile);
      }
    }
  }

  lemma OneMoreAlike(a: seq<Mapping>, b: seq<Mapping>, m: Mapping, n: Mapping, rel: Relation, volatile: KeyTest)
    requires AllAlike(a, b, rel, volatile) && Alike(m, n, rel, volatile)
    ensures AllAlike(a + [m], b + [n], rel, volatile)
  {
  }

  lemma {:induction false} NonNullRelated(ts: seq<Tree>, us: seq<Tree>, rel: Relation, volatile: KeyTest)
    requires Structural(rel, volatile) && Pairwise(ts, us, rel)
    ensures Pairwise(NonNull(ts), NonNull(us), rel)
  {
    if ts != [] {
      var last := |ts| - 1;
      NonNullRelated(ts[..last], us[..last], rel, volatile);
      assert Descends(ts[last], us[last], rel, volatile);
    }
  }

  lemma ListsRelated(t: Tree, u: Tree, key: string, rel: Relation, volatile: KeyTest)
    requires Structural(rel, volatile) && rel(t, u) && !volatile(key)
    ensures Pairwise(ListIn(t, key), ListIn(u, key), rel)
  {
    assert Descends(t, u, rel, volatile);
    if t.TObj? {
      ItemsRelated(Lookup(t.members, key), Lookup(u.members, key), rel, volatile);
    }
  }

  lemma FactsOfRelated(a: Mapping, b: Mapping, rel: Relation, volatile: KeyTest)
    requires Structural(rel, volatile) && KeepsReadKeys(volatile) && Alike(a, b, rel, volatile)
    ensures |FactsOf(a)| == |FactsOf(b)|
    ensures forall i :: 0 <= i < |FactsOf(a)| ==> FactsRelated(FactsOf(a)[i], FactsOf(b)[i], rel)
  {
    var x, y := ListIn(Lookup(a, "output"), "observed_facts"), ListIn(Lookup(b, "output"), "observed_facts");
    ListsRelated(Lookup(a, "output"), Lookup(b, "output"), "observed_facts", rel, volatile);
    MappingsRelated(x, y, rel, volatile);
    forall i | 0 <= i < |FactsOf(a)| ensures FactsRelated(FactsOf(a)[i], FactsOf(b)[i], rel) {
      FactSlotsRelated(Mappings(x)[i], Mappings(y)[i], rel, volatile);
    }
  }

  /** Related records have related slots, place by place. */
  lemma SlotsRelated(a: Mapping, b: Mapping, place: Place, rel: Relation, volatile: KeyTest)
    requires Structural(rel, volatile) && KeepsReadKeys(volatile) && Alike(a, b, rel, volatile)
    ensures Pairwise(Slots(a, place), Slots(b, place), rel)
  {
    FactsOfRelated(a, b, rel, volatile);
    match place
    case RecordChunk =>
      assert CHUNK_KEYS[0] == "chunk_id";
    case Gap =>
      ListsRelated(Lookup(a, "output"), Lookup(b, "output"), "residual_gaps", rel, volatile);
      NonNullRelated(ListIn(Lookup(a, "output"), "residual_gaps"), ListIn(Lookup(b, "output"), "residual_gaps"), rel, volatile);
    case _ =>
  }

  // ---------- One record: what cannot vary ----------

  ghost function SayingTheSame(volatile: KeyTest): Relation {
    (t: Tree, u: Tree) => Variant(t, u, volatile)
  }

  lemma VariantMembers(a: Mapping, b: Mapping, volatile: KeyTest)
    requires Variant(TObj(a), TObj(b), volatile)
    ensures Alike(a, b, SayingTheSame(volatile), volatile)
  {
    forall k | !volatile(k) ensures Variant(Lookup(a, k), Lookup(b, k), volatile) {
      LookupMeaning(a, k, volatile);
      LookupMeaning(b, k, volatile);
      LookupWellFormed(a, k);
      LookupWellFormed(b, k);
    }
  }

  lemma VariantItems(ts: seq<Tree>, us: seq<Tree>, volatile: KeyTest)
    requires Variant(TArr(ts), TArr(us), volatile)
    ensures Pairwise(ts, us, SayingTheSame(volatile))
  {
    var m, n := Meaning(TArr(ts), volatile), Meaning(TArr(us), volatile);
    assert |m.items| == |n.items|;
    forall i | 0 <= i < |ts| ensures Variant(ts[i], us[i], volatile) {
      assert m.items[i] == n.items[i];
    }
  }

  lemma VariantIsStructural(volatile: KeyTest)
    ensures Structural(SayingTheSame(volatile), volatile)
  {
    var rel := SayingTheSame(volatile);
    forall t, u | rel(t, u) ensures Descends(t, u, rel, volatile) {
      match t
      case TArr(items) => VariantItems(items, u.items, volatile);
      case TObj(members) => VariantMembers(members, u.members, volatile);
      case _ =>
    }
  }

  lemma SteadySlots(a: Mapping, b: Mapping, place: Place, volatile: KeyTest)
    requires KeepsReadKeys(volatile) && Steady(a, volatile) && Variant(TObj(a), TObj(b), volatile)
    ensures Slots(a, place) == Slots(b, place)
  {
    var rel := SayingTheSame(volatile);
    VariantIsStructural(volatile);
    VariantMembers(a, b, volatile);
    SlotsRelated(a, b, place, rel, volatile);
    forall i | 0 <= i < |Slots(a, place)| ensures Slots(a, place)[i] == Slots(b, place)[i] {
      var t, u := Slots(a, place)[i], Slots(b, place)[i];
      assert rel(t, u) && Descends(t, u, rel, volatile);
      if Shown(t) {
        assert Hands(a, t);
        SteadyOneForm(t, u, volatile);
      }
    }
  }

  /** The texts read at a place. */
  function Texts(record: Mapping, place: Place, str: TreeRendering): seq<string> {
    Mapped(Slots(record, place), (t: Tree) => Read(t, str))
  }

  lemma TextsAt(record: Mapping, place: Place, str: TreeRendering)
    ensures match place
      case RecordChunk => Texts(record, place, str) == [Read(Lookup(record, "chunk_id"), str)]
      case FactId => Texts(record, place, str) == Mapped(ReadFacts(FactsOf(record), str), (e: FactEntry) => e.factId)
      case FactChunk => Texts(record, place, str) == Mapped(ReadFacts(FactsOf(record), str), (e: FactEntry) => e.chunkId)
      case FactText => Texts(record, place, str) == Mapped(ReadFacts(FactsOf(record), str), (e: FactEntry) => e.text)
      case Gap => Texts(record, place, str) == Reads(Slots(record, Gap), str)
  {
  }

  /** Records that say the same read the same texts at each place, in some order. */
  lemma SameTexts(a: Mapping, b: Mapping, place: Place, str: TreeRendering)
    requires Legible(str) && SeenIn(a, str) == SeenIn(b, str)
    ensures multiset(Texts(a, place, str)) == multiset(Texts(b, place, str))
  {
    var x, y := ReadFacts(FactsOf(a), str), ReadFacts(FactsOf(b), str);
    SeenIsRead(a, str);
    SeenIsRead(b, str);
    TextsAt(a, place, str);
    TextsAt(b, place, str);
    match place
    case FactId => MappedPermutes(x, y, (e: FactEntry) => e.factId);
    case FactChunk => MappedPermutes(x, y, (e: FactEntry) => e.chunkId);
    case FactText => MappedPermutes(x, y, (e: FactEntry) => e.text);
    case _ =>
  }

  lemma SameSlotsSeen(a: Mapping, b: Mapping, str: TreeRendering)
    requires Legible(str) && forall place :: Slots(a, place) == Slots(b, place)
    ensures SeenIn(a, str) == SeenIn(b, str)
  {
    SeenIsRead(a, str);
    SeenIsRead(b, str);
    assert Slots(a, RecordChunk)[0] == Slots(b, RecordChunk)[0];
    assert Slots(a, FactId) == Slots(b, FactId) && Slots(a, FactChunk) == Slots(b, FactChunk);
    assert Slots(a, FactText) == Slots(b, FactText) && Slots(a, Gap) == Slots(b, Gap);
    SameFacts(FactsOf(a), FactsOf(b));
  }

  lemma SameFacts(x: seq<FactSlots>, y: seq<FactSlots>)
    requires FactIdSlots(x) == FactIdSlots(y) && FactChunkSlots(x) == FactChunkSlots(y) && FactTextSlots(x) == FactTextSlots(y)
    ensures x == y
  {
    assert |FactIdSlots(x)| == |FactIdSlots(y)|;
    forall i | 0 <= i < |x| ensures x[i] == y[i] {
      assert FactIdSlots(x)[i] == FactIdSlots(y)[i] && FactChunkSlots(x)[i] == FactChunkSlots(y)[i] && FactTextSlots(x)[i] == FactTextSlots(y)[i];
    }
  }

  /** Whatever says the same as the record, key order and run-specific keys aside, gives the prompt the same. */
  ghost predicate Fixed(record: Mapping, str: TreeRendering, volatile: KeyTest) {
    forall other: Mapping :: Variant(TObj(record), TObj(other), volatile) ==> SeenIn(other, str) == SeenIn(record, str)
  }

  lemma SteadyIsFixed(record: Mapping, str: TreeRendering, volatile: KeyTest)
    requires Legible(str) && KeepsReadKeys(volatile) && Steady(record, volatile)
    ensures Fixed(record, str, volatile)
  {
    forall other: Mapping | Variant(TObj(record), TObj(other), volatile)
      ensures SeenIn(other, str) == SeenIn(record, str)
    {
      forall place ensures Slots(record, place) == Slots(other, place) {
        SteadySlots(record, other, place, volatile);
      }
      SameSlotsSeen(record, other, str);
    }
  }

  // ---------- One record: what varies ----------

  ghost function RearrangedBy(f: Tree -> Tree): Relation {
    (t: Tree, u: Tree) => WellFormed(t) && u == f(t)
  }

  lemma RearrangementIsStructural(f: Tree -> Tree, volatile: KeyTest)
    requires Rearranges(f, volatile)
    ensures Structural(RearrangedBy(f), volatile)
  {
    var rel := RearrangedBy(f);
    assert RearrangedAt(f, TNull, volatile);
    forall t, u | rel(t, u) ensures Descends(t, u, rel, volatile) {
      assert RearrangedAt(f, t, volatile);
      if t.TObj? {
        forall k | !volatile(k) ensures rel(Lookup(t.members, k), Lookup(u.members, k)) {
          CopiedLookup(t.members, u.members, f, volatile, k);
          LookupWellFormed(t.members, k);
        }
      }
    }
    forall s ensures rel(TStr(s), TStr(s)) {
      assert RearrangedAt(f, TStr(s), volatile);
    }
  }

  /** The record rearranged. */
  function Changed(record: Mapping, f: Tree -> Tree): Mapping {
    var t := f(TObj(record));
    if t.TObj? then t.members else []
  }

  lemma ChangedRecord(record: Mapping, f: Tree -> Tree, place: Place, volatile: KeyTest)
    requires Rearranges(f, volatile) && KeepsReadKeys(volatile) && WellFormed(TObj(record))
    ensures Variant(TObj(record), TObj(Changed(record, f)), volatile)
    ensures Pairwise(Slots(record, place), Slots(Changed(record, f), place), RearrangedBy(f))
  {
    var rel := RearrangedBy(f);
    RearrangementIsStructural(f, volatile);
    RearrangedSaysTheSame(TObj(record), f, volatile);
    assert rel(TObj(record), f(TObj(record)));
    assert Descends(TObj(record), f(TObj(record)), rel, volatile);
    SlotsRelated(record, Changed(record, f), place, rel, volatile);
  }

  /** A text that the second list has wherever the first has it, and once more, tells the lists apart. */
  lemma {:induction false} OnceMore(p: seq<string>, q: seq<string>, text: string, at: nat)
    requires |p| == |q| && (forall i :: 0 <= i < |p| && p[i] == text ==> q[i] == text)
    ensures multiset(p)[text] <= multiset(q)[text]
    ensures at < |p| && p[at] != text && q[at] == text ==> multiset(p)[text] < multiset(q)[text]
  {
    if p != [] {
      var last := |p| - 1;
      OnceMore(p[..last], q[..last], text, at);
      assert p == p[..last] + [p[last]] && q == q[..last] + [q[last]];
    }
  }

  /** No value under the one rearrangement looks like this value under the other. */
  ghost predicate Apart(f: Tree -> Tree, g: Tree -> Tree, v: Tree) {
    forall w :: WellFormed(w) ==> !SameShape(f(w), g(v))
  }

  lemma ReadsApart(t: Tree, v: Tree, f: Tree -> Tree, g: Tree -> Tree, str: TreeRendering, volatile: KeyTest)
    requires Legible(str) && Rearranges(f, volatile) && Rearranges(g, volatile)
    requires WellFormed(t) && WellFormed(v) && Shown(v) && Apart(f, g, v)
    ensures Read(f(t), str) == Read(g(v), str) ==> !Shown(t)
    ensures !Shown(t) ==> f(t) == g(t)
  {
    assert RearrangedAt(f, t, volatile) && RearrangedAt(g, t, volatile) && RearrangedAt(g, v, volatile);
    if Shown(t) {
      assert Shown(f(t)) && Shown(g(v));
      assert !SameShape(f(t), g(v));
    }
  }

  lemma TextsApart(ts: seq<Tree>, us: seq<Tree>, vs: seq<Tree>, at: nat, f: Tree -> Tree, g: Tree -> Tree,
                   str: TreeRendering, volatile: KeyTest)
    requires Legible(str) && Rearranges(f, volatile) && Rearranges(g, volatile)
    requires Pairwise(ts, us, RearrangedBy(f)) && Pairwise(ts, vs, RearrangedBy(g))
    requires at < |ts| && Shown(ts[at]) && Apart(f, g, ts[at])
    ensures multiset(Mapped(us, (t: Tree) => Read(t, str))) != multiset(Mapped(vs, (t: Tree) => Read(t, str)))
  {
    var read := (t: Tree) => Read(t, str);
    var p, q, text := Mapped(us, read), Mapped(vs, read), Read(vs[at], str);
    assert RearrangedBy(g)(ts[at], vs[at]);
    forall i | 0 <= i < |p| ensures p[i] == text ==> i != at && q[i] == text {
      assert RearrangedBy(f)(ts[i], us[i]) && RearrangedBy(g)(ts[i], vs[i]);
      ReadsApart(ts[i], ts[at], f, g, str, volatile);
    }
    OnceMore(p, q, text, at);
  }

  /** Two rearrangements of a record that keep a handed value apart give the prompt different things. */
  lemma TwoReadings(record: Mapping, v: Tree, f: Tree -> Tree, g: Tree -> Tree, str: TreeRendering, volatile: KeyTest)
    requires Legible(str) && KeepsReadKeys(volatile) && Rearranges(f, volatile) && Rearranges(g, volatile)
    requires WellFormed(TObj(record)) && Hands(record, v) && Apart(f, g, v)
    ensures Variant(TObj(record), TObj(Changed(record, f)), volatile)
    ensures Variant(TObj(record), TObj(Changed(record, g)), volatile)
    ensures SeenIn(Changed(record, f), str) != SeenIn(Changed(record, g), str)
  {
    var place :| v in Slots(record, place);
    var at :| 0 <= at < |Slots(record, place)| && Slots(record, place)[at] == v;
    ChangedRecord(record, f, place, volatile);
    ChangedRecord(record, g, place, volatile);
    TextsApart(Slots(record, place), Slots(Changed(record, f), place), Slots(Changed(record, g), place), at, f, g, str, volatile);
    if SeenIn(Changed(record, f), str) == SeenIn(Changed(record, g), str) {
      SameTexts(Changed(record, f), Changed(record, g), place, str);
    }
  }

  lemma SaltsApart(v: Tree, key: string, m: nat, n: nat)
    requires HasObject(v) && m != n
    ensures Apart(Salting(key, m), Salting(key, n), v)
  {
    forall w | WellFormed(w) ensures !SameShape(Salting(key, m)(w), Salting(key, n)(v)) {
      SaltsDiffer(v, w, key, m, n);
    }
  }

  /** A record that hands an object to `str` reads differently for every value of a run-specific key. */
  lemma SaltsShow(record: Mapping, v: Tree, key: string, m: nat, n: nat, str: TreeRendering, volatile: KeyTest)
    requires Legible(str) && KeepsReadKeys(volatile) && volatile(key) && m != n
    requires WellFormed(TObj(record)) && Hands(record, v) && HasObject(v)
    ensures Variant(TObj(record), TObj(Changed(record, Salting(key, m))), volatile)
    ensures SeenIn(Changed(record, Salting(key, m)), str) != SeenIn(Changed(record, Salting(key, n)), str)
  {
    SaltedRearranges(key, m, volatile);
    SaltedRearranges(key, n, volatile);
    SaltsApart(v, key, m, n);
    TwoReadings(record, v, Salting(key, m), Salting(key, n), str, volatile);
  }

  /** The handed value out of order: flipped if it was sorted, otherwise as it is. */
  ghost function Unsorting(v: Tree, volatile: KeyTest): Tree -> Tree {
    if Canonical(v, volatile) then Flipped else (t: Tree) => t
  }

  ghost function Sorting(volatile: KeyTest): Tree -> Tree {
    (t: Tree) => Stable(t, volatile)
  }

  lemma OrdersApart(v: Tree, volatile: KeyTest)
    requires HasPair(v)
    ensures Rearranges(Sorting(volatile), volatile) && Rearranges(Unsorting(v, volatile), volatile)
    ensures Apart(Sorting(volatile), Unsorting(v, volatile), v)
  {
    StableRearranges(volatile);
    FlippedRearranges(volatile);
    IdentityRearranges(volatile);
    if Canonical(v, volatile) {
      FlippedIsUnsorted(v, volatile);
    }
    forall w | WellFormed(w) ensures !SameShape(Sorting(volatile)(w), Unsorting(v, volatile)(v)) {
      StableKeepsMeaning(w, volatile);
      if SameShape(Stable(w, volatile), Unsorting(v, volatile)(v)) {
        CanonicalShape(Stable(w, volatile), Unsorting(v, volatile)(v), volatile);
      }
    }
  }

  lemma OrdersShow(record: Mapping, v: Tree, str: TreeRendering, volatile: KeyTest)
    requires Legible(str) && KeepsReadKeys(volatile) && WellFormed(TObj(record)) && Hands(record, v) && HasPair(v)
    ensures exists a: Mapping, b: Mapping ::
              Variant(TObj(record), TObj(a), volatile) && Variant(TObj(record), TObj(b), volatile)
              && SeenIn(a, str) != SeenIn(b, str)
  {
    OrdersApart(v, volatile);
    TwoReadings(record, v, Sorting(volatile), Unsorting(v, volatile), str, volatile);
  }

  lemma UnsteadyIsNotFixed(record: Mapping, v: Tree, str: TreeRendering, volatile: KeyTest)
    requires Legible(str) && KeepsReadKeys(volatile) && WellFormed(TObj(record)) && Hands(record, v) && Varies(v, volatile)
    ensures !Fixed(record, str, volatile)
  {
    if key :| volatile(key) {
      SaltsShow(record, v, key, 0, 1, str, volatile);
      SaltsShow(record, v, key, 1, 0, str, volatile);
    } else {
      OrdersShow(record, v, str, volatile);
    }
  }

  /**
    * A record gives the prompt the same under every key order and run-specific key exactly when it hands no
    * object to `str`; where no key is run-specific, exactly when it hands none with two or more keys.
    */
  lemma RecordFixedIff(record: Mapping, str: TreeRendering, volatile: KeyTest)
    requires Legible(str) && KeepsReadKeys(volatile) && WellFormed(TObj(record))
    ensures Fixed(record, str, volatile) <==> Steady(record, volatile)
  {
    if Steady(record, volatile) {
      SteadyIsFixed(record, str, volatile);
    }
    forall v | Hands(record, v) && Varies(v, volatile) ensures !Fixed(record, str, volatile) {
      UnsteadyIsNotFixed(record, v, str, volatile);
    }
  }
}
