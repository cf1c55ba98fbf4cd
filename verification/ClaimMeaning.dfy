/** What the gate reads from a parent synthesis, key by key. */
module ClaimMeaning {
  import opened Options
  import opened Json
  import opened Text
  import opened Ordering
  import opened Arithmetic
  import opened TraceGuard

  // ---------- One mapping ----------

  /** The mapping holds this non-empty string under the key. */
  predicate Holds(m: Fields, key: string, s: string) {
    key in m && m[key] == Str(s) && s != ""
  }

  ghost predicate HoldsNone(m: Fields, key: string) {
    forall s :: !Holds(m, key, s)
  }

  /** The list under the key has this non-empty string as an item. */
  predicate ListHolds(m: Fields, key: string, s: string) {
    key in m && m[key].Arr? && Str(s) in m[key].items && s != ""
  }

  /** The chunk a mapping states: under `chunk_id`, failing that `evidence_chunk_id`, failing that `source_chunk_id`. */
  ghost predicate StatesChunk(m: Fields, chunk: Option<string>) {
    match chunk
    case Some(c) =>
      || Holds(m, "chunk_id", c)
      || (HoldsNone(m, "chunk_id") && Holds(m, "evidence_chunk_id", c))
      || (HoldsNone(m, "chunk_id") && HoldsNone(m, "evidence_chunk_id") && Holds(m, "source_chunk_id", c))
    case None => HoldsNone(m, "chunk_id") && HoldsNone(m, "evidence_chunk_id") && HoldsNone(m, "source_chunk_id")
  }

  predicate NamesFact(m: Fields, f: string) {
    || Holds(m, "fact_id", f) || Holds(m, "supports_fact_id", f)
    || ListHolds(m, "fact_ids", f) || ListHolds(m, "supports_fact_ids", f) || ListHolds(m, "supported_fact_ids", f)
  }

  /** The non-empty strings among the five text fields, one per line. */
  function StatedText(m: Fields): string {
    Lines([TextUnder(m, "quoted_evidence"), TextUnder(m, "text"), TextUnder(m, "statement"), TextUnder(m, "claim"),
           TextUnder(m, "summary")])
  }

  function TextUnder(m: Fields, key: string): string {
    if key in m && m[key].Str? then m[key].text else ""
  }

  function Lines(parts: seq<string>): string {
    if parts == [] then ""
    else if parts[0] == "" then Lines(parts[1..])
    else parts[0] + (if Lines(parts[1..]) == "" then "" else "\n" + Lines(parts[1..]))
  }

  lemma HoldsIff(m: Fields, key: string, s: string)
    ensures Holds(m, key, s) <==> NonEmptyString(m, key) == Some(s)
    ensures HoldsNone(m, key) <==> NonEmptyString(m, key).None?
  {
    if NonEmptyString(m, key).Some? {
      assert Holds(m, key, NonEmptyString(m, key).value);
    }
  }

  lemma ChunkIsStated(m: Fields)
    ensures StatesChunk(m, ChunkId(m))
  {
    var s := if ChunkId(m).Some? then ChunkId(m).value else "";
    HoldsIff(m, "chunk_id", s);
    HoldsIff(m, "evidence_chunk_id", s);
    HoldsIff(m, "source_chunk_id", s);
  }

  /** A mapping states exactly one chunk, or none. */
  lemma StatedChunkIsUnique(m: Fields, chunk: Option<string>)
    ensures StatesChunk(m, chunk) <==> chunk == ChunkId(m)
  {
    ChunkIsStated(m);
    if StatesChunk(m, chunk) {
      match chunk
      case Some(c) =>
        HoldsIff(m, "chunk_id", c);
        HoldsIff(m, "evidence_chunk_id", c);
        HoldsIff(m, "source_chunk_id", c);
      case None =>
        HoldsIff(m, "chunk_id", "");
        HoldsIff(m, "evidence_chunk_id", "");
        HoldsIff(m, "source_chunk_id", "");
    }
  }

  lemma {:induction false} ListedIff(items: seq<Value>, s: string)
    ensures s in NonEmptyStrings(items) <==> s != "" && Str(s) in items
  {
    if items != [] {
      ListedIff(items[1..], s);
      assert items == [items[0]] + items[1..];
    }
  }

  lemma ListHoldsIff(m: Fields, key: string, s: string)
    ensures s in ListedStrings(m, key) <==> ListHolds(m, key, s)
  {
    if key in m && m[key].Arr? {
      ListedIff(m[key].items, s);
    }
  }

  lemma {:induction false} UnderIff(m: Fields, keys: seq<string>, s: string)
    ensures s in StringsUnder(m, keys) <==> exists i :: 0 <= i < |keys| && Holds(m, keys[i], s)
  {
    if keys != [] {
      var n := |keys| - 1;
      UnderIff(m, keys[..n], s);
      HoldsIff(m, keys[n], s);
      assert forall i :: 0 <= i < n ==> keys[..n][i] == keys[i];
    }
  }

  lemma {:induction false} ListedUnderIff(m: Fields, keys: seq<string>, s: string)
    ensures s in StringsListedUnder(m, keys) <==> exists i :: 0 <= i < |keys| && ListHolds(m, keys[i], s)
  {
    if keys != [] {
      var n := |keys| - 1;
      ListedUnderIff(m, keys[..n], s);
      ListHoldsIff(m, keys[n], s);
      assert forall i :: 0 <= i < n ==> keys[..n][i] == keys[i];
    }
  }

  lemma NamedIff(m: Fields, f: string)
    ensures f in SupportedFactIds(m) <==> NamesFact(m, f)
  {
    UnderIff(m, CLAIM_FACT_KEYS, f);
    ListedUnderIff(m, CLAIM_FACT_LIST_KEYS, f);
    assert CLAIM_FACT_KEYS[0] == "fact_id" && CLAIM_FACT_KEYS[1] == "supports_fact_id";
    assert CLAIM_FACT_LIST_KEYS[0] == "fact_ids" && CLAIM_FACT_LIST_KEYS[1] == "supports_fact_ids"
        && CLAIM_FACT_LIST_KEYS[2] == "supported_fact_ids";
  }

  // ---------- The order of the facts ----------

  /** Where a fact is named: the rank of its key, and its position in a list (0 for a single string). */
  datatype Spot = Spot(rank: nat, index: nat)
  {
    predicate Before(other: Spot) {
      rank < other.rank || (rank == other.rank && index < other.index)
    }
  }

  /** Single strings first, then lists; `fact_id` first of all. */
  predicate NamedAt(m: Fields, f: string, at: Spot) {
    || (at == Spot(0, 0) && Holds(m, "fact_id", f))
    || (at == Spot(1, 0) && Holds(m, "supports_fact_id", f))
    || (at.rank == 2 && ItemHolds(m, "fact_ids", f, at.index))
    || (at.rank == 3 && ItemHolds(m, "supports_fact_ids", f, at.index))
    || (at.rank == 4 && ItemHolds(m, "supported_fact_ids", f, at.index))
  }

  predicate ItemHolds(m: Fields, key: string, s: string, i: nat) {
    key in m && m[key].Arr? && i < |m[key].items| && m[key].items[i] == Str(s) && s != ""
  }

  /** The fact is named here and nowhere before. */
  ghost predicate FirstNamedAt(m: Fields, f: string, at: Spot) {
    NamedAt(m, f, at) && forall other: Spot :: other.Before(at) ==> !NamedAt(m, f, other)
  }

  datatype Naming = Naming(f: string, at: Spot)

  ghost predicate InOrder(namings: seq<Naming>) {
    forall i, j :: 0 <= i < j < |namings| ==> namings[i].at.Before(namings[j].at)
  }

  function Facts(namings: seq<Naming>): seq<string> {
    seq(|namings|, i requires 0 <= i < |namings| => namings[i].f)
  }

  /** Every way a fact is named, in order. */
  ghost predicate AreNamings(m: Fields, namings: seq<Naming>, from: nat, to: nat) {
    && InOrder(namings)
    && (forall n :: n in namings ==> from <= n.at.rank < to && NamedAt(m, n.f, n.at))
    && (forall f, at: Spot :: from <= at.rank < to && NamedAt(m, f, at) ==> Naming(f, at) in namings)
  }

  lemma NamingsJoin(m: Fields, a: seq<Naming>, b: seq<Naming>, from: nat, mid: nat, to: nat)
    requires from <= mid <= to && AreNamings(m, a, from, mid) && AreNamings(m, b, mid, to)
    ensures AreNamings(m, a + b, from, to) && Facts(a + b) == Facts(a) + Facts(b)
  {
    forall i, j | 0 <= i < j < |a + b| ensures (a + b)[i].at.Before((a + b)[j].at) {
      if i < |a| <= j {
        assert a[i] in a && b[j - |a|] in b;
      }
    }
  }

  lemma SingleNaming(m: Fields, key: string, rank: nat) returns (namings: seq<Naming>)
    requires (rank == 0 && key == "fact_id") || (rank == 1 && key == "supports_fact_id")
    ensures AreNamings(m, namings, rank, rank + 1) && Facts(namings) == Listed(NonEmptyString(m, key))
  {
    var o := NonEmptyString(m, key);
    namings := if o.Some? then [Naming(o.value, Spot(rank, 0))] else [];
    forall f ensures Holds(m, key, f) <==> o == Some(f) {
      HoldsIff(m, key, f);
    }
  }

  predicate ListKey(key: string, rank: nat) {
    (rank == 2 && key == "fact_ids") || (rank == 3 && key == "supports_fact_ids") || (rank == 4 && key == "supported_fact_ids")
  }

  /** The non-empty strings among some items, with their positions. */
  function ItemNamings(items: seq<Value>, rank: nat, from: nat): seq<Naming>
    requires from <= |items|
    decreases |items| - from
  {
    if from == |items| then []
    else (if items[from].Str? && items[from].text != "" then [Naming(items[from].text, Spot(rank, from))] else [])
         + ItemNamings(items, rank, from + 1)
  }

  lemma {:induction false} ItemNamingsHold(items: seq<Value>, rank: nat, from: nat)
    requires from <= |items|
    ensures forall n :: n in ItemNamings(items, rank, from)
                        <==> n.at.rank == rank && from <= n.at.index < |items| && n.f != "" && items[n.at.index] == Str(n.f)
    decreases |items| - from
  {
    if from < |items| {
      ItemNamingsHold(items, rank, from + 1);
    }
  }

  lemma {:induction false} ItemNamingsAre(items: seq<Value>, rank: nat, from: nat)
    requires from <= |items|
    ensures InOrder(ItemNamings(items, rank, from)) && Facts(ItemNamings(items, rank, from)) == NonEmptyStrings(items[from..])
    decreases |items| - from
  {
    if from < |items| {
      ItemNamingsAre(items, rank, from + 1);
      ItemNamingsHold(items, rank, from + 1);
      StringsFrom(items, from);
      var rest := ItemNamings(items, rank, from + 1);
      if items[from].Str? && items[from].text != "" {
        FirstNaming(items[from].text, rank, from, rest);
      } else {
        assert [] + rest == rest;
      }
    }
  }

  lemma StringsFrom(items: seq<Value>, from: nat)
    requires from < |items|
    ensures NonEmptyStrings(items[from..]) ==
            (if items[from].Str? && items[from].text != "" then [items[from].text] else []) + NonEmptyStrings(items[from + 1..])
  {
    assert items[from..][1..] == items[from + 1..] && items[from..][0] == items[from];
  }

  lemma FirstNaming(f: string, rank: nat, from: nat, rest: seq<Naming>)
    requires InOrder(rest) && forall n :: n in rest ==> n.at.rank == rank && from < n.at.index
    ensures InOrder([Naming(f, Spot(rank, from))] + rest) && Facts([Naming(f, Spot(rank, from))] + rest) == [f] + Facts(rest)
  {
    var all := [Naming(f, Spot(rank, from))] + rest;
    forall i, j | 0 <= i < j < |all| ensures all[i].at.Before(all[j].at) {
      assert rest[j - 1] in rest;
    }
  }

  lemma ListNaming(m: Fields, key: string, rank: nat) returns (namings: seq<Naming>)
    requires ListKey(key, rank)
    ensures AreNamings(m, namings, rank, rank + 1) && Facts(namings) == ListedStrings(m, key)
  {
    if key in m && m[key].Arr? {
      var items := m[key].items;
      namings := ItemNamings(items, rank, 0);
      ItemNamingsAre(items, rank, 0);
      ItemNamingsHold(items, rank, 0);
      assert items[0..] == items;
    } else {
      namings := [];
    }
  }

  lemma AllNamings(m: Fields) returns (namings: seq<Naming>)
    ensures AreNamings(m, namings, 0, 5)
    ensures Facts(namings) == StringsUnder(m, CLAIM_FACT_KEYS) + StringsListedUnder(m, CLAIM_FACT_LIST_KEYS)
  {
    var a := SingleNaming(m, "fact_id", 0);
    var b := SingleNaming(m, "supports_fact_id", 1);
    var c := ListNaming(m, "fact_ids", 2);
    var d := ListNaming(m, "supports_fact_ids", 3);
    var e := ListNaming(m, "supported_fact_ids", 4);
    NamingsJoin(m, a, b, 0, 1, 2);
    NamingsJoin(m, c, d, 2, 3, 4);
    NamingsJoin(m, c + d, e, 2, 4, 5);
    NamingsJoin(m, a + b, c + d + e, 0, 2, 5);
    namings := a + b + (c + d + e);
    TwoKeys(m);
    ThreeListKeys(m);
  }

  lemma TwoKeys(m: Fields)
    ensures StringsUnder(m, CLAIM_FACT_KEYS)
         == Listed(NonEmptyString(m, "fact_id")) + Listed(NonEmptyString(m, "supports_fact_id"))
  {
    var keys := CLAIM_FACT_KEYS;
    assert keys[..1][..0] == [] && keys[..1][0] == "fact_id";
    assert StringsUnder(m, keys[..1]) == Listed(NonEmptyString(m, "fact_id"));
  }

  lemma ThreeListKeys(m: Fields)
    ensures StringsListedUnder(m, CLAIM_FACT_LIST_KEYS)
         == ListedStrings(m, "fact_ids") + ListedStrings(m, "supports_fact_ids") + ListedStrings(m, "supported_fact_ids")
  {
    var keys := CLAIM_FACT_LIST_KEYS;
    assert keys[..2][..1] == keys[..1] && keys[..1][..0] == [];
    assert keys[..1][0] == "fact_ids" && keys[..2][1] == "supports_fact_ids" && keys[2] == "supported_fact_ids";
    assert StringsListedUnder(m, keys[..1]) == ListedStrings(m, "fact_ids");
    assert StringsListedUnder(m, keys[..2]) == StringsListedUnder(m, keys[..1]) + ListedStrings(m, "supports_fact_ids");
  }

  ghost predicate FirstsOf(firsts: seq<Naming>, namings: seq<Naming>) {
    && InOrder(firsts)
    && forall n :: n in firsts ==> n in namings && forall k :: k in namings && k.f == n.f ==> !k.at.Before(n.at)
  }

  lemma {:induction false} FirstNamings(namings: seq<Naming>) returns (firsts: seq<Naming>)
    requires InOrder(namings)
    ensures FirstsOf(firsts, namings) && Facts(firsts) == Dedup(Facts(namings))
  {
    if namings == [] {
      firsts := [];
    } else {
      var n := |namings| - 1;
      var last := namings[n];
      var earlier := FirstNamings(namings[..n]);
      assert Facts(namings)[..n] == Facts(namings[..n]) && Facts(namings)[n] == last.f;
      assert namings == namings[..n] + [last];
      if last.f in Facts(earlier) {
        firsts := earlier;
        LastIsLater(namings, earlier);
      } else {
        firsts := earlier + [last];
        LastIsNew(namings, earlier);
      }
    }
  }

  lemma LastIsLater(namings: seq<Naming>, earlier: seq<Naming>)
    requires namings != [] && InOrder(namings) && FirstsOf(earlier, namings[..|namings| - 1])
    ensures FirstsOf(earlier, namings)
  {
    var n := |namings| - 1;
    forall k, x | k in earlier && x in namings && x.f == k.f ensures k in namings && !x.at.Before(k.at) {
      var i :| 0 <= i < n && namings[..n][i] == k;
      if x == namings[n] {
        assert namings[i].at.Before(namings[n].at);
      } else {
        assert x in namings[..n];
      }
    }
    forall k | k in earlier ensures k in namings {
      assert k in namings[..n];
    }
  }

  lemma LastComesAfter(namings: seq<Naming>, k: Naming)
    requires namings != [] && InOrder(namings) && k in namings[..|namings| - 1]
    ensures k.at.Before(namings[|namings| - 1].at)
  {
    var j :| 0 <= j < |namings| - 1 && namings[..|namings| - 1][j] == k;
    assert namings[j] == k;
  }

  lemma NameIsNew(namings: seq<Naming>, f: string, x: Naming)
    requires f !in Facts(namings) && x in namings
    ensures x.f != f
  {
    var j :| 0 <= j < |namings| && namings[j] == x;
    assert Facts(namings)[j] == x.f;
  }

  lemma LastIsFirst(namings: seq<Naming>)
    requires namings != [] && namings[|namings| - 1].f !in Facts(namings[..|namings| - 1])
    ensures var last := namings[|namings| - 1]; forall x :: x in namings && x.f == last.f ==> x == last
  {
    var front, last := namings[..|namings| - 1], namings[|namings| - 1];
    assert namings == front + [last];
    forall x | x in front ensures x.f != last.f {
      NameIsNew(front, last.f, x);
    }
  }

  lemma LastIsNew(namings: seq<Naming>, earlier: seq<Naming>)
    requires namings != [] && InOrder(namings) && FirstsOf(earlier, namings[..|namings| - 1])
    requires Facts(earlier) == Dedup(Facts(namings[..|namings| - 1])) && namings[|namings| - 1].f !in Facts(earlier)
    ensures FirstsOf(earlier + [namings[|namings| - 1]], namings)
    ensures Facts(earlier + [namings[|namings| - 1]]) == Facts(earlier) + [namings[|namings| - 1].f]
  {
    var last := namings[|namings| - 1];
    LastIsLater(namings, earlier);
    LastIsFirst(namings);
    forall i | 0 <= i < |earlier| ensures earlier[i].at.Before(last.at) {
      LastComesAfter(namings, earlier[i]);
    }
    AppendedFirsts(namings, earlier, last);
  }

  lemma AppendedFirsts(namings: seq<Naming>, earlier: seq<Naming>, last: Naming)
    requires FirstsOf(earlier, namings) && last in namings
    requires forall i :: 0 <= i < |earlier| ==> earlier[i].at.Before(last.at)
    requires forall x :: x in namings && x.f == last.f ==> x == last
    ensures FirstsOf(earlier + [last], namings)
  {
    forall n | n in earlier + [last] ensures n in earlier || n == last {
    }
  }

  /** The facts of a mapping, each once, in the order of the places that first name them. */
  lemma FactsInOrder(m: Fields) returns (namings: seq<Naming>)
    ensures Facts(namings) == SupportedFactIds(m) && InOrder(namings)
    ensures forall n :: n in namings ==> FirstNamedAt(m, n.f, n.at)
  {
    var all := AllNamings(m);
    namings := FirstNamings(all);
    forall n | n in namings ensures FirstNamedAt(m, n.f, n.at) {
      forall other: Spot | other.Before(n.at) ensures !NamedAt(m, n.f, other) {
        assert NamedAt(m, n.f, other) ==> Naming(n.f, other) in all;
      }
    }
  }

  // ---------- The first fact ----------

  ghost predicate NothingBefore(m: Fields, at: Spot) {
    forall g, other: Spot :: other.Before(at) ==> !NamedAt(m, g, other)
  }

  /** The mapping names this fact before any other. */
  ghost predicate FirstFact(m: Fields, f: string) {
    exists at :: NamedAt(m, f, at) && NothingBefore(m, at)
  }

  lemma EarliestNaming(m: Fields, namings: seq<Naming>)
    requires Facts(namings) == SupportedFactIds(m) && InOrder(namings) && namings != []
    requires forall n :: n in namings ==> FirstNamedAt(m, n.f, n.at)
    ensures NamedAt(m, namings[0].f, namings[0].at) && NothingBefore(m, namings[0].at)
  {
    assert namings[0] in namings;
    forall g, other: Spot | other.Before(namings[0].at) ensures !NamedAt(m, g, other) {
      if NamedAt(m, g, other) {
        NamedSomewhere(m, g, other);
        var i :| 0 <= i < |SupportedFactIds(m)| && SupportedFactIds(m)[i] == g;
        assert namings[i] in namings && Facts(namings)[i] == namings[i].f == g;
        assert i > 0 ==> namings[0].at.Before(namings[i].at);
        assert other.Before(namings[i].at);
      }
    }
  }

  lemma NamedSomewhere(m: Fields, g: string, at: Spot)
    requires NamedAt(m, g, at)
    ensures g in SupportedFactIds(m)
  {
    NamedIff(m, g);
  }

  lemma OneFirst(m: Fields, f: string, g: string, a: Spot, b: Spot)
    requires NamedAt(m, f, a) && NothingBefore(m, a) && NamedAt(m, g, b) && NothingBefore(m, b)
    ensures f == g
  {
    assert !a.Before(b) && !b.Before(a);
    assert a == b;
  }

  lemma FirstFactIs(m: Fields, f: string)
    requires SupportedFactIds(m) != []
    ensures FirstFact(m, f) <==> f == SupportedFactIds(m)[0]
  {
    var namings := FactsInOrder(m);
    assert |Facts(namings)| == |namings| && Facts(namings)[0] == namings[0].f;
    EarliestNaming(m, namings);
    if at :| NamedAt(m, f, at) && NothingBefore(m, at) {
      OneFirst(m, f, namings[0].f, at, namings[0].at);
    }
  }

  // ---------- The text ----------

  function NonEmpty(parts: seq<string>): seq<string> {
    if parts == [] then []
    else NonEmpty(parts[..|parts| - 1]) + if parts[|parts| - 1] == "" then [] else [parts[|parts| - 1]]
  }

  lemma {:induction false} NonEmptyFirst(parts: seq<string>)
    requires parts != []
    ensures NonEmpty(parts) == (if parts[0] == "" then [] else [parts[0]]) + NonEmpty(parts[1..])
  {
    var n := |parts| - 1;
    if n == 0 {
      assert parts[..0] == [] && parts[1..] == [];
    } else {
      NonEmptyFirst(parts[..n]);
      assert parts[..n][1..] == parts[1..][..n - 1] && parts[1..][n - 1] == parts[n];
    }
  }

  lemma {:induction false} LinesAreJoined(parts: seq<string>)
    ensures Lines(parts) == Join(NonEmpty(parts), '\n')
    ensures Lines(parts) == "" <==> NonEmpty(parts) == []
  {
    if parts != [] {
      NonEmptyFirst(parts);
      LinesAreJoined(parts[1..]);
      var rest := NonEmpty(parts[1..]);
      if parts[0] != "" {
        assert ([parts[0]] + rest)[1..] == rest;
        assert "\n" == ['\n'];
      } else {
        assert [] + rest == rest;
      }
    }
  }

  function TextsUnder(m: Fields, keys: seq<string>): seq<string> {
    seq(|keys|, i requires 0 <= i < |keys| => TextUnder(m, keys[i]))
  }

  lemma {:induction false} TextsAreStrings(m: Fields, keys: seq<string>)
    ensures StringsUnder(m, keys) == NonEmpty(TextsUnder(m, keys))
  {
    if keys != [] {
      var n := |keys| - 1;
      TextsAreStrings(m, keys[..n]);
      assert TextsUnder(m, keys)[..n] == TextsUnder(m, keys[..n]);
    }
  }

  lemma TextIsStated(m: Fields)
    ensures ClaimText(m) == StatedText(m)
  {
    TextsAreStrings(m, CLAIM_TEXT_KEYS);
    LinesAreJoined(TextsUnder(m, CLAIM_TEXT_KEYS));
    FiveTexts(m);
  }

  lemma FiveTexts(m: Fields)
    ensures TextsUnder(m, CLAIM_TEXT_KEYS)
         == [TextUnder(m, "quoted_evidence"), TextUnder(m, "text"), TextUnder(m, "statement"), TextUnder(m, "claim"),
             TextUnder(m, "summary")]
  {
  }

  // ---------- The claims of one mapping ----------

  /** The claim says what the mapping says. */
  ghost predicate ClaimOf(c: Claim, m: Fields, surface: string) {
    && c.surface == surface && StatesChunk(m, c.chunkId) && c.text == StatedText(m)
    && match c.factId
       case Some(f) => NamesFact(m, f)
       case None => c.chunkId.Some? && forall f :: !NamesFact(m, f)
  }

  /** A mapping makes one claim per fact it names; without a fact, one if it states a chunk. */
  lemma MappingClaims(m: Fields, surface: string)
    ensures forall c :: c in ClaimsFromMapping(m, surface) <==> ClaimOf(c, m, surface)
    ensures var claims := ClaimsFromMapping(m, surface);
            forall i, j :: 0 <= i < j < |claims| ==> claims[i].factId != claims[j].factId
  {
    forall c ensures c in ClaimsFromMapping(m, surface) <==> ClaimOf(c, m, surface) {
      MappingClaim(m, surface, c);
    }
  }

  lemma NoFactNamed(m: Fields)
    ensures SupportedFactIds(m) == [] <==> forall f :: !NamesFact(m, f)
  {
    forall f ensures NamesFact(m, f) <==> f in SupportedFactIds(m) {
      NamedIff(m, f);
    }
    if SupportedFactIds(m) != [] {
      assert NamesFact(m, SupportedFactIds(m)[0]);
    }
  }

  lemma MappingClaim(m: Fields, surface: string, c: Claim)
    ensures c in ClaimsFromMapping(m, surface) <==> ClaimOf(c, m, surface)
  {
    TextIsStated(m);
    StatedChunkIsUnique(m, c.chunkId);
    ClaimInMapping(m, surface, c);
    NoFactNamed(m);
    if c.factId.Some? {
      NamedIff(m, c.factId.value);
    }
  }

  lemma ClaimInMapping(m: Fields, surface: string, c: Claim)
    ensures c in ClaimsFromMapping(m, surface)
       <==> c.surface == surface && c.chunkId == ChunkId(m) && c.text == ClaimText(m)
            && match c.factId case Some(f) => f in SupportedFactIds(m)
                              case None => ChunkId(m).Some? && SupportedFactIds(m) == []
  {
    var facts, claims := SupportedFactIds(m), ClaimsFromMapping(m, surface);
    if c.factId.Some? && c.factId.value in facts {
      var i :| 0 <= i < |facts| && facts[i] == c.factId.value;
      assert claims[i] == Claim(Some(facts[i]), ChunkId(m), surface, ClaimText(m));
    }
  }

  /** The claims of a mapping come in the order in which it first names their facts. */
  lemma MappingClaimsInOrder(m: Fields, surface: string) returns (namings: seq<Naming>)
    ensures InOrder(namings) && forall n :: n in namings ==> FirstNamedAt(m, n.f, n.at)
    ensures var claims := ClaimsFromMapping(m, surface);
            (forall c :: c in claims ==> c.factId.Some?) ==>
              |claims| == |namings| && forall i :: 0 <= i < |claims| ==> claims[i].factId == Some(namings[i].f)
  {
    namings := FactsInOrder(m);
    var claims := ClaimsFromMapping(m, surface);
    assert |Facts(namings)| == |namings|;
    if SupportedFactIds(m) == [] && claims != [] {
      assert claims[0] in claims;
    }
  }

  // ---------- The claims of a parent ----------

  /** A mapping that bears claims: the rank of its surface, its position in a list (0 for a single mapping). */
  datatype Place = Place(rank: nat, index: nat, mapping: Fields)
  {
    predicate Before(other: Place) {
      rank < other.rank || (rank == other.rank && index < other.index)
    }
  }

  function ResultKey(rank: nat): string
    requires rank < 5
  {
    if rank == 0 then "retained_facts" else if rank == 1 then "observed_facts" else if rank == 2 then "facts"
    else if rank == 3 then "retained_evidence" else "observed_evidence"
  }

  function SurfaceName(rank: nat): string {
    if rank < 5 then "result." + ResultKey(rank) else if rank == 5 then "result" else "evidence_references"
  }

  predicate PlaceIn(v: Value, p: Place) {
    match v
    case Obj(m) => p.index == 0 && p.mapping == m
    case Arr(items) => p.index < |items| && items[p.index] == Obj(p.mapping)
    case _ => false
  }

  predicate PlaceAt(parent: Fields, path: Path, p: Place) {
    At(Obj(parent), path).Some? && PlaceIn(At(Obj(parent), path).value, p)
  }

  /** The five surfaces of `result`, `result` itself if it has a `fact_id`, and the evidence references. */
  predicate Bears(parent: Fields, p: Place) {
    || (p.rank == 0 && PlaceAt(parent, [Key("result"), Key("retained_facts")], p))
    || (p.rank == 1 && PlaceAt(parent, [Key("result"), Key("observed_facts")], p))
    || (p.rank == 2 && PlaceAt(parent, [Key("result"), Key("facts")], p))
    || (p.rank == 3 && PlaceAt(parent, [Key("result"), Key("retained_evidence")], p))
    || (p.rank == 4 && PlaceAt(parent, [Key("result"), Key("observed_evidence")], p))
    || (p.rank == 5 && p.index == 0 && At(Obj(parent), [Key("result")]) == Some(Obj(p.mapping))
        && "fact_id" in p.mapping && p.mapping["fact_id"].Str?)
    || (p.rank == 6 && PlaceAt(parent, [Key("evidence_references")], p))
  }

  ghost predicate Increasing(places: seq<Place>) {
    forall i, j :: 0 <= i < j < |places| ==> places[i].Before(places[j])
  }

  function PlaceClaims(p: Place): seq<Claim> {
    ClaimsFromMapping(p.mapping, SurfaceName(p.rank))
  }

  /** Place by place, the claims of the mappings. */
  function ClaimsAt(places: seq<Place>): seq<Claim> {
    FlatMapped(places, PlaceClaims)
  }

  /** The places in one value that a surface holds. */
  ghost predicate ArePlacesIn(v: Value, rank: nat, places: seq<Place>) {
    && Increasing(places)
    && forall p :: p in places <==> p.rank == rank && PlaceIn(v, p)
  }

  function ItemPlaces(items: seq<Value>, rank: nat): seq<Place> {
    if items == [] then []
    else
      var n := |items| - 1;
      ItemPlaces(items[..n], rank) + if items[n].Obj? then [Place(rank, n, items[n].fields)] else []
  }

  lemma {:induction false} ItemPlacesAre(items: seq<Value>, rank: nat)
    ensures ArePlacesIn(Arr(items), rank, ItemPlaces(items, rank))
  {
    if items != [] {
      var n := |items| - 1;
      ItemPlacesAre(items[..n], rank);
      var front := ItemPlaces(items[..n], rank);
      forall i | 0 <= i < |front| ensures front[i].rank == rank && front[i].index < n {
        assert front[i] in front;
      }
      forall p: Place ensures p in ItemPlaces(items, rank) <==> p.rank == rank && PlaceIn(Arr(items), p) {
        assert p in front <==> p.rank == rank && PlaceIn(Arr(items[..n]), p);
      }
    }
  }

  lemma {:induction false} ItemPlacesClaim(items: seq<Value>, rank: nat)
    ensures ClaimsAt(ItemPlaces(items, rank)) == ClaimsFromItems(items, SurfaceName(rank))
  {
    if items != [] {
      var n := |items| - 1;
      var front, last := items[..n], items[n];
      ItemPlacesClaim(front, rank);
      if last.Obj? {
        OneMorePlace(ItemPlaces(front, rank), Place(rank, n, last.fields));
      } else {
        assert ItemPlaces(items, rank) == ItemPlaces(front, rank);
        assert ClaimsFromItems(items, SurfaceName(rank)) == ClaimsFromItems(front, SurfaceName(rank));
      }
    }
  }

  lemma OneMorePlace(places: seq<Place>, p: Place)
    ensures ClaimsAt(places + [p]) == ClaimsAt(places) + ClaimsFromMapping(p.mapping, SurfaceName(p.rank))
  {
    FlatMappedSnoc(places, p, PlaceClaims);
  }

  lemma SurfacePlaces(v: Value, rank: nat) returns (places: seq<Place>)
    ensures ArePlacesIn(v, rank, places) && ClaimsAt(places) == ClaimsFromSurface(v, SurfaceName(rank))
  {
    match v
    case Obj(m) =>
      places := [Place(rank, 0, m)];
      FlatMappedOne(places[0], PlaceClaims);
    case Arr(items) =>
      places := ItemPlaces(items, rank);
      ItemPlacesAre(items, rank);
      ItemPlacesClaim(items, rank);
    case _ =>
      places := [];
  }

  /** All claim-bearing places with ranks from `from` up to, but without, `to`. */
  ghost predicate AreBearers(parent: Fields, places: seq<Place>, from: nat, to: nat) {
    && Increasing(places)
    && forall p :: p in places <==> from <= p.rank < to && Bears(parent, p)
  }

  lemma BearersJoin(parent: Fields, a: seq<Place>, b: seq<Place>, from: nat, mid: nat, to: nat)
    requires from <= mid <= to && AreBearers(parent, a, from, mid) && AreBearers(parent, b, mid, to)
    ensures AreBearers(parent, a + b, from, to) && ClaimsAt(a + b) == ClaimsAt(a) + ClaimsAt(b)
  {
    FlatMappedAppend(a, b, PlaceClaims);
    forall i, j | 0 <= i < j < |a + b| ensures (a + b)[i].Before((a + b)[j]) {
      if i < |a| <= j {
        assert a[i] in a && b[j - |a|] in b;
      }
    }
  }

  lemma BearsUnderResult(parent: Fields, p: Place)
    requires p.rank < 5
    ensures Bears(parent, p) <==> PlaceAt(parent, [Key("result"), Key(ResultKey(p.rank))], p)
  {
  }

  lemma ResultSurface(parent: Fields, m: Fields, rank: nat) returns (places: seq<Place>)
    requires rank < 5 && Get(parent, "result") == Obj(m)
    ensures AreBearers(parent, places, rank, rank + 1)
    ensures ClaimsAt(places) == ClaimsFromSurface(Get(m, ResultKey(rank)), SurfaceName(rank))
  {
    var v := Get(m, ResultKey(rank));
    places := SurfacePlaces(v, rank);
    forall p: Place | p.rank == rank ensures Bears(parent, p) <==> PlaceIn(v, p) {
      BearsUnderResult(parent, p);
      UnderResult(parent, m, ResultKey(rank));
    }
  }

  lemma UnderResult(parent: Fields, m: Fields, key: string)
    requires Get(parent, "result") == Obj(m)
    ensures At(Obj(parent), [Key("result"), Key(key)]) == if key in m then Some(m[key]) else None
  {
    var path := [Key("result"), Key(key)];
    assert path[1..] == [Key(key)] && path[1..][1..] == [];
    assert At(Obj(m), [Key(key)]) == if key in m then Some(m[key]) else None;
  }

  function SurfaceClaims(m: Fields, key: string): seq<Claim> {
    ClaimsFromSurface(Get(m, key), "result." + key)
  }

  lemma FiveSurfaces(m: Fields, keys: seq<string>)
    requires |keys| == 5
    ensures ClaimsFromKeys(m, keys)
         == SurfaceClaims(m, keys[0]) + SurfaceClaims(m, keys[1]) + SurfaceClaims(m, keys[2])
            + SurfaceClaims(m, keys[3]) + SurfaceClaims(m, keys[4])
  {
    forall n | 0 <= n < 5
      ensures ClaimsFromKeys(m, keys[..n + 1]) == ClaimsFromKeys(m, keys[..n]) + SurfaceClaims(m, keys[n])
    {
      assert keys[..n + 1][..n] == keys[..n];
    }
    assert keys[..0] == [] && keys[..5] == keys;
    FiveSteps(ClaimsFromKeys(m, keys[..0]), ClaimsFromKeys(m, keys[..1]), ClaimsFromKeys(m, keys[..2]),
              ClaimsFromKeys(m, keys[..3]), ClaimsFromKeys(m, keys[..4]), ClaimsFromKeys(m, keys[..5]),
              SurfaceClaims(m, keys[0]), SurfaceClaims(m, keys[1]), SurfaceClaims(m, keys[2]),
              SurfaceClaims(m, keys[3]), SurfaceClaims(m, keys[4]));
  }

  lemma FiveSteps<T>(x0: seq<T>, x1: seq<T>, x2: seq<T>, x3: seq<T>, x4: seq<T>, x5: seq<T>,
                     a: seq<T>, b: seq<T>, c: seq<T>, d: seq<T>, e: seq<T>)
    requires x0 == [] && x1 == x0 + a && x2 == x1 + b && x3 == x2 + c && x4 == x3 + d && x5 == x4 + e
    ensures x5 == a + b + c + d + e
  {
    assert [] + a == a;
  }

  lemma ResultKeys()
    ensures |SURFACE_KEYS| == 5 && forall n: nat :: n < 5 ==> SURFACE_KEYS[n] == ResultKey(n)
  {
  }

  lemma FiveBearers(parent: Fields, m: Fields) returns (places: seq<Place>)
    requires Get(parent, "result") == Obj(m)
    ensures AreBearers(parent, places, 0, 5) && ClaimsAt(places) == ClaimsFromKeys(m, SURFACE_KEYS)
  {
    var a := ResultSurface(parent, m, 0);
    var b := ResultSurface(parent, m, 1);
    var c := ResultSurface(parent, m, 2);
    var d := ResultSurface(parent, m, 3);
    var e := ResultSurface(parent, m, 4);
    ResultKeys();
    FiveSurfaces(m, SURFACE_KEYS);
    BearersJoin(parent, a, b, 0, 1, 2);
    BearersJoin(parent, a + b, c, 0, 2, 3);
    BearersJoin(parent, a + b + c, d, 0, 3, 4);
    BearersJoin(parent, a + b + c + d, e, 0, 4, 5);
    places := a + b + c + d + e;
  }

  lemma ResultItself(parent: Fields, m: Fields) returns (places: seq<Place>)
    requires Get(parent, "result") == Obj(m)
    ensures AreBearers(parent, places, 5, 6)
    ensures ClaimsAt(places) == if Get(m, "fact_id").Str? then ClaimsFromSurface(Obj(m), "result") else []
  {
    var path := [Key("result")];
    assert path[1..] == [];
    places := if Get(m, "fact_id").Str? then [Place(5, 0, m)] else [];
    if Get(m, "fact_id").Str? {
      FlatMappedOne(places[0], PlaceClaims);
    }
  }

  lemma ResultBearers(parent: Fields) returns (places: seq<Place>)
    ensures AreBearers(parent, places, 0, 6) && ClaimsAt(places) == ClaimsFromResult(Get(parent, "result"))
  {
    var result := Get(parent, "result");
    if result.Obj? {
      var a := FiveBearers(parent, result.fields);
      var b := ResultItself(parent, result.fields);
      BearersJoin(parent, a, b, 0, 5, 6);
      places := a + b;
    } else {
      places := [];
      NothingUnderResult(parent);
    }
  }

  lemma NothingUnderResult(parent: Fields)
    requires !Get(parent, "result").Obj?
    ensures forall p: Place :: p.rank < 6 ==> !Bears(parent, p)
  {
    forall p: Place | p.rank < 6 ensures !Bears(parent, p) {
      if p.rank < 5 {
        BearsUnderResult(parent, p);
        var path := [Key("result"), Key(ResultKey(p.rank))];
        assert path[1..] == [Key(ResultKey(p.rank))];
      } else {
        var path := [Key("result")];
        assert path[1..] == [];
      }
    }
  }

  lemma ReferenceBearers(parent: Fields) returns (places: seq<Place>)
    ensures AreBearers(parent, places, 6, 7)
    ensures ClaimsAt(places) == ClaimsFromSurface(Get(parent, "evidence_references"), "evidence_references")
  {
    places := SurfacePlaces(Get(parent, "evidence_references"), 6);
    forall p: Place | p.rank == 6 ensures Bears(parent, p) <==> PlaceIn(Get(parent, "evidence_references"), p) {
      BearsReference(parent, p);
    }
  }

  lemma BearsReference(parent: Fields, p: Place)
    requires p.rank == 6
    ensures Bears(parent, p) <==> PlaceIn(Get(parent, "evidence_references"), p)
  {
    var path := [Key("evidence_references")];
    assert path[1..] == [];
  }

  /** The claims of a parent are those of its claim-bearing places, in the order of the places. */
  lemma ParentClaimsByPlace(parent: Fields) returns (places: seq<Place>)
    ensures Increasing(places) && forall p :: p in places <==> Bears(parent, p)
    ensures ParentClaims(parent) == ClaimsAt(places)
  {
    var a := ResultBearers(parent);
    var b := ReferenceBearers(parent);
    BearersJoin(parent, a, b, 0, 6, 7);
    places := a + b;
    forall p: Place | Bears(parent, p) ensures p.rank < 7 {
    }
  }

  /** A parent makes a claim exactly when some place of it says so. */
  lemma ParentClaimIff(parent: Fields, c: Claim)
    ensures c in ParentClaims(parent) <==> exists p: Place :: Bears(parent, p) && ClaimOf(c, p.mapping, SurfaceName(p.rank))
  {
    var places := ParentClaimsByPlace(parent);
    FlatMappedMember(places, PlaceClaims, c);
    forall p: Place ensures c in PlaceClaims(p) <==> ClaimOf(c, p.mapping, SurfaceName(p.rank)) {
      MappingClaims(p.mapping, SurfaceName(p.rank));
    }
  }

  // ---------- The gate ----------

  /** The entry is the last one of its fact in the manifest. */
  ghost predicate LastOfFact(manifest: seq<Evidence>, e: Evidence) {
    exists i :: 0 <= i < |manifest| && LastAt(manifest, e, i)
  }

  ghost predicate LastAt(manifest: seq<Evidence>, e: Evidence, i: nat)
    requires i < |manifest|
  {
    manifest[i] == e && forall j :: i < j < |manifest| ==> manifest[j].factId != e.factId
  }

  lemma {:induction false} ByFactIsLast(manifest: seq<Evidence>, e: Evidence)
    ensures e.factId in ByFact(manifest) && ByFact(manifest)[e.factId] == e <==> LastOfFact(manifest, e)
  {
    if manifest != [] {
      var n := |manifest| - 1;
      var front, last := manifest[..n], manifest[n];
      ByFactIsLast(front, e);
      if last == e {
        assert LastAt(manifest, e, n);
      } else if last.factId != e.factId {
        LastInFront(manifest, e);
      }
    }
  }

  lemma LastInFront(manifest: seq<Evidence>, e: Evidence)
    requires manifest != [] && manifest[|manifest| - 1].factId != e.factId
    ensures LastOfFact(manifest, e) <==> LastOfFact(manifest[..|manifest| - 1], e)
  {
    var front := manifest[..|manifest| - 1];
    forall i | 0 <= i < |front| ensures LastAt(front, e, i) <==> LastAt(manifest, e, i) {
      assert forall j :: i < j < |front| ==> front[j] == manifest[j];
    }
    if LastOfFact(front, e) {
      var i :| 0 <= i < |front| && LastAt(front, e, i);
      assert LastAt(manifest, e, i);
    }
    if LastOfFact(manifest, e) {
      var i :| 0 <= i < |manifest| && LastAt(manifest, e, i);
      assert LastAt(front, e, i);
    }
  }

  ghost predicate Known(manifest: seq<Evidence>, f: string) {
    exists e :: e in manifest && e.factId == f
  }

  /** The claim names a fact and cites the chunk that the manifest's last entry of the fact has. */
  ghost predicate Cites(c: Claim, manifest: seq<Evidence>) {
    exists e :: LastOfFact(manifest, e) && c.factId == Some(e.factId) && c.chunkId == Some(e.chunkId)
  }

  /** Why the gate objects to a claim. */
  ghost predicate ObjectedFor(c: Claim, manifest: seq<Evidence>, reason: Reason) {
    match reason
    case ChunkHandleWithoutFact => c.factId == None
    case UnsupportedFactId => c.factId.Some? && !Known(manifest, c.factId.value)
    case MissingEvidenceHandle => c.factId.Some? && Known(manifest, c.factId.value) && c.chunkId == None
    case EvidenceHandleMismatch =>
      c.factId.Some? && Known(manifest, c.factId.value) && c.chunkId.Some? && !Cites(c, manifest)
    case NoClaimBearingSurface => false
  }

  lemma KnownIff(manifest: seq<Evidence>, f: string)
    ensures Known(manifest, f) <==> f in ByFact(manifest)
  {
    if f in ByFact(manifest) {
      assert ByFact(manifest)[f] in manifest;
    }
  }

  lemma CitesIff(c: Claim, manifest: seq<Evidence>)
    ensures Cites(c, manifest) <==> Supported(c, ByFact(manifest))
  {
    if Supported(c, ByFact(manifest)) {
      var e := ByFact(manifest)[c.factId.value];
      ByFactIsLast(manifest, e);
      assert LastOfFact(manifest, e);
    }
    if Cites(c, manifest) {
      var e :| LastOfFact(manifest, e) && c.factId == Some(e.factId) && c.chunkId == Some(e.chunkId);
      ByFactIsLast(manifest, e);
    }
  }

  lemma ObjectionMeans(c: Claim, manifest: seq<Evidence>, reason: Reason)
    ensures Objection(c, ByFact(manifest)) == Some(reason) <==> ObjectedFor(c, manifest, reason)
  {
    match c.factId
    case None =>
      assert !Cites(c, manifest);
    case Some(f) =>
      CitesIff(c, manifest);
      KnownIff(manifest, f);
  }

  /**
    * The verdict in terms of the parent's fields: accepted exactly when some place makes a claim and every claim
    * made cites its fact's last manifest entry; a claim is rejected for exactly the reason that applies to it.
    */
  lemma VerdictMeans(manifest: seq<Evidence>, parent: Fields)
    ensures var v := Validate(manifest, parent);
            && (v.accepted <==> (exists c :: Makes(parent, c)) && forall c :: Makes(parent, c) ==> Cites(c, manifest))
            && (forall c, reason :: reason != NoClaimBearingSurface ==>
                  (Rejection(reason, c) in v.rejectedClaims <==> Makes(parent, c) && ObjectedFor(c, manifest, reason)))
  {
    var claims := ParentClaims(parent);
    forall c ensures c in claims <==> Makes(parent, c) {
      ParentClaimIff(parent, c);
    }
    forall c ensures Cites(c, manifest) <==> Supported(c, ByFact(manifest)) {
      CitesIff(c, manifest);
    }
    AcceptanceIsSupport(manifest, parent);
    assert claims != [] ==> claims[0] in claims;
    forall c, reason | reason != NoClaimBearingSurface
      ensures Rejection(reason, c) in Validate(manifest, parent).rejectedClaims
              <==> Makes(parent, c) && ObjectedFor(c, manifest, reason)
    {
      RejectedIffObjected(claims, ByFact(manifest), Rejection(reason, c));
      ObjectionMeans(c, manifest, reason);
    }
  }

  /** Some place of the parent makes the claim. */
  ghost predicate Makes(parent: Fields, c: Claim) {
    exists p: Place :: Bears(parent, p) && ClaimOf(c, p.mapping, SurfaceName(p.rank))
  }

  /** A mapping that states another chunk under `chunk_id` is rejected for it, whatever its other chunk fields hold. */
  lemma OtherChunkIsRejected(manifest: seq<Evidence>, parent: Fields, p: Place, e: Evidence, z: string)
    requires Bears(parent, p) && NamesFact(p.mapping, e.factId) && LastOfFact(manifest, e)
    requires Holds(p.mapping, "chunk_id", z) && z != e.chunkId
    ensures var v := Validate(manifest, parent);
            && !v.accepted
            && Rejection(EvidenceHandleMismatch, Claim(Some(e.factId), Some(z), SurfaceName(p.rank), StatedText(p.mapping)))
               in v.rejectedClaims
  {
    var c := Claim(Some(e.factId), Some(z), SurfaceName(p.rank), StatedText(p.mapping));
    PlaceMakes(parent, p, c);
    MismatchObjected(manifest, c, e);
    RejectedFor(manifest, parent, c, EvidenceHandleMismatch);
  }

  lemma PlaceMakes(parent: Fields, p: Place, c: Claim)
    requires Bears(parent, p) && ClaimOf(c, p.mapping, SurfaceName(p.rank))
    ensures Makes(parent, c)
  {
  }

  lemma RejectedFor(manifest: seq<Evidence>, parent: Fields, c: Claim, reason: Reason)
    requires Makes(parent, c) && ObjectedFor(c, manifest, reason) && !Cites(c, manifest)
    ensures !Validate(manifest, parent).accepted && Rejection(reason, c) in Validate(manifest, parent).rejectedClaims
  {
    VerdictMeans(manifest, parent);
  }

  lemma MismatchObjected(manifest: seq<Evidence>, c: Claim, e: Evidence)
    requires LastOfFact(manifest, e) && c.factId == Some(e.factId) && c.chunkId.Some? && c.chunkId.value != e.chunkId
    ensures ObjectedFor(c, manifest, EvidenceHandleMismatch) && !Cites(c, manifest)
  {
    assert e in manifest;
    CitesIff(c, manifest);
    ByFactIsLast(manifest, e);
  }

  lemma MadeByParent(parent: Fields, c: Claim)
    ensures c in ParentClaims(parent) <==> Makes(parent, c)
  {
    ParentClaimIff(parent, c);
  }

  lemma NothingMade(parent: Fields)
    ensures ParentClaims(parent) == [] <==> forall c :: !Makes(parent, c)
  {
    forall c ensures c in ParentClaims(parent) <==> Makes(parent, c) {
      MadeByParent(parent, c);
    }
    if ParentClaims(parent) != [] {
      assert Makes(parent, ParentClaims(parent)[0]);
    }
  }

  /** A parent that makes no claim is refused for that alone. */
  lemma SilentParentIsRefused(manifest: seq<Evidence>, parent: Fields)
    requires forall c :: !Makes(parent, c)
    ensures var v := Validate(manifest, parent);
            && !v.accepted && v.acceptedClaims == []
            && v.rejectedClaims == [Rejection(NoClaimBearingSurface, Claim(None, None, "parent_synthesis", ""))]
  {
    NothingMade(parent);
  }

  lemma {:induction false} AcceptedAre(claims: seq<Claim>, allowed: map<string, Evidence>, c: Claim)
    ensures c in AcceptedOf(claims, allowed) <==> c in claims && Supported(c, allowed)
  {
    if claims != [] {
      AcceptedAre(claims[..|claims| - 1], allowed, c);
      assert claims == claims[..|claims| - 1] + [claims[|claims| - 1]];
    }
  }

  /** The accepted claims are those made that cite their fact's entry. */
  lemma AcceptedClaimsMean(manifest: seq<Evidence>, parent: Fields, c: Claim)
    ensures c in Validate(manifest, parent).acceptedClaims <==> Makes(parent, c) && Cites(c, manifest)
  {
    AcceptedAre(ParentClaims(parent), ByFact(manifest), c);
    MadeByParent(parent, c);
    CitesIff(c, manifest);
  }

  /** The verdict lists the facts and the chunks of the manifest. */
  lemma AllowedIdsMean(manifest: seq<Evidence>, parent: Fields, s: string)
    ensures s in Validate(manifest, parent).allowedFactIds <==> exists e :: e in manifest && e.factId == s
    ensures s in Validate(manifest, parent).allowedChunkIds <==> exists e :: e in manifest && e.chunkId == s
  {
    FactListed(manifest, s);
    ChunkListed(manifest, s);
  }

  /** The unsupported rate is the share of rejected claims. */
  lemma RateMeans(v: Verdict)
    ensures v.UnsupportedClaimRate() * (|v.acceptedClaims| + |v.rejectedClaims|) as real == |v.rejectedClaims| as real
  {
    var k, n := |v.rejectedClaims|, |v.acceptedClaims| + |v.rejectedClaims|;
    if n > 0 {
      Quotient(k as real, n as real);
    }
  }

  lemma FactListed(manifest: seq<Evidence>, f: string)
    ensures f in FactIds(manifest) <==> exists e :: e in manifest && e.factId == f
  {
    var ids := seq(|manifest|, i requires 0 <= i < |manifest| => manifest[i].factId);
    if e :| e in manifest && e.factId == f {
      var i :| 0 <= i < |manifest| && manifest[i] == e;
      assert ids[i] == f;
    }
    if f in ids {
      var i :| 0 <= i < |ids| && ids[i] == f;
      assert manifest[i] in manifest;
    }
  }

  lemma ChunkListed(manifest: seq<Evidence>, c: string)
    ensures c in ChunkIds(manifest) <==> exists e :: e in manifest && e.chunkId == c
  {
    var ids := seq(|manifest|, i requires 0 <= i < |manifest| => manifest[i].chunkId);
    if e :| e in manifest && e.chunkId == c {
      var i :| 0 <= i < |manifest| && manifest[i] == e;
      assert ids[i] == c;
    }
    if c in ids {
      var i :| 0 <= i < |ids| && ids[i] == c;
      assert manifest[i] in manifest;
    }
  }
}
