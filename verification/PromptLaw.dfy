/** The law of the repair prompt: which repairs get a prompt that order, repetition and run-specific keys cannot change. */
module PromptLaw {
  import opened Json
  import opened Text
  import opened Ordering
  import opened TraceGuard
  import opened CanonicalJson
  import opened Variants
  import opened ChildRecords
  import opened RepairPrompt
  import opened PromptInvariance
  import RepairReferences

  type Records = seq<Mapping>

  ghost predicate WellFormedRecords(records: Records) {
    forall r :: r in records ==> WellFormed(TObj(r))
  }

  function Reported(r: Mapping, key: string): seq<Tree> {
    ListIn(Lookup(r, "output"), key)
  }

  /** The same up to the order of observed facts and gaps, and up to whatever the prompt does not read. */
  ghost predicate Shuffled(r: Mapping, q: Mapping) {
    && WellFormed(TObj(q)) && Lookup(r, "chunk_id") == Lookup(q, "chunk_id")
    && multiset(Reported(r, "observed_facts")) == multiset(Reported(q, "observed_facts"))
    && multiset(Reported(r, "residual_gaps")) == multiset(Reported(q, "residual_gaps"))
  }

  /** The same up to key order, run-specific keys, and the order of observed facts and gaps. */
  ghost predicate Restates(r: Mapping, q: Mapping, volatile: KeyTest) {
    exists form: Mapping :: Variant(TObj(r), TObj(form), volatile) && Shuffled(form, q)
  }

  ghost predicate RestatedBy(r: Mapping, b: Records, volatile: KeyTest) {
    exists q :: q in b && Restates(r, q, volatile)
  }

  ghost predicate Restating(a: Records, q: Mapping, volatile: KeyTest) {
    exists r :: r in a && Restates(r, q, volatile)
  }

  /** The same records up to order, repetition and the way each is stated. */
  ghost predicate SameRecords(a: Records, b: Records, volatile: KeyTest) {
    && (forall r :: r in a ==> RestatedBy(r, b, volatile))
    && (forall q :: q in b ==> Restating(a, q, volatile))
  }

  lemma ShuffledSeen(r: Mapping, q: Mapping, str: TreeRendering)
    requires Shuffled(r, q)
    ensures SeenIn(r, str) == SeenIn(q, str)
  {
    RearrangedLists(Reported(r, "observed_facts"), Reported(q, "observed_facts"), str);
    RearrangedLists(Reported(r, "residual_gaps"), Reported(q, "residual_gaps"), str);
  }

  lemma RestatedForm(r: Mapping, q: Mapping, str: TreeRendering, volatile: KeyTest) returns (form: Mapping)
    requires Restates(r, q, volatile)
    ensures Variant(TObj(r), TObj(form), volatile) && SeenIn(q, str) == SeenIn(form, str)
  {
    form :| Variant(TObj(r), TObj(form), volatile) && Shuffled(form, q);
    ShuffledSeen(form, q, str);
  }

  /** The same records in the same order, up to key order and run-specific keys. */
  ghost predicate OneByOne(a: Records, b: Records, volatile: KeyTest) {
    |a| == |b| && forall i :: 0 <= i < |a| ==> Variant(TObj(a[i]), TObj(b[i]), volatile)
  }

  lemma OneByOneIsSame(a: Records, b: Records, volatile: KeyTest)
    requires OneByOne(a, b, volatile)
    ensures SameRecords(a, b, volatile)
  {
    forall r | r in a ensures RestatedBy(r, b, volatile) {
      var i :| 0 <= i < |a| && a[i] == r;
      VariantRestates(a[i], b[i], volatile);
      assert b[i] in b;
    }
    forall q | q in b ensures Restating(a, q, volatile) {
      var i :| 0 <= i < |b| && b[i] == q;
      VariantRestates(a[i], b[i], volatile);
      assert a[i] in a;
    }
  }

  lemma VariantRestates(r: Mapping, q: Mapping, volatile: KeyTest)
    requires Variant(TObj(r), TObj(q), volatile)
    ensures Restates(r, q, volatile)
  {
    assert Shuffled(q, q);
  }

  // ---------- Lists of records ----------

  ghost predicate ListFixed(a: Records, str: TreeRendering, dump: Dump, volatile: KeyTest) {
    forall b :: SameRecords(a, b, volatile) ==> PromptChildren(b, str, dump) == PromptChildren(a, str, dump)
  }

  ghost predicate ListFixedOneByOne(a: Records, str: TreeRendering, dump: Dump, volatile: KeyTest) {
    forall b :: OneByOne(a, b, volatile) ==> PromptChildren(b, str, dump) == PromptChildren(a, str, dump)
  }

  ghost predicate SteadyReads(a: Records, s: Seen, str: TreeRendering, volatile: KeyTest) {
    exists q :: q in a && Steady(q, volatile) && SeenIn(q, str) == s
  }

  /** Whatever form a record takes, some record that cannot vary already reads like it. */
  ghost predicate Covered(a: Records, str: TreeRendering, volatile: KeyTest) {
    forall r: Mapping, form: Mapping ::
      r in a && Variant(TObj(r), TObj(form), volatile) ==> SteadyReads(a, SeenIn(form, str), str, volatile)
  }

  lemma SayingRecord(a: Records, s: Seen, str: TreeRendering) returns (r: Mapping)
    requires s in ChildrenSay(a, str)
    ensures r in a && SeenIn(r, str) == s
  {
    r :| r in a && SeenIn(r, str) == s;
  }

  lemma CoveredForm(a: Records, r: Mapping, form: Mapping, str: TreeRendering, volatile: KeyTest) returns (q: Mapping)
    requires Covered(a, str, volatile) && r in a && Variant(TObj(r), TObj(form), volatile)
    ensures q in a && Steady(q, volatile) && SeenIn(q, str) == SeenIn(form, str)
  {
    assert SteadyReads(a, SeenIn(form, str), str, volatile);
    q :| q in a && Steady(q, volatile) && SeenIn(q, str) == SeenIn(form, str);
  }

  lemma StatedIn(a: Records, b: Records, q: Mapping, volatile: KeyTest) returns (r: Mapping)
    requires SameRecords(a, b, volatile) && q in b
    ensures r in a && Restates(r, q, volatile)
  {
    assert Restating(a, q, volatile);
    r :| r in a && Restates(r, q, volatile);
  }

  lemma RestatedIn(a: Records, b: Records, r: Mapping, volatile: KeyTest) returns (q: Mapping)
    requires SameRecords(a, b, volatile) && r in a
    ensures q in b && Restates(r, q, volatile)
  {
    assert RestatedBy(r, b, volatile);
    q :| q in b && Restates(r, q, volatile);
  }

  lemma CoveredSaysNoMore(a: Records, b: Records, s: Seen, str: TreeRendering, volatile: KeyTest)
    requires Covered(a, str, volatile) && SameRecords(a, b, volatile) && s in ChildrenSay(b, str)
    ensures s in ChildrenSay(a, str)
  {
    var stated := SayingRecord(b, s, str);
    var r := StatedIn(a, b, stated, volatile);
    var form := RestatedForm(r, stated, str, volatile);
    var q := CoveredForm(a, r, form, str, volatile);
  }

  lemma SteadySaysIt(q: Mapping, a: Records, b: Records, str: TreeRendering, volatile: KeyTest)
    requires Legible(str) && KeepsReadKeys(volatile) && Steady(q, volatile) && SameRecords(a, b, volatile) && q in a
    ensures SeenIn(q, str) in ChildrenSay(b, str)
  {
    var stated := RestatedIn(a, b, q, volatile);
    var form := RestatedForm(q, stated, str, volatile);
    SteadyIsFixed(q, str, volatile);
  }

  lemma CoveredSaysNoLess(a: Records, b: Records, s: Seen, str: TreeRendering, volatile: KeyTest)
    requires Legible(str) && KeepsReadKeys(volatile) && WellFormedRecords(a)
    requires Covered(a, str, volatile) && SameRecords(a, b, volatile) && s in ChildrenSay(a, str)
    ensures s in ChildrenSay(b, str)
  {
    var r := SayingRecord(a, s, str);
    var q := CoveredForm(a, r, r, str, volatile);
    SteadySaysIt(q, a, b, str, volatile);
  }

  lemma CoveredIsFixed(a: Records, str: TreeRendering, dump: Dump, volatile: KeyTest)
    requires Injective(dump) && Legible(str) && KeepsReadKeys(volatile) && WellFormedRecords(a)
    requires Covered(a, str, volatile)
    ensures ListFixed(a, str, dump, volatile)
  {
    forall b | SameRecords(a, b, volatile) ensures PromptChildren(b, str, dump) == PromptChildren(a, str, dump) {
      forall s ensures s in ChildrenSay(a, str) <==> s in ChildrenSay(b, str) {
        if s in ChildrenSay(b, str) {
          CoveredSaysNoMore(a, b, s, str, volatile);
        }
        if s in ChildrenSay(a, str) {
          CoveredSaysNoLess(a, b, s, str, volatile);
        }
      }
      PromptChildrenIff(b, a, str, dump);
    }
  }

  /** A form of the record that reads unlike `s`, unless the record cannot vary and reads like `s`. */
  lemma AvoidRecord(q: Mapping, s: Seen, str: TreeRendering, volatile: KeyTest) returns (form: Mapping)
    requires Legible(str) && KeepsReadKeys(volatile) && WellFormed(TObj(q))
    requires !(Steady(q, volatile) && SeenIn(q, str) == s)
    ensures Variant(TObj(q), TObj(form), volatile) && SeenIn(form, str) != s
  {
    RecordFixedIff(q, str, volatile);
    form := q;
    if SeenIn(q, str) == s {
      form :| Variant(TObj(q), TObj(form), volatile) && SeenIn(form, str) != SeenIn(q, str);
    }
  }

  lemma {:induction false} Avoid(a: Records, s: Seen, str: TreeRendering, volatile: KeyTest) returns (b: Records)
    requires Legible(str) && KeepsReadKeys(volatile) && WellFormedRecords(a) && !SteadyReads(a, s, str, volatile)
    ensures OneByOne(a, b, volatile) && s !in ChildrenSay(b, str)
  {
    b := [];
    if a != [] {
      NotSteady(a, s, str, volatile);
      var form := AvoidRecord(a[0], s, str, volatile);
      var rest := Avoid(a[1..], s, str, volatile);
      b := [form] + rest;
      OneMoreByOne(a, form, rest, volatile);
      SaysOneMore(form, rest, str);
    }
  }

  lemma NotSteady(a: Records, s: Seen, str: TreeRendering, volatile: KeyTest)
    requires a != [] && WellFormedRecords(a) && !SteadyReads(a, s, str, volatile)
    ensures !(Steady(a[0], volatile) && SeenIn(a[0], str) == s)
    ensures WellFormedRecords(a[1..]) && !SteadyReads(a[1..], s, str, volatile)
  {
    assert a[0] in a;
    forall q | q in a[1..] ensures q in a {
    }
  }

  lemma OneMoreByOne(a: Records, form: Mapping, rest: Records, volatile: KeyTest)
    requires a != [] && Variant(TObj(a[0]), TObj(form), volatile) && OneByOne(a[1..], rest, volatile)
    ensures OneByOne(a, [form] + rest, volatile)
  {
    forall i | 0 < i < |a| ensures Variant(TObj(a[i]), TObj(([form] + rest)[i]), volatile) {
      assert Variant(TObj(a[1..][i - 1]), TObj(rest[i - 1]), volatile);
    }
  }

  lemma SaysOneMore(r: Mapping, rest: Records, str: TreeRendering)
    ensures ChildrenSay([r] + rest, str) == {SeenIn(r, str)} + ChildrenSay(rest, str)
  {
    assert forall q :: q in [r] + rest <==> q == r || q in rest;
  }

  /** Replaces one record by one of its forms. */
  lemma PutForm(a: Records, r: Mapping, form: Mapping, str: TreeRendering, volatile: KeyTest) returns (b: Records)
    requires WellFormedRecords(a) && r in a && Variant(TObj(r), TObj(form), volatile)
    ensures OneByOne(a, b, volatile) && SeenIn(form, str) in ChildrenSay(b, str)
  {
    var i :| 0 <= i < |a| && a[i] == r;
    b := a[i := form];
    forall j | 0 <= j < |a| ensures Variant(TObj(a[j]), TObj(b[j]), volatile) {
      assert a[j] in a;
    }
    assert b[i] in b;
  }

  lemma FixedIsCovered(a: Records, str: TreeRendering, dump: Dump, volatile: KeyTest)
    requires Injective(dump) && Legible(str) && KeepsReadKeys(volatile) && WellFormedRecords(a)
    requires ListFixedOneByOne(a, str, dump, volatile)
    ensures Covered(a, str, volatile)
  {
    forall r: Mapping, form: Mapping | r in a && Variant(TObj(r), TObj(form), volatile)
      ensures SteadyReads(a, SeenIn(form, str), str, volatile)
    {
      var s := SeenIn(form, str);
      if !SteadyReads(a, s, str, volatile) {
        var without := Avoid(a, s, str, volatile);
        var with := PutForm(a, r, form, str, volatile);
        PromptChildrenIff(without, with, str, dump);
        assert false;
      }
    }
  }

  /**
    * The child part is the same for every list that states the same records exactly when each form of each record
    * is already there as a record that cannot vary. Changing one record at a time, in place, is no easier.
    */
  lemma ChildrenFixedIff(a: Records, str: TreeRendering, dump: Dump, volatile: KeyTest)
    requires Injective(dump) && Legible(str) && KeepsReadKeys(volatile) && WellFormedRecords(a)
    ensures ListFixed(a, str, dump, volatile) <==> Covered(a, str, volatile)
    ensures ListFixedOneByOne(a, str, dump, volatile) <==> Covered(a, str, volatile)
  {
    if Covered(a, str, volatile) {
      CoveredIsFixed(a, str, dump, volatile);
    }
    if ListFixed(a, str, dump, volatile) {
      forall b | OneByOne(a, b, volatile) ensures PromptChildren(b, str, dump) == PromptChildren(a, str, dump) {
        OneByOneIsSame(a, b, volatile);
      }
    }
    if ListFixedOneByOne(a, str, dump, volatile) {
      FixedIsCovered(a, str, dump, volatile);
    }
  }

  // ---------- With a run-specific key: no object is handed to `str` ----------

  ghost predicate Distinguishes<T(!new)>(f: nat -> T) {
    forall i: nat, j: nat :: f(i) == f(j) ==> i == j
  }

  /** Infinitely many different things do not fit into a finite set. */
  lemma {:induction false} Overflows<T(!new)>(f: nat -> T, s: set<T>, n: nat) returns (i: nat)
    requires Distinguishes(f) && n > |s|
    ensures i < n && f(i) !in s
  {
    i := n - 1;
    if f(i) in s {
      var last := i;
      i := Overflows(f, s - {f(last)}, last);
    }
  }

  ghost predicate HandsNoObject(records: Records) {
    forall r, v :: r in records && Hands(r, v) ==> !HasObject(v)
  }

  lemma ObjectIsNotCovered(a: Records, r: Mapping, v: Tree, key: string, str: TreeRendering, volatile: KeyTest)
    requires Legible(str) && KeepsReadKeys(volatile) && WellFormedRecords(a) && volatile(key)
    requires r in a && Hands(r, v) && HasObject(v)
    ensures !Covered(a, str, volatile)
  {
    var salted := (n: nat) => SeenIn(Changed(r, Salting(key, n)), str);
    forall m: nat, n: nat | m != n ensures salted(m) != salted(n) {
      SaltsShow(r, v, key, m, n, str, volatile);
    }
    var n := Overflows(salted, ChildrenSay(a, str), |ChildrenSay(a, str)| + 1);
    SaltsShow(r, v, key, n, n + 1, str, volatile);
    assert !SteadyReads(a, salted(n), str, volatile);
  }

  lemma SteadyIsCovered(a: Records, str: TreeRendering, volatile: KeyTest)
    requires Legible(str) && KeepsReadKeys(volatile) && forall r :: r in a ==> Steady(r, volatile)
    ensures Covered(a, str, volatile)
  {
    forall r: Mapping, form: Mapping | r in a && Variant(TObj(r), TObj(form), volatile)
      ensures SteadyReads(a, SeenIn(form, str), str, volatile)
    {
      SteadyIsFixed(r, str, volatile);
    }
  }

  /** As soon as some key is run-specific: exactly the lists that hand no object to `str`. */
  lemma ChildrenFixedIffNoObject(a: Records, key: string, str: TreeRendering, dump: Dump, volatile: KeyTest)
    requires Injective(dump) && Legible(str) && KeepsReadKeys(volatile) && WellFormedRecords(a) && volatile(key)
    ensures ListFixed(a, str, dump, volatile) <==> HandsNoObject(a)
    ensures ListFixedOneByOne(a, str, dump, volatile) <==> HandsNoObject(a)
  {
    ChildrenFixedIff(a, str, dump, volatile);
    if HandsNoObject(a) {
      SteadyIsCovered(a, str, volatile);
    }
    forall r, v | r in a && Hands(r, v) && HasObject(v) ensures !Covered(a, str, volatile) {
      ObjectIsNotCovered(a, r, v, key, str, volatile);
    }
  }

  // ---------- The whole prompt input ----------

  /** The same repair up to order and repetition of manifest and children, order of facts and gaps, key order and
      run-specific keys. */
  ghost predicate SameRepair(c: Contract, d: Contract, x: Context) {
    && WellFormedContract(d)
    && Meaning(c.rejectedClaim, x.volatile) == Meaning(d.rejectedClaim, x.volatile)
    && ManifestSays(c.manifest) == ManifestSays(d.manifest)
    && Meaning(c.parent, x.volatile) == Meaning(d.parent, x.volatile)
    && SameRecords(c.children, d.children, x.volatile)
  }

  ghost predicate PromptFixed(c: Contract, x: Context) {
    forall d :: SameRepair(c, d, x) ==> FromContract(d, x) == FromContract(c, x)
  }

  /**
    * The prompt input is unchanged by all of these exactly when no child record hands an object to `str`.
    */
  lemma PromptFixedIff(c: Contract, key: string, x: Context)
    requires WellFormedContract(c) && WellFormedRecords(c.children)
    requires Injective(x.dump) && Legible(x.str) && KeepsReadKeys(x.volatile) && x.volatile(key)
    ensures PromptFixed(c, x) <==> HandsNoObject(c.children)
  {
    ChildrenFixedIffNoObject(c.children, key, x.str, x.dump, x.volatile);
    if HandsNoObject(c.children) {
      forall d | SameRepair(c, d, x) ensures FromContract(d, x) == FromContract(c, x) {
        StableIffSameMeaning(d.rejectedClaim, c.rejectedClaim, x.volatile);
        PromptManifestIff(d.manifest, c.manifest);
        StableIffSameMeaning(d.parent, c.parent, x.volatile);
      }
    }
    if PromptFixed(c, x) {
      forall b | SameRecords(c.children, b, x.volatile)
        ensures PromptChildren(b, x.str, x.dump) == PromptChildren(c.children, x.str, x.dump)
      {
        var d := c.(children := b);
        assert SameRepair(c, d, x);
        assert FromContract(d, x) == FromContract(c, x);
      }
    }
  }

  // ---------- Inputs that show it ----------

  function GapOutput(gap: Tree): Tree {
    TObj([Member("residual_gaps", TArr([gap]))])
  }

  /** A child of one chunk that reports one gap. */
  function GapRecord(chunkId: string, gap: Tree): Mapping {
    [Member("chunk_id", TStr(chunkId)), Member("output", GapOutput(gap))]
  }

  lemma GapSlots(chunkId: string, gap: Tree)
    requires !gap.TNull?
    ensures var r := GapRecord(chunkId, gap);
            FactsOf(r) == [] && Slots(r, RecordChunk) == [TStr(chunkId)] && Slots(r, Gap) == [gap]
  {
    var r := GapRecord(chunkId, gap);
    assert DistinctKeys(r);
    LookupMember(r, r[0]);
    LookupMember(r, r[1]);
    GapLists(gap);
    NonNullOne(gap);
    assert Mappings([]) == [] && FactsOf(r) == Mapped([], FactSlotsOf);
  }

  lemma GapLists(gap: Tree)
    ensures ListIn(GapOutput(gap), "observed_facts") == [] && ListIn(GapOutput(gap), "residual_gaps") == [gap]
  {
    var o := GapOutput(gap).members;
    LookupMember(o, o[0]);
    MissingKey(o, "observed_facts");
  }

  lemma NonNullOne(gap: Tree)
    requires !gap.TNull?
    ensures NonNull([gap]) == [gap]
  {
    assert NonNull([gap][..0]) == [];
  }

  lemma GapSeen(r: Mapping, chunkId: string, gap: Tree, str: TreeRendering)
    requires Legible(str) && FactsOf(r) == [] && Slots(r, RecordChunk) == [TStr(chunkId)] && Slots(r, Gap) == [gap]
    ensures SeenIn(r, str) == Seen(chunkId, multiset{}, multiset{Read(gap, str)})
  {
    SeenIsRead(r, str);
    assert Slots(r, RecordChunk)[0] == TStr(chunkId);
    assert Reads([gap], str) == [Read(gap, str)];
    assert ReadFacts([], str) == [];
  }

  lemma GapShows(chunkId: string, t: Tree, u: Tree, str: TreeRendering, dump: Dump)
    requires Injective(dump) && Legible(str) && Shown(t) && Shown(u) && !SameShape(t, u)
    ensures PromptChildren([GapRecord(chunkId, t)], str, dump) != PromptChildren([GapRecord(chunkId, u)], str, dump)
  {
    var p, q := GapRecord(chunkId, t), GapRecord(chunkId, u);
    GapSlots(chunkId, t);
    GapSlots(chunkId, u);
    GapSeen(p, chunkId, t, str);
    GapSeen(q, chunkId, u, str);
    assert str(t) in SeenIn(p, str).gaps && str(t) !in SeenIn(q, str).gaps;
    assert SeenIn(p, str) in ChildrenSay([p], str);
    PromptChildrenIff([p], [q], str, dump);
  }

  lemma SameKeysVariant(a: Mapping, b: Mapping, volatile: KeyTest)
    requires DistinctKeys(a) && |a| == |b|
    requires forall i :: 0 <= i < |a| ==> a[i].key == b[i].key && Variant(a[i].value, b[i].value, volatile)
    ensures Variant(TObj(a), TObj(b), volatile)
  {
    forall k ensures SameAt(Meaning(TObj(a), volatile), Meaning(TObj(b), volatile), k) {
      forall i | 0 <= i < |a| && a[i].key == k && !volatile(k)
        ensures SameAt(Meaning(TObj(a), volatile), Meaning(TObj(b), volatile), k)
      {
        MemberMeaning(a, volatile, a[i]);
        MemberMeaning(b, volatile, b[i]);
      }
    }
    SameEverywhere(Meaning(TObj(a), volatile), Meaning(TObj(b), volatile));
  }

  lemma GapVariant(chunkId: string, t: Tree, u: Tree, volatile: KeyTest)
    requires Variant(t, u, volatile)
    ensures OneByOne([GapRecord(chunkId, t)], [GapRecord(chunkId, u)], volatile)
  {
    assert Variant(TStr(chunkId), TStr(chunkId), volatile);
    assert Variant(TArr([t]), TArr([u]), volatile);
    SameKeysVariant(GapOutput(t).members, GapOutput(u).members, volatile);
    SameKeysVariant(GapRecord(chunkId, t), GapRecord(chunkId, u), volatile);
  }

  /** `{"a": 1, "b": 2}` and `{"b": 2, "a": 1}` */
  function TwoKeys(): Tree {
    TObj([Member("a", TNum(1.0)), Member("b", TNum(2.0))])
  }

  /** One gap with its two keys swapped: a different prompt. */
  lemma ReorderedGapShows(chunkId: string, str: TreeRendering, dump: Dump)
    requires Injective(dump) && Legible(str)
    ensures OneByOne([GapRecord(chunkId, TwoKeys())], [GapRecord(chunkId, Flipped(TwoKeys()))], NO_KEY)
    ensures PromptChildren([GapRecord(chunkId, TwoKeys())], str, dump)
         != PromptChildren([GapRecord(chunkId, Flipped(TwoKeys()))], str, dump)
  {
    FlippedRearranges(NO_KEY);
    RearrangedSaysTheSame(TwoKeys(), Flipped, NO_KEY);
    GapVariant(chunkId, TwoKeys(), Flipped(TwoKeys()), NO_KEY);
    FlippedMember(TwoKeys().members, 0);
    GapShows(chunkId, TwoKeys(), Flipped(TwoKeys()), str, dump);
  }

  lemma TextsDifferInShape(key: string, s: string, t: string)
    ensures SameShape(TObj([Member(key, TStr(s))]), TObj([Member(key, TStr(t))])) ==> s == t
  {
    var a, b := [Member(key, TStr(s))], [Member(key, TStr(t))];
    assert SameShape(TObj(a), TObj(b)) ==> SameShape(a[0].value, b[0].value);
  }

  /** `{"timestamp": time}` */
  function Stamped(time: string): Tree {
    TObj([Member("timestamp", TStr(time))])
  }

  /** One gap with another time stamp: a different prompt. */
  lemma ChangedTimestampShows(chunkId: string, str: TreeRendering, dump: Dump, volatile: KeyTest)
    requires Injective(dump) && Legible(str) && volatile("timestamp")
    ensures OneByOne([GapRecord(chunkId, Stamped("1"))], [GapRecord(chunkId, Stamped("2"))], volatile)
    ensures PromptChildren([GapRecord(chunkId, Stamped("1"))], str, dump)
         != PromptChildren([GapRecord(chunkId, Stamped("2"))], str, dump)
  {
    assert Meaning(Stamped("1"), volatile).fields == Meaning(Stamped("2"), volatile).fields;
    GapVariant(chunkId, Stamped("1"), Stamped("2"), volatile);
    TextsDifferInShape("timestamp", "1", "2");
    GapShows(chunkId, Stamped("1"), Stamped("2"), str, dump);
  }

  // ---------- Key order alone ----------

  /** Where only key order may change, one record is safe exactly when it hands no object with two keys to `str`. */
  lemma OneRecordOrderIff(r: Mapping, str: TreeRendering, dump: Dump)
    requires Injective(dump) && Legible(str) && WellFormed(TObj(r))
    ensures ListFixed([r], str, dump, NO_KEY) <==> forall v :: Hands(r, v) ==> !HasPair(v)
  {
    assert WellFormedRecords([r]);
    ChildrenFixedIff([r], str, dump, NO_KEY);
    OneRecordCovered(r, str, NO_KEY);
  }

  lemma OneRecordCovered(r: Mapping, str: TreeRendering, volatile: KeyTest)
    requires Legible(str) && KeepsReadKeys(volatile) && WellFormed(TObj(r))
    ensures Covered([r], str, volatile) <==> Steady(r, volatile)
  {
    if Covered([r], str, volatile) {
      var q := CoveredForm([r], r, r, str, volatile);
    }
    if Steady(r, volatile) {
      SteadyIsCovered([r], str, volatile);
    }
  }

  lemma GapForm(chunkId: string, gap: Tree, form: Mapping, str: TreeRendering) returns (other: Tree)
    requires Legible(str) && Shown(gap) && Variant(TObj(GapRecord(chunkId, gap)), TObj(form), NO_KEY)
    ensures Variant(gap, other, NO_KEY) && SeenIn(form, str) == Seen(chunkId, multiset{}, multiset{Read(other, str)})
  {
    var r, rel := GapRecord(chunkId, gap), SayingTheSame(NO_KEY);
    GapSlots(chunkId, gap);
    VariantIsStructural(NO_KEY);
    VariantMembers(r, form, NO_KEY);
    FactsOfRelated(r, form, rel, NO_KEY);
    SlotsRelated(r, form, RecordChunk, rel, NO_KEY);
    SlotsRelated(r, form, Gap, rel, NO_KEY);
    other := Slots(form, Gap)[0];
    assert rel(Slots(r, Gap)[0], other);
    assert rel(Slots(r, RecordChunk)[0], Slots(form, RecordChunk)[0]);
    GapSeen(form, chunkId, other, str);
  }

  lemma EitherMember(p: Member, q: Member, members: seq<Member>, i: nat)
    requires p.key != q.key && p.value.TNum? && q.value.TNum? && Variant(TObj([p, q]), TObj(members), NO_KEY)
    requires i < |members|
    ensures members[i] == p || members[i] == q
  {
    SameKeySets([p, q], members, NO_KEY);
    assert members[i].key in Keys(members);
    var m :| m in [p, q] && m.key == members[i].key;
    MemberMeaning([p, q], NO_KEY, m);
    MemberMeaning(members, NO_KEY, members[i]);
  }

  lemma BothMembers(p: Member, q: Member, members: seq<Member>)
    requires p.key != q.key && p.value.TNum? && q.value.TNum? && Variant(TObj([p, q]), TObj(members), NO_KEY)
    ensures p in members && q in members
  {
    SameKeySets([p, q], members, NO_KEY);
    assert p in [p, q] && q in [p, q] && p.key in Keys([p, q]) && q.key in Keys([p, q]);
    var i :| 0 <= i < |members| && members[i].key == p.key;
    var j :| 0 <= j < |members| && members[j].key == q.key;
    EitherMember(p, q, members, i);
    EitherMember(p, q, members, j);
  }

  lemma TwoForms(p: Member, q: Member, members: seq<Member>)
    requires p.key != q.key && p.value.TNum? && q.value.TNum? && Variant(TObj([p, q]), TObj(members), NO_KEY)
    ensures members == [p, q] || members == [q, p]
  {
    forall i | 0 <= i < |members| ensures members[i] == p || members[i] == q {
      EitherMember(p, q, members, i);
    }
    BothMembers(p, q, members);
    DistinctSameMembers(members, [p, q]);
    assert |members| == |multiset(members)| == |multiset([p, q])| == 2;
  }

  /** A gap with two keys and, as plain texts, both of its readings. */
  function BothReadings(chunkId: string, str: TreeRendering): Records {
    [GapRecord(chunkId, TwoKeys()), GapRecord(chunkId, TStr(str(TwoKeys()))), GapRecord(chunkId, TStr(str(Flipped(TwoKeys()))))]
  }

  lemma TextGapSlots(chunkId: string, text: string, place: Place)
    ensures forall v :: v in Slots(GapRecord(chunkId, TStr(text)), place) ==> v.TStr?
  {
    var r := GapRecord(chunkId, TStr(text));
    GapSlots(chunkId, TStr(text));
    assert FactIdSlots([]) == [] && FactChunkSlots([]) == [] && FactTextSlots([]) == [];
    assert place.RecordChunk? || place.Gap? || Slots(r, place) == [];
  }

  lemma TextGapIsSteady(chunkId: string, text: string)
    ensures Steady(GapRecord(chunkId, TStr(text)), NO_KEY)
  {
    forall place: Place, v | v in Slots(GapRecord(chunkId, TStr(text)), place) ensures !Shown(v) {
      TextGapSlots(chunkId, text, place);
    }
  }

  lemma BothReadingsSteady(chunkId: string, gap: Tree, str: TreeRendering)
    requires Legible(str) && (gap == TwoKeys() || gap == Flipped(TwoKeys()))
    ensures SteadyReads(BothReadings(chunkId, str), Seen(chunkId, multiset{}, multiset{str(gap)}), str, NO_KEY)
  {
    var q := GapRecord(chunkId, TStr(str(gap)));
    GapSlots(chunkId, TStr(str(gap)));
    GapSeen(q, chunkId, TStr(str(gap)), str);
    TextGapIsSteady(chunkId, str(gap));
    assert q in BothReadings(chunkId, str);
  }

  lemma TwoKeysForm(t: Tree)
    requires Variant(TwoKeys(), t, NO_KEY)
    ensures t == TwoKeys() || t == Flipped(TwoKeys())
  {
    var p, q := Member("a", TNum(1.0)), Member("b", TNum(2.0));
    assert TwoKeys() == TObj([p, q]);
    FlippedMember([p, q], 0);
    FlippedMember([p, q], 1);
    assert Flipped(TwoKeys()).members == [q, p];
    TwoForms(p, q, t.members);
  }

  lemma BothReadingsForm(chunkId: string, r: Mapping, form: Mapping, str: TreeRendering)
    requires Legible(str) && r in BothReadings(chunkId, str) && Variant(TObj(r), TObj(form), NO_KEY)
    ensures SteadyReads(BothReadings(chunkId, str), SeenIn(form, str), str, NO_KEY)
  {
    if r == GapRecord(chunkId, TwoKeys()) {
      var other := GapForm(chunkId, TwoKeys(), form, str);
      TwoKeysForm(other);
      BothReadingsSteady(chunkId, other, str);
    } else {
      OtherReadingsSteady(chunkId, r, str);
      SteadyIsFixed(r, str, NO_KEY);
    }
  }

  lemma OtherReadingsSteady(chunkId: string, r: Mapping, str: TreeRendering)
    requires r in BothReadings(chunkId, str) && r != GapRecord(chunkId, TwoKeys())
    ensures Steady(r, NO_KEY)
  {
    TextGapIsSteady(chunkId, str(TwoKeys()));
    TextGapIsSteady(chunkId, str(Flipped(TwoKeys())));
  }

  lemma GapWellFormed(chunkId: string, gap: Tree)
    requires WellFormed(gap)
    ensures WellFormed(TObj(GapRecord(chunkId, gap)))
  {
    assert Variant(gap, gap, NO_KEY);
    GapVariant(chunkId, gap, gap, NO_KEY);
    assert Variant(TObj([GapRecord(chunkId, gap)][0]), TObj([GapRecord(chunkId, gap)][0]), NO_KEY);
  }

  lemma BothReadingsWellFormed(chunkId: string, str: TreeRendering)
    ensures WellFormedRecords(BothReadings(chunkId, str))
  {
    GapWellFormed(chunkId, TwoKeys());
    GapWellFormed(chunkId, TStr(str(TwoKeys())));
    GapWellFormed(chunkId, TStr(str(Flipped(TwoKeys()))));
  }

  /** A list of several records can be safe all the same: both orders of its gap are already there as texts. */
  lemma BothReadingsFixed(chunkId: string, str: TreeRendering, dump: Dump)
    requires Injective(dump) && Legible(str)
    ensures ListFixed(BothReadings(chunkId, str), str, dump, NO_KEY)
    ensures Hands(BothReadings(chunkId, str)[0], TwoKeys()) && HasPair(TwoKeys())
  {
    var a := BothReadings(chunkId, str);
    GapSlots(chunkId, TwoKeys());
    forall r: Mapping, form: Mapping | r in a && Variant(TObj(r), TObj(form), NO_KEY)
      ensures SteadyReads(a, SeenIn(form, str), str, NO_KEY)
    {
      BothReadingsForm(chunkId, r, form, str);
    }
    BothReadingsWellFormed(chunkId, str);
    ChildrenFixedIff(a, str, dump, NO_KEY);
  }

  // ---------- Child records in the cell ----------

  /** A rendering of unordered values, used on trees. */
  function OnTrees(str: RepairReferences.Rendering): TreeRendering {
    (t: Tree) => str(Meaning(t, NO_KEY))
  }

  lemma {:induction false} FirstReadIsFirst(ts: seq<Tree>, str: TreeRendering)
    ensures FirstRead(ts, str) == RepairReferences.FirstNonEmpty(Reads(ts, str))
  {
    if ts != [] {
      FirstReadIsFirst(ts[1..], str);
      assert Reads(ts, str)[1..] == Reads(ts[1..], str);
    }
  }

  lemma {:induction false} ListedIsCanonical(m: Mapping, keys: seq<string>, str: RepairReferences.Rendering)
    ensures Reads(ListedUnder(m, keys), OnTrees(str)) == RepairReferences.CanonicalListedUnder(Unordered(m), keys, str)
  {
    if keys != [] {
      var front, last := keys[..|keys| - 1], keys[|keys| - 1];
      ListedIsCanonical(m, front, str);
      ItemsAreCanonical(m, last, str);
      ReadsAppend(ListedUnder(m, front), ItemsOf(Lookup(m, last)), OnTrees(str));
    }
  }

  lemma ReadsAppend(a: seq<Tree>, b: seq<Tree>, str: TreeRendering)
    ensures Reads(a + b, str) == Reads(a, str) + Reads(b, str)
  {
  }

  lemma ItemsAreCanonical(m: Mapping, key: string, str: RepairReferences.Rendering)
    ensures Reads(ItemsOf(Lookup(m, key)), OnTrees(str))
         == RepairReferences.CanonicalStrings(Items(Get(Unordered(m), key)), str)
  {
    LookupMeaning(m, key, NO_KEY);
    ListIsCanonical(ItemsOf(Lookup(m, key)), str);
    ItemsMeaning(Lookup(m, key));
  }

  lemma ItemsMeaning(t: Tree)
    ensures Items(Meaning(t, NO_KEY)) == Meanings(ItemsOf(t))
  {
  }

  lemma ListIsCanonical(items: seq<Tree>, str: RepairReferences.Rendering)
    ensures Reads(items, OnTrees(str)) == RepairReferences.CanonicalStrings(Meanings(items), str)
  {
    forall i | 0 <= i < |items|
      ensures Reads(items, OnTrees(str))[i] == RepairReferences.CanonicalStrings(Meanings(items), str)[i]
    {
      assert Meanings(items)[i] == Meaning(items[i], NO_KEY);
    }
  }

  lemma UnderIsCanonical(m: Mapping, keys: seq<string>, str: RepairReferences.Rendering)
    ensures Reads(Under(m, keys), OnTrees(str)) == RepairReferences.CanonicalUnder(Unordered(m), keys, str)
  {
    forall i | 0 <= i < |keys|
      ensures Reads(Under(m, keys), OnTrees(str))[i] == RepairReferences.CanonicalUnder(Unordered(m), keys, str)[i]
    {
      ReadIsCanonical(m, keys[i], str);
    }
  }

  lemma ReadIsCanonical(m: Mapping, key: string, str: RepairReferences.Rendering)
    ensures Read(Lookup(m, key), OnTrees(str)) == RepairReferences.CanonicalString(Get(Unordered(m), key), str)
  {
    LookupMeaning(m, key, NO_KEY);
  }

  /** Where rendering ignores key order, the prompt and the cell read the same fact and chunk from an observed fact. */
  lemma CellReadsTheSame(m: Mapping, str: RepairReferences.Rendering)
    ensures FactIdOf(m, OnTrees(str)) == RepairReferences.CanonicalFactId(Unordered(m), str)
    ensures ChunkIdOf(m, OnTrees(str)) == RepairReferences.CanonicalChunkId(Unordered(m), str)
  {
    var shown := OnTrees(str);
    UnderIsCanonical(m, CHUNK_KEYS, str);
    FirstReadIsFirst(Under(m, CHUNK_KEYS), shown);
    UnderIsCanonical(m, CLAIM_FACT_KEYS, str);
    ListedIsCanonical(m, CLAIM_FACT_LIST_KEYS, str);
    ReadsAppend(Under(m, CLAIM_FACT_KEYS), ListedUnder(m, CLAIM_FACT_LIST_KEYS), shown);
    FirstReadIsFirst(FactIdCandidates(m), shown);
  }
}
