/** JSON trees that remember the order of object keys, and the canonical form that forgets it. */
module CanonicalJson {
  import opened Json
  import opened Ordering

  /** A decoded JSON value; an object keeps its keys in insertion order. */
  datatype Tree =
    | TNull
    | TBool(flag: bool)
    | TNum(number: real)
    | TStr(text: string)
    | TArr(items: seq<Tree>)
    | TObj(members: seq<Member>)

  datatype Member = Member(key: string, value: Tree)

  /** Whether a key names run-specific data such as an id, a timestamp or a usage count. */
  type KeyTest = string -> bool

  ghost predicate DistinctKeys(members: seq<Member>) {
    forall i, j :: 0 <= i < j < |members| ==> members[i].key != members[j].key
  }

  /** No object has a key twice. */
  ghost predicate WellFormed(t: Tree) {
    match t
    case TArr(items) => forall i :: 0 <= i < |items| ==> WellFormed(items[i])
    case TObj(members) =>
      DistinctKeys(members) && forall i :: 0 <= i < |members| ==> WellFormed(members[i].value)
    case _ => true
  }

  predicate KeyLeq(a: Member, b: Member) {
    LexLeq(a.key, b.key)
  }

  function Kept(members: seq<Member>, volatile: KeyTest): seq<Member> {
    if members == [] then []
    else
      var last := members[|members| - 1];
      Kept(members[..|members| - 1], volatile) + if volatile(last.key) then [] else [last]
  }

  /** Objects with volatile keys dropped and the others in sorted order, at every depth. */
  function Stable(t: Tree, volatile: KeyTest): Tree {
    match t
    case TArr(items) => TArr(seq(|items|, i requires 0 <= i < |items| => Stable(items[i], volatile)))
    case TObj(members) =>
      var stable := seq(|members|, i requires 0 <= i < |members| => Member(members[i].key, Stable(members[i].value, volatile)));
      TObj(Sorted(Kept(stable, volatile), KeyLeq))
    case _ => t
  }

  function IndexOf(members: seq<Member>, key: string): (i: nat)
    ensures i <= |members|
    ensures i < |members| ==> members[i].key == key
    ensures forall j :: 0 <= j < i ==> members[j].key != key
  {
    if members == [] || members[0].key == key then 0 else 1 + IndexOf(members[1..], key)
  }

  /** `mapping.get(key)`: an absent key reads as null. */
  function Lookup(members: seq<Member>, key: string): Tree {
    var i := IndexOf(members, key);
    if i < |members| then members[i].value else TNull
  }

  function Keys(members: seq<Member>): set<string> {
    set m | m in members :: m.key
  }

  /** What a tree says: the JSON value without its volatile keys, objects as maps. */
  function Meaning(t: Tree, volatile: KeyTest): Value
  {
    match t
    case TNull => Null
    case TBool(b) => Bool(b)
    case TNum(n) => Num(n)
    case TStr(s) => Str(s)
    case TArr(items) => Arr(seq(|items|, i requires 0 <= i < |items| => Meaning(items[i], volatile)))
    case TObj(members) =>
      Obj(map k | k in Keys(members) && !volatile(k) ::
            var i := IndexOf(members, k);
            if i < |members| then Meaning(members[i].value, volatile) else Null)
  }

  const NO_KEY: KeyTest := (key: string) => false

  /** An object as a map, with every key. */
  function Unordered(members: seq<Member>): Fields {
    Meaning(TObj(members), NO_KEY).fields
  }

  /** Looking a key up and forgetting the order can be done in either order. */
  lemma LookupMeaning(members: seq<Member>, key: string, volatile: KeyTest)
    requires !volatile(key)
    ensures Get(Meaning(TObj(members), volatile).fields, key) == Meaning(Lookup(members, key), volatile)
  {
    var i := IndexOf(members, key);
    if i < |members| {
      assert members[i] in members;
    }
  }

  lemma LookupMember(members: seq<Member>, m: Member)
    requires DistinctKeys(members) && m in members
    ensures Lookup(members, m.key) == m.value
  {
    var i :| 0 <= i < |members| && members[i] == m;
    assert IndexOf(members, m.key) == i;
  }

  lemma LookupWellFormed(members: seq<Member>, key: string)
    requires WellFormed(TObj(members))
    ensures WellFormed(Lookup(members, key))
  {
  }

  /** Every object is sorted by distinct keys and has no volatile one. */
  ghost predicate Canonical(t: Tree, volatile: KeyTest) {
    match t
    case TArr(items) => forall i :: 0 <= i < |items| ==> Canonical(items[i], volatile)
    case TObj(members) =>
      && DistinctKeys(members) && SortedBy(members, KeyLeq)
      && forall i :: 0 <= i < |members| ==> !volatile(members[i].key) && Canonical(members[i].value, volatile)
    case _ => true
  }

  lemma KeyOrder()
    ensures TotalPreorder(KeyLeq)
  {
    forall a: Member, b: Member ensures KeyLeq(a, b) || KeyLeq(b, a) {
      LexTotal(a.key, b.key);
    }
    forall a: Member, b: Member, c: Member | KeyLeq(a, b) && KeyLeq(b, c) ensures KeyLeq(a, c) {
      LexTransitive(a.key, b.key, c.key);
    }
  }

  lemma {:induction false} KeptMembers(members: seq<Member>, volatile: KeyTest)
    requires DistinctKeys(members)
    ensures forall m :: m in Kept(members, volatile) <==> m in members && !volatile(m.key)
    ensures DistinctKeys(Kept(members, volatile))
  {
    if members != [] {
      var front, last := members[..|members| - 1], members[|members| - 1];
      KeptMembers(front, volatile);
      assert members == front + [last];
      forall m | m in front ensures m.key != last.key {
        var i :| 0 <= i < |front| && front[i] == m;
        assert members[i] == m;
      }
    }
  }

  lemma SortedMembersDistinct(members: seq<Member>)
    requires DistinctKeys(members)
    ensures SortedBy(Sorted(members, KeyLeq), KeyLeq) && DistinctKeys(Sorted(members, KeyLeq))
    ensures forall m :: m in Sorted(members, KeyLeq) <==> m in members
  {
    KeyOrder();
    SortedIsSorted(members, KeyLeq);
    SortedDistinct(members, KeyLeq);
    forall m ensures m in Sorted(members, KeyLeq) <==> m in members {
      SortedMembers(members, KeyLeq, m);
    }
    SameMembersDistinctKeys(members, Sorted(members, KeyLeq));
  }

  lemma SameMembersDistinctKeys(members: seq<Member>, sorted: seq<Member>)
    requires DistinctKeys(members)
    requires forall i, j :: 0 <= i < j < |sorted| ==> sorted[i] != sorted[j]
    requires forall m :: m in sorted ==> m in members
    ensures DistinctKeys(sorted)
  {
    forall i, j | 0 <= i < j < |sorted| ensures sorted[i].key != sorted[j].key {
      assert sorted[i] in members && sorted[j] in members;
      var a :| 0 <= a < |members| && members[a] == sorted[i];
      var b :| 0 <= b < |members| && members[b] == sorted[j];
      assert a != b;
    }
  }

  /** The members of an object after its values were made stable. */
  function StableMembers(members: seq<Member>, volatile: KeyTest): seq<Member> {
    seq(|members|, i requires 0 <= i < |members| => Member(members[i].key, Stable(members[i].value, volatile)))
  }

  /** Which members a stable object has. */
  lemma StableObject(members: seq<Member>, volatile: KeyTest)
    requires DistinctKeys(members)
    ensures var stable := Stable(TObj(members), volatile).members;
            && DistinctKeys(stable) && SortedBy(stable, KeyLeq)
            && forall m :: m in stable <==> m in StableMembers(members, volatile) && !volatile(m.key)
  {
    var stable := StableMembers(members, volatile);
    assert DistinctKeys(stable);
    KeptMembers(stable, volatile);
    SortedMembersDistinct(Kept(stable, volatile));
  }

  /** The stable form is canonical and says the same. */
  lemma {:induction false} StableKeepsMeaning(t: Tree, volatile: KeyTest)
    requires WellFormed(t)
    ensures WellFormed(Stable(t, volatile)) && Canonical(Stable(t, volatile), volatile)
    ensures Meaning(Stable(t, volatile), volatile) == Meaning(t, volatile)
  {
    match t
    case TArr(items) =>
      forall i | 0 <= i < |items| ensures StableSays(items[i], volatile) {
        StableKeepsMeaning(items[i], volatile);
      }
    case TObj(members) =>
      forall i | 0 <= i < |members| ensures StableSays(members[i].value, volatile) {
        StableKeepsMeaning(members[i].value, volatile);
      }
      StableObjectMeaning(members, volatile);
    case _ =>
  }

  /** The values of an object, all made stable. */
  ghost predicate ValuesStable(members: seq<Member>, volatile: KeyTest) {
    forall i :: 0 <= i < |members| ==> StableSays(members[i].value, volatile)
  }

  ghost predicate StableSays(t: Tree, volatile: KeyTest) {
    var s := Stable(t, volatile);
    WellFormed(s) && Canonical(s, volatile) && Meaning(s, volatile) == Meaning(t, volatile)
  }

  lemma StableObjectCanonical(members: seq<Member>, volatile: KeyTest)
    requires DistinctKeys(members) && ValuesStable(members, volatile)
    ensures WellFormed(Stable(TObj(members), volatile)) && Canonical(Stable(TObj(members), volatile), volatile)
  {
    var stable := Stable(TObj(members), volatile).members;
    StableObject(members, volatile);
    forall i | 0 <= i < |stable|
      ensures WellFormed(stable[i].value) && Canonical(stable[i].value, volatile) && !volatile(stable[i].key)
    {
      assert stable[i] in stable;
      var j :| 0 <= j < |members| && StableMembers(members, volatile)[j] == stable[i];
      assert StableSays(members[j].value, volatile);
    }
  }

  lemma StableMemberMeaning(members: seq<Member>, volatile: KeyTest, i: nat)
    requires WellFormed(TObj(members)) && WellFormed(Stable(TObj(members), volatile))
    requires i < |members| && !volatile(members[i].key) && StableSays(members[i].value, volatile)
    ensures var k, before, after := members[i].key, Meaning(TObj(members), volatile),
                                    Meaning(Stable(TObj(members), volatile), volatile);
            k in before.fields && k in after.fields && before.fields[k] == after.fields[k]
  {
    StableObject(members, volatile);
    var m := StableMembers(members, volatile)[i];
    assert m in StableMembers(members, volatile);
    MemberMeaning(members, volatile, members[i]);
    MemberMeaning(Stable(TObj(members), volatile).members, volatile, m);
  }

  lemma KeyHasMember(members: seq<Member>, volatile: KeyTest, k: string) returns (i: nat)
    requires k in Meaning(TObj(members), volatile).fields
    ensures i < |members| && members[i].key == k && !volatile(k)
  {
    i :| 0 <= i < |members| && members[i].key == k;
  }

  lemma StableKeyWasThere(members: seq<Member>, volatile: KeyTest, k: string)
    requires WellFormed(TObj(members))
    requires k in Meaning(Stable(TObj(members), volatile), volatile).fields
    ensures k in Meaning(TObj(members), volatile).fields
  {
    var stable := Stable(TObj(members), volatile).members;
    StableObject(members, volatile);
    var j := KeyHasMember(stable, volatile, k);
    assert stable[j] in stable;
    var i :| 0 <= i < |members| && StableMembers(members, volatile)[i] == stable[j];
    MemberMeaning(members, volatile, members[i]);
  }

  predicate SameAt(before: Value, after: Value, k: string) {
    && before.Obj? && after.Obj?
    && (k in before.fields <==> k in after.fields)
    && (k in before.fields ==> before.fields[k] == after.fields[k])
  }

  lemma StableSameAt(members: seq<Member>, volatile: KeyTest, k: string)
    requires WellFormed(TObj(members)) && WellFormed(Stable(TObj(members), volatile)) && ValuesStable(members, volatile)
    ensures SameAt(Meaning(TObj(members), volatile), Meaning(Stable(TObj(members), volatile), volatile), k)
  {
    if k in Meaning(Stable(TObj(members), volatile), volatile).fields {
      StableKeyWasThere(members, volatile, k);
    }
    if k in Meaning(TObj(members), volatile).fields {
      var i := KeyHasMember(members, volatile, k);
      StableMemberMeaning(members, volatile, i);
    }
  }

  lemma SameEverywhere(before: Value, after: Value)
    requires before.Obj? && after.Obj?
    requires forall k :: SameAt(before, after, k)
    ensures before == after
  {
    assert before.fields.Keys == after.fields.Keys by {
      forall k ensures k in before.fields <==> k in after.fields {
        assert SameAt(before, after, k);
      }
    }
    forall k | k in before.fields ensures before.fields[k] == after.fields[k] {
      assert SameAt(before, after, k);
    }
    assert before.fields == after.fields;
  }

  lemma StableObjectMeaning(members: seq<Member>, volatile: KeyTest)
    requires WellFormed(TObj(members)) && ValuesStable(members, volatile)
    ensures StableSays(TObj(members), volatile)
  {
    StableObjectCanonical(members, volatile);
    forall k ensures SameAt(Meaning(TObj(members), volatile), Meaning(Stable(TObj(members), volatile), volatile), k) {
      StableSameAt(members, volatile, k);
    }
    SameEverywhere(Meaning(TObj(members), volatile), Meaning(Stable(TObj(members), volatile), volatile));
  }

  /** An object means the meaning of each of its members. */
  lemma MemberMeaning(members: seq<Member>, volatile: KeyTest, m: Member)
    requires WellFormed(TObj(members)) && m in members && !volatile(m.key)
    ensures WellFormed(m.value)
    ensures var v := Meaning(TObj(members), volatile);
            m.key in v.fields && v.fields[m.key] == Meaning(m.value, volatile)
  {
    var i :| 0 <= i < |members| && members[i] == m;
    assert IndexOf(members, m.key) == i;
    assert m.key in Keys(members);
  }

  /** A canonical tree is determined by what it says. */
  lemma {:induction false} CanonicalIsUnique(a: Tree, b: Tree, volatile: KeyTest)
    requires WellFormed(a) && WellFormed(b) && Canonical(a, volatile) && Canonical(b, volatile)
    requires Meaning(a, volatile) == Meaning(b, volatile)
    ensures a == b
  {
    match a
    case TArr(items) =>
      forall i | 0 <= i < |items| ensures items[i] == b.items[i] {
        assert Meaning(a, volatile).items[i] == Meaning(b, volatile).items[i];
        CanonicalIsUnique(items[i], b.items[i], volatile);
      }
    case TObj(members) =>
      forall m, m' | m in members && m' in b.members && m.key == m'.key ensures m == m' {
        MemberMeaning(members, volatile, m);
        MemberMeaning(b.members, volatile, m');
        CanonicalIsUnique(m.value, m'.value, volatile);
      }
      SameKeysSameMembers(members, b.members, volatile);
    case _ =>
  }

  lemma SameKeysSameMembers(a: seq<Member>, b: seq<Member>, volatile: KeyTest)
    requires WellFormed(TObj(a)) && WellFormed(TObj(b)) && Canonical(TObj(a), volatile) && Canonical(TObj(b), volatile)
    requires Meaning(TObj(a), volatile) == Meaning(TObj(b), volatile)
    requires forall m, m' :: m in a && m' in b && m.key == m'.key ==> m == m'
    ensures a == b
  {
    SameMembers(a, b, volatile);
    SameMembers(b, a, volatile);
    KeyOrder();
    DistinctSameMembers(a, b);
    forall m, m' | m in a && m' in a && KeyLeq(m, m') && KeyLeq(m', m) ensures m == m' {
      LexAntisymmetric(m.key, m'.key);
    }
    SortedListsEqual(a, b, KeyLeq);
  }

  lemma SameMembers(a: seq<Member>, b: seq<Member>, volatile: KeyTest)
    requires WellFormed(TObj(a)) && WellFormed(TObj(b)) && Canonical(TObj(a), volatile)
    requires Meaning(TObj(a), volatile) == Meaning(TObj(b), volatile)
    requires forall m, m' :: m in a && m' in b && m.key == m'.key ==> m == m'
    ensures forall m :: m in a ==> m in b
  {
    forall m | m in a ensures m in b {
      MemberMeaning(a, volatile, m);
      var m' :| m' in b && m'.key == m.key;
    }
  }

  // ---------- Main results ----------

  /**
    * Two trees have the same stable form exactly when they say the same: the order of keys and anything
    * under a volatile key are forgotten, and nothing else.
    */
  lemma StableIffSameMeaning(a: Tree, b: Tree, volatile: KeyTest)
    requires WellFormed(a) && WellFormed(b)
    ensures Stable(a, volatile) == Stable(b, volatile) <==> Meaning(a, volatile) == Meaning(b, volatile)
  {
    StableKeepsMeaning(a, volatile);
    StableKeepsMeaning(b, volatile);
    if Meaning(a, volatile) == Meaning(b, volatile) {
      CanonicalIsUnique(Stable(a, volatile), Stable(b, volatile), volatile);
    }
  }

  lemma StableIdempotent(t: Tree, volatile: KeyTest)
    requires WellFormed(t)
    ensures Stable(Stable(t, volatile), volatile) == Stable(t, volatile)
  {
    StableKeepsMeaning(t, volatile);
    StableIffSameMeaning(Stable(t, volatile), t, volatile);
  }
}
