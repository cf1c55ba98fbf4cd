/** Trees that say the same: rearranged objects, changed run-specific keys, and which trees have only one such form. */
module Variants {
  import opened Json
  import opened Text
  import opened Ordering
  import opened CanonicalJson

  /** The same JSON value up to key order and volatile keys. */
  ghost predicate Variant(t: Tree, u: Tree, volatile: KeyTest) {
    WellFormed(t) && WellFormed(u) && Meaning(t, volatile) == Meaning(u, volatile)
  }

  /** An object occurs, at any depth. */
  ghost predicate HasObject(t: Tree) {
    match t
    case TArr(items) => exists i :: 0 <= i < |items| && HasObject(items[i])
    case TObj(_) => true
    case _ => false
  }

  /** An object with two or more keys occurs, at any depth. */
  ghost predicate HasPair(t: Tree) {
    match t
    case TArr(items) => exists i :: 0 <= i < |items| && HasPair(items[i])
    case TObj(members) => |members| >= 2 || exists i :: 0 <= i < |members| && HasPair(members[i].value)
    case _ => false
  }

  /** With a run-specific key, any object can vary; without one, only an object with two keys to swap. */
  ghost predicate Varies(t: Tree, volatile: KeyTest) {
    if exists k :: volatile(k) then HasObject(t) else HasPair(t)
  }

  // ---------- Trees with only one form ----------

  lemma {:induction false} NoObjectOneForm(t: Tree, u: Tree, volatile: KeyTest)
    requires Meaning(t, volatile) == Meaning(u, volatile) && !HasObject(t)
    ensures t == u
  {
    match t
    case TArr(items) =>
      forall i | 0 <= i < |items| ensures items[i] == u.items[i] {
        assert Meaning(t, volatile).items[i] == Meaning(u, volatile).items[i];
        NoObjectOneForm(items[i], u.items[i], volatile);
      }
    case _ =>
  }

  lemma {:induction false} NoPairOneForm(t: Tree, u: Tree, volatile: KeyTest)
    requires Variant(t, u, volatile) && !HasPair(t) && forall k :: !volatile(k)
    ensures t == u
  {
    match t
    case TArr(items) =>
      forall i | 0 <= i < |items| ensures items[i] == u.items[i] {
        assert Meaning(t, volatile).items[i] == Meaning(u, volatile).items[i];
        NoPairOneForm(items[i], u.items[i], volatile);
      }
    case TObj(members) =>
      SameKeySets(members, u.members, volatile);
      if members == [] {
        NoKeys(u.members);
      } else {
        OneKey(members[0], u.members);
        MemberMeaning(members, volatile, members[0]);
        MemberMeaning(u.members, volatile, u.members[0]);
        NoPairOneForm(members[0].value, u.members[0].value, volatile);
      }
    case _ =>
  }

  lemma SameKeySets(a: seq<Member>, b: seq<Member>, volatile: KeyTest)
    requires Meaning(TObj(a), volatile) == Meaning(TObj(b), volatile) && forall k :: !volatile(k)
    ensures Keys(a) == Keys(b)
  {
    assert Meaning(TObj(a), volatile).fields.Keys == Keys(a);
    assert Meaning(TObj(b), volatile).fields.Keys == Keys(b);
  }

  lemma NoKeys(members: seq<Member>)
    ensures members != [] ==> Keys(members) != {}
  {
    if members != [] {
      assert members[0].key in Keys(members);
    }
  }

  lemma OneKey(m: Member, members: seq<Member>)
    requires DistinctKeys(members) && Keys(members) == Keys([m])
    ensures |members| == 1 && members[0].key == m.key
  {
    assert |members| >= 2 ==> members[0].key != members[1].key;
    assert m.key in Keys([m]);
    forall i | 0 <= i < |members| ensures members[i].key == m.key {
      assert members[i].key in Keys(members);
    }
    var i :| 0 <= i < |members| && members[i].key == m.key;
  }

  lemma SteadyOneForm(t: Tree, u: Tree, volatile: KeyTest)
    requires Variant(t, u, volatile) && !Varies(t, volatile)
    ensures t == u
  {
    if k :| volatile(k) {
      NoObjectOneForm(t, u, volatile);
    } else {
      NoPairOneForm(t, u, volatile);
    }
  }

  // ---------- Rearrangements ----------

  ghost predicate MappedFrom(m: Member, from: seq<Member>, f: Tree -> Tree) {
    exists m0 :: m0 in from && m == Member(m0.key, f(m0.value))
  }

  /** The members of an object after `f` was applied to its values; keys may move, volatile ones may come and go. */
  ghost predicate Copies(from: seq<Member>, to: seq<Member>, f: Tree -> Tree, volatile: KeyTest) {
    && DistinctKeys(to)
    && (forall m :: m in from && !volatile(m.key) ==> Member(m.key, f(m.value)) in to)
    && (forall m :: m in to ==> MappedFrom(m, from, f) || (volatile(m.key) && m.value.TStr?))
  }

  ghost predicate RearrangedAt(f: Tree -> Tree, t: Tree, volatile: KeyTest) {
    match t
    case TArr(items) => f(t) == TArr(seq(|items|, i requires 0 <= i < |items| => f(items[i])))
    case TObj(members) => f(t).TObj? && Copies(members, f(t).members, f, volatile)
    case _ => f(t) == t
  }

  ghost predicate Rearranges(f: Tree -> Tree, volatile: KeyTest) {
    forall t :: WellFormed(t) ==> RearrangedAt(f, t, volatile)
  }

  lemma CopiedLookup(from: seq<Member>, to: seq<Member>, f: Tree -> Tree, volatile: KeyTest, k: string)
    requires DistinctKeys(from) && Copies(from, to, f, volatile) && !volatile(k) && f(TNull) == TNull
    ensures Lookup(to, k) == f(Lookup(from, k))
  {
    var i, j := IndexOf(from, k), IndexOf(to, k);
    if j < |to| {
      assert to[j] in to;
      var m0 :| m0 in from && to[j] == Member(m0.key, f(m0.value));
      assert i < |from|;
    }
    if i < |from| {
      assert from[i] in from;
      LookupMember(to, Member(k, f(from[i].value)));
    }
  }

  lemma {:induction false} RearrangedSaysTheSame(t: Tree, f: Tree -> Tree, volatile: KeyTest)
    requires Rearranges(f, volatile) && WellFormed(t)
    ensures Variant(t, f(t), volatile)
  {
    assert RearrangedAt(f, t, volatile);
    match t
    case TArr(items) =>
      forall i | 0 <= i < |items| ensures Variant(items[i], f(items[i]), volatile) {
        RearrangedSaysTheSame(items[i], f, volatile);
      }
    case TObj(members) =>
      forall i | 0 <= i < |members| ensures Variant(members[i].value, f(members[i].value), volatile) {
        RearrangedSaysTheSame(members[i].value, f, volatile);
      }
      CopiesWellFormed(members, f(t).members, f, volatile);
      CopiesSayTheSame(members, f(t).members, f, volatile);
    case _ =>
  }

  ghost predicate ValuesKept(members: seq<Member>, f: Tree -> Tree, volatile: KeyTest) {
    forall i :: 0 <= i < |members| ==> Variant(members[i].value, f(members[i].value), volatile)
  }

  lemma CopiesWellFormed(from: seq<Member>, to: seq<Member>, f: Tree -> Tree, volatile: KeyTest)
    requires Copies(from, to, f, volatile) && ValuesKept(from, f, volatile)
    ensures WellFormed(TObj(to))
  {
    forall i | 0 <= i < |to| ensures WellFormed(to[i].value) {
      assert to[i] in to;
      if MappedFrom(to[i], from, f) {
        var m0 :| m0 in from && to[i] == Member(m0.key, f(m0.value));
        var j :| 0 <= j < |from| && from[j] == m0;
      }
    }
  }

  lemma CopiesSayTheSame(from: seq<Member>, to: seq<Member>, f: Tree -> Tree, volatile: KeyTest)
    requires WellFormed(TObj(from)) && WellFormed(TObj(to))
    requires Copies(from, to, f, volatile) && ValuesKept(from, f, volatile)
    ensures Meaning(TObj(from), volatile) == Meaning(TObj(to), volatile)
  {
    var before, after := Meaning(TObj(from), volatile), Meaning(TObj(to), volatile);
    forall k ensures SameAt(before, after, k) {
      if k in after.fields {
        var j := KeyHasMember(to, volatile, k);
        assert to[j] in to;
        var m0 :| m0 in from && to[j] == Member(m0.key, f(m0.value));
        CopiedValue(from, to, f, volatile, m0);
      }
      if k in before.fields {
        var i := KeyHasMember(from, volatile, k);
        CopiedValue(from, to, f, volatile, from[i]);
      }
    }
    SameEverywhere(before, after);
  }

  lemma CopiedValue(from: seq<Member>, to: seq<Member>, f: Tree -> Tree, volatile: KeyTest, m: Member)
    requires WellFormed(TObj(from)) && WellFormed(TObj(to)) && m in from && !volatile(m.key)
    requires Copies(from, to, f, volatile) && ValuesKept(from, f, volatile)
    ensures SameAt(Meaning(TObj(from), volatile), Meaning(TObj(to), volatile), m.key)
  {
    var i :| 0 <= i < |from| && from[i] == m;
    MemberMeaning(from, volatile, m);
    MemberMeaning(to, volatile, Member(m.key, f(m.value)));
  }

  // ---------- Which trees look the same once numbers are masked ----------

  /** The same keys, strings and nesting in the same order; numbers may differ. */
  ghost predicate SameShape(t: Tree, u: Tree) {
    match t
    case TNum(_) => u.TNum?
    case TArr(items) => u.TArr? && |items| == |u.items| && forall i :: 0 <= i < |items| ==> SameShape(items[i], u.items[i])
    case TObj(members) =>
      && u.TObj? && |members| == |u.members|
      && forall i :: 0 <= i < |members| ==> members[i].key == u.members[i].key && SameShape(members[i].value, u.members[i].value)
    case _ => t == u
  }

  lemma {:induction false} CanonicalShape(t: Tree, u: Tree, volatile: KeyTest)
    requires SameShape(t, u) && Canonical(t, volatile)
    ensures Canonical(u, volatile)
  {
    match t
    case TArr(items) =>
      forall i | 0 <= i < |items| ensures Canonical(u.items[i], volatile) {
        CanonicalShape(items[i], u.items[i], volatile);
      }
    case TObj(members) =>
      forall i | 0 <= i < |members| ensures !volatile(u.members[i].key) && Canonical(u.members[i].value, volatile) {
        CanonicalShape(members[i].value, u.members[i].value, volatile);
      }
    case _ =>
  }

  // ---------- Three rearrangements: as it is, flipped, and salted ----------

  lemma IdentityRearranges(volatile: KeyTest)
    ensures Rearranges((t: Tree) => t, volatile)
  {
    var f := (t: Tree) => t;
    forall t | WellFormed(t) ensures RearrangedAt(f, t, volatile) {
      match t
      case TObj(members) =>
        forall m | m in members ensures MappedFrom(m, members, f) {
          assert m == Member(m.key, f(m.value));
        }
      case _ =>
    }
  }

  lemma StableRearranges(volatile: KeyTest)
    ensures Rearranges((t: Tree) => Stable(t, volatile), volatile)
  {
    var f := (t: Tree) => Stable(t, volatile);
    forall t | WellFormed(t) ensures RearrangedAt(f, t, volatile) {
      if t.TObj? {
        StableCopies(t.members, f, volatile);
      }
    }
  }

  lemma StableCopies(members: seq<Member>, f: Tree -> Tree, volatile: KeyTest)
    requires DistinctKeys(members) && forall t :: f(t) == Stable(t, volatile)
    ensures Copies(members, Stable(TObj(members), volatile).members, f, volatile)
  {
    var to := Stable(TObj(members), volatile).members;
    StableObject(members, volatile);
    forall m | m in members && !volatile(m.key) ensures Member(m.key, f(m.value)) in to {
      var i :| 0 <= i < |members| && members[i] == m;
      assert StableMembers(members, volatile)[i] == Member(m.key, f(m.value));
    }
    forall m | m in to ensures MappedFrom(m, members, f) {
      var i :| 0 <= i < |members| && StableMembers(members, volatile)[i] == m;
      assert members[i] in members && m == Member(members[i].key, f(members[i].value));
    }
  }

  /** Every object with its members in the opposite order. */
  function Flipped(t: Tree): Tree {
    match t
    case TArr(items) => TArr(seq(|items|, i requires 0 <= i < |items| => Flipped(items[i])))
    case TObj(members) =>
      TObj(seq(|members|, i requires 0 <= i < |members| =>
        Member(members[|members| - 1 - i].key, Flipped(members[|members| - 1 - i].value))))
    case _ => t
  }

  lemma FlippedRearranges(volatile: KeyTest)
    ensures Rearranges(Flipped, volatile)
  {
    forall t | WellFormed(t) ensures RearrangedAt(Flipped, t, volatile) {
      if t.TObj? {
        FlippedCopies(t.members, volatile);
      }
    }
  }

  lemma FlippedMember(members: seq<Member>, i: nat)
    requires i < |members|
    ensures |Flipped(TObj(members)).members| == |members|
    ensures Flipped(TObj(members)).members[i]
         == Member(members[|members| - 1 - i].key, Flipped(members[|members| - 1 - i].value))
  {
  }

  lemma FlippedDistinct(members: seq<Member>)
    requires DistinctKeys(members)
    ensures DistinctKeys(Flipped(TObj(members)).members)
  {
    var to := Flipped(TObj(members)).members;
    forall i, j | 0 <= i < j < |to| ensures to[i].key != to[j].key {
      FlippedMember(members, i);
      FlippedMember(members, j);
    }
  }

  lemma FlippedCopies(members: seq<Member>, volatile: KeyTest)
    requires DistinctKeys(members)
    ensures Copies(members, Flipped(TObj(members)).members, Flipped, volatile)
  {
    var to, last := Flipped(TObj(members)).members, |members| - 1;
    FlippedDistinct(members);
    forall m | m in members ensures Member(m.key, Flipped(m.value)) in to {
      var i :| 0 <= i < |members| && members[i] == m;
      FlippedMember(members, last - i);
    }
    forall m | m in to ensures MappedFrom(m, members, Flipped) {
      var i :| 0 <= i < |members| && to[i] == m;
      FlippedMember(members, i);
      assert members[last - i] in members;
    }
  }

  /** A sorted tree with two keys in one object is not sorted once flipped. */
  lemma {:induction false} FlippedIsUnsorted(t: Tree, volatile: KeyTest)
    requires Canonical(t, volatile) && HasPair(t)
    ensures !Canonical(Flipped(t), volatile)
  {
    match t
    case TArr(items) =>
      var i :| 0 <= i < |items| && HasPair(items[i]);
      FlippedIsUnsorted(items[i], volatile);
      assert Flipped(t).items[i] == Flipped(items[i]);
    case TObj(members) =>
      var flipped, last := Flipped(t).members, |members| - 1;
      if |members| >= 2 {
        assert flipped[0].key == members[last].key && flipped[last].key == members[0].key;
        assert KeyLeq(members[0], members[last]);
        if KeyLeq(flipped[0], flipped[last]) {
          LexAntisymmetric(members[0].key, members[last].key);
        }
      } else {
        var i :| 0 <= i < |members| && HasPair(members[i].value);
        FlippedIsUnsorted(members[i].value, volatile);
        assert flipped[last - i].value == Flipped(members[i].value);
      }
  }

  function Only(key: string): KeyTest {
    (k: string) => k == key
  }

  /** Every object with the number as text under that key, last, in place of anything it had there. */
  function Salted(t: Tree, key: string, n: nat): Tree {
    match t
    case TArr(items) => TArr(seq(|items|, i requires 0 <= i < |items| => Salted(items[i], key, n)))
    case TObj(members) =>
      var salted := seq(|members|, i requires 0 <= i < |members| => Member(members[i].key, Salted(members[i].value, key, n)));
      TObj(Kept(salted, Only(key)) + [Member(key, TStr(Decimal(n)))])
    case _ => t
  }

  function Salting(key: string, n: nat): Tree -> Tree {
    (t: Tree) => Salted(t, key, n)
  }

  lemma SaltedRearranges(key: string, n: nat, volatile: KeyTest)
    requires volatile(key)
    ensures Rearranges(Salting(key, n), volatile)
  {
    forall t | WellFormed(t) ensures RearrangedAt(Salting(key, n), t, volatile) {
      if t.TObj? {
        SaltedCopies(t.members, key, n, volatile);
      }
    }
  }

  lemma SaltedCopies(members: seq<Member>, key: string, n: nat, volatile: KeyTest)
    requires DistinctKeys(members) && volatile(key)
    ensures Copies(members, Salted(TObj(members), key, n).members, Salting(key, n), volatile)
  {
    var f, salt := Salting(key, n), Member(key, TStr(Decimal(n)));
    var salted := seq(|members|, i requires 0 <= i < |members| => Member(members[i].key, Salted(members[i].value, key, n)));
    var kept := Kept(salted, Only(key));
    KeptMembers(salted, Only(key));
    SaltIsNew(kept, salt);
    assert Salted(TObj(members), key, n).members == kept + [salt];
    forall m | m in members && !volatile(m.key) ensures Member(m.key, f(m.value)) in kept {
      var i :| 0 <= i < |members| && members[i] == m;
      assert salted[i] == Member(m.key, f(m.value));
    }
    forall m | m in kept ensures MappedFrom(m, members, f) {
      var i :| 0 <= i < |members| && salted[i] == m;
      assert members[i] in members && m == Member(members[i].key, f(members[i].value));
    }
  }

  lemma SaltIsNew(kept: seq<Member>, salt: Member)
    requires DistinctKeys(kept) && forall m :: m in kept ==> m.key != salt.key
    ensures DistinctKeys(kept + [salt])
  {
    forall i | 0 <= i < |kept| ensures kept[i].key != salt.key {
      assert kept[i] in kept;
    }
  }

  /** Different salts can be told apart wherever there is an object to salt. */
  lemma {:induction false} SaltsDiffer(v: Tree, w: Tree, key: string, m: nat, n: nat)
    requires HasObject(v) && m != n
    ensures !SameShape(Salted(w, key, m), Salted(v, key, n))
  {
    match v
    case TArr(items) =>
      var i :| 0 <= i < |items| && HasObject(items[i]);
      if w.TArr? && |w.items| == |items| {
        SaltsDiffer(items[i], w.items[i], key, m, n);
        assert Salted(w, key, m).items[i] == Salted(w.items[i], key, m);
        assert Salted(v, key, n).items[i] == Salted(items[i], key, n);
      }
    case TObj(members) =>
      if w.TObj? {
        DecimalRoundTrip(m);
        DecimalRoundTrip(n);
        SaltIsLast(members, key, n);
        SaltIsLast(w.members, key, m);
      }
  }

  lemma SaltIsLast(members: seq<Member>, key: string, n: nat)
    ensures var salted := Salted(TObj(members), key, n).members;
            |salted| > 0 && salted[|salted| - 1] == Member(key, TStr(Decimal(n)))
  {
  }
}
