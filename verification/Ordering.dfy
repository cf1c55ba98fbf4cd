/** `sorted` with a key: a stable sort, stated over a total preorder. */
module Ordering {
  import opened Text

  ghost predicate TotalPreorder<T(!new)>(leq: (T, T) -> bool) {
    && (forall a, b :: leq(a, b) || leq(b, a))
    && (forall a, b, c :: leq(a, b) && leq(b, c) ==> leq(a, c))
  }

  ghost predicate SortedBy<T>(s: seq<T>, leq: (T, T) -> bool) {
    forall i, j :: 0 <= i < j < |s| ==> leq(s[i], s[j])
  }

  function Insert<T>(x: T, s: seq<T>, leq: (T, T) -> bool): seq<T> {
    if s == [] || leq(x, s[0]) then [x] + s else [s[0]] + Insert(x, s[1..], leq)
  }

  /** `sorted(s, key)` where `leq` compares keys. */
  function Sorted<T>(s: seq<T>, leq: (T, T) -> bool): (r: seq<T>)
    ensures |r| == |s|
  {
    if s == [] then [] else
      InsertLength(s[0], Sorted(s[1..], leq), leq);
      Insert(s[0], Sorted(s[1..], leq), leq)
  }

  lemma InsertLength<T>(x: T, s: seq<T>, leq: (T, T) -> bool)
    ensures |Insert(x, s, leq)| == |s| + 1
  {
  }

  lemma {:induction false} InsertPermutes<T(!new)>(x: T, s: seq<T>, leq: (T, T) -> bool)
    ensures multiset(Insert(x, s, leq)) == multiset([x] + s)
  {
    if s != [] && !leq(x, s[0]) {
      InsertPermutes(x, s[1..], leq);
      assert s == [s[0]] + s[1..];
    }
  }

  lemma {:induction false} InsertKeeps<T(!new)>(x: T, s: seq<T>, leq: (T, T) -> bool)
    requires TotalPreorder(leq) && SortedBy(s, leq)
    ensures SortedBy(Insert(x, s, leq), leq)
  {
    if s == [] {
    } else if leq(x, s[0]) {
      forall i | 0 <= i < |s| ensures leq(x, s[i]) {
        assert i == 0 || leq(s[0], s[i]);
      }
    } else {
      InsertKeeps(x, s[1..], leq);
      InsertPermutes(x, s[1..], leq);
      var rest := Insert(x, s[1..], leq);
      forall i | 0 <= i < |rest| ensures leq(s[0], rest[i]) {
        assert rest[i] in multiset(rest);
        assert rest[i] in [x] + s[1..];
      }
    }
  }

  lemma {:induction false} SortedIsSorted<T(!new)>(s: seq<T>, leq: (T, T) -> bool)
    requires TotalPreorder(leq)
    ensures SortedBy(Sorted(s, leq), leq)
    ensures multiset(Sorted(s, leq)) == multiset(s)
  {
    if s != [] {
      SortedIsSorted(s[1..], leq);
      InsertKeeps(s[0], Sorted(s[1..], leq), leq);
    }
    SortedPermutes(s, leq);
  }

  lemma {:induction false} SortedPermutes<T(!new)>(s: seq<T>, leq: (T, T) -> bool)
    ensures multiset(Sorted(s, leq)) == multiset(s)
  {
    if s != [] {
      SortedPermutes(s[1..], leq);
      InsertPermutes(s[0], Sorted(s[1..], leq), leq);
      assert s == [s[0]] + s[1..];
    }
  }

  lemma SortedMembers<T(!new)>(s: seq<T>, leq: (T, T) -> bool, x: T)
    ensures x in Sorted(s, leq) <==> x in s
  {
    SortedPermutes(s, leq);
    assert x in multiset(s) <==> x in s;
    assert x in multiset(Sorted(s, leq)) <==> x in Sorted(s, leq);
  }

  // ---------- Canonical orders: sorting removes all trace of the input order ----------

  ghost predicate Antisymmetric<T(!new)>(leq: (T, T) -> bool) {
    forall a, b :: leq(a, b) && leq(b, a) ==> a == b
  }

  /** Entries that tie are equal. */
  ghost predicate NoTies<T(!new)>(s: seq<T>, leq: (T, T) -> bool) {
    forall x, y :: x in s && y in s && leq(x, y) && leq(y, x) ==> x == y
  }

  lemma {:induction false} SortedListsEqual<T(!new)>(a: seq<T>, b: seq<T>, leq: (T, T) -> bool)
    requires TotalPreorder(leq) && NoTies(a, leq)
    requires SortedBy(a, leq) && SortedBy(b, leq) && multiset(a) == multiset(b)
    ensures a == b
  {
    assert |a| == |multiset(a)| && |b| == |multiset(b)|;
    if a != [] {
      SortedHeadsEqual(a, b, leq);
      TailMultiset(a);
      TailMultiset(b);
      SortedTail(a, leq);
      SortedTail(b, leq);
      SortedListsEqual(a[1..], b[1..], leq);
    }
  }

  lemma SortedHeadsEqual<T(!new)>(a: seq<T>, b: seq<T>, leq: (T, T) -> bool)
    requires TotalPreorder(leq) && NoTies(a, leq) && a != [] && b != []
    requires SortedBy(a, leq) && SortedBy(b, leq) && multiset(a) == multiset(b)
    ensures a[0] == b[0]
  {
    assert a[0] in multiset(a) && b[0] in multiset(b);
    HeadIsLeast(a, b[0], leq);
    HeadIsLeast(b, a[0], leq);
    assert b[0] in a;
  }

  lemma SortedTail<T(!new)>(s: seq<T>, leq: (T, T) -> bool)
    requires s != [] && SortedBy(s, leq)
    ensures SortedBy(s[1..], leq)
    ensures NoTies(s, leq) ==> NoTies(s[1..], leq)
  {
    if NoTies(s, leq) {
      forall x | x in s[1..] ensures x in s {
      }
    }
  }

  lemma TailMultiset<T>(s: seq<T>)
    requires s != []
    ensures s == [s[0]] + s[1..]
    ensures multiset(s[1..]) == multiset(s) - multiset{s[0]}
  {
    assert s == [s[0]] + s[1..];
  }

  lemma HeadIsLeast<T(!new)>(s: seq<T>, x: T, leq: (T, T) -> bool)
    requires TotalPreorder(leq) && SortedBy(s, leq) && x in multiset(s)
    ensures s != [] && leq(s[0], x)
  {
    var i :| 0 <= i < |s| && s[i] == x;
    assert leq(s[i], s[i]);
    assert i == 0 || leq(s[0], s[i]);
  }

  /** Two lists sort alike exactly when one is a rearrangement of the other. */
  lemma SortedIff<T(!new)>(a: seq<T>, b: seq<T>, leq: (T, T) -> bool)
    requires TotalPreorder(leq) && Antisymmetric(leq)
    ensures Sorted(a, leq) == Sorted(b, leq) <==> multiset(a) == multiset(b)
  {
    SortedIsSorted(a, leq);
    SortedIsSorted(b, leq);
    if multiset(a) == multiset(b) {
      SortedListsEqual(Sorted(a, leq), Sorted(b, leq), leq);
    }
  }

  /** Two entries that tie, in either order, before a common rest: sorting keeps that order. */
  lemma {:induction false} TieKeepsOrder<T(!new)>(x: T, y: T, s: seq<T>, leq: (T, T) -> bool)
    requires TotalPreorder(leq) && leq(x, y) && leq(y, x) && x != y
    ensures Insert(x, Insert(y, s, leq), leq) != Insert(y, Insert(x, s, leq), leq)
  {
    if s == [] || leq(x, s[0]) {
      assert s != [] ==> leq(y, s[0]);
      assert Insert(x, [y] + s, leq)[0] == x && Insert(y, [x] + s, leq)[0] == y;
    } else {
      assert !leq(y, s[0]);
      var a, b := Insert(x, s[1..], leq), Insert(y, s[1..], leq);
      assert ([s[0]] + a)[1..] == a && ([s[0]] + b)[1..] == b;
      TieKeepsOrder(x, y, s[1..], leq);
      assert ([s[0]] + Insert(x, b, leq))[1..] == Insert(x, b, leq);
      assert ([s[0]] + Insert(y, a, leq))[1..] == Insert(y, a, leq);
    }
  }

  lemma SortedTieKeepsOrder<T(!new)>(x: T, y: T, rest: seq<T>, leq: (T, T) -> bool)
    requires TotalPreorder(leq) && leq(x, y) && leq(y, x) && x != y
    ensures Sorted([x, y] + rest, leq) != Sorted([y, x] + rest, leq)
  {
    assert ([x, y] + rest)[1..] == [y] + rest && ([y, x] + rest)[1..] == [x] + rest;
    assert ([y] + rest)[1..] == rest && ([x] + rest)[1..] == rest;
    TieKeepsOrder(x, y, Sorted(rest, leq), leq);
  }

  /** Taking one member of a list to its front is a rearrangement. */
  lemma MovedToFront<T>(s: seq<T>, x: T) returns (rest: seq<T>)
    requires x in s
    ensures multiset(s) == multiset([x] + rest)
  {
    var i :| 0 <= i < |s| && s[i] == x;
    rest := s[..i] + s[i + 1..];
    assert s == s[..i] + [s[i]] + s[i + 1..];
  }

  function Mapped<T, U>(s: seq<T>, f: T -> U): seq<U> {
    seq(|s|, i requires 0 <= i < |s| => f(s[i]))
  }

  lemma MappedMember<T, U>(s: seq<T>, f: T -> U, y: U)
    ensures y in Mapped(s, f) <==> exists x :: x in s && f(x) == y
  {
    if x :| x in s && f(x) == y {
      var i :| 0 <= i < |s| && s[i] == x;
      assert Mapped(s, f)[i] == y;
    }
  }

  lemma MappedAppend<T, U>(a: seq<T>, b: seq<T>, f: T -> U)
    ensures Mapped(a + b, f) == Mapped(a, f) + Mapped(b, f)
  {
  }

  lemma MappedTwo<T, U>(x: T, y: T, rest: seq<T>, f: T -> U)
    ensures Mapped([x, y] + rest, f) == [f(x), f(y)] + Mapped(rest, f)
  {
    MappedAppend([x, y], rest, f);
    assert Mapped([x, y], f) == [f(x), f(y)];
  }

  function FlatMapped<T, U>(s: seq<T>, f: T -> seq<U>): seq<U> {
    if s == [] then [] else FlatMapped(s[..|s| - 1], f) + f(s[|s| - 1])
  }

  lemma FlatMappedSnoc<T, U>(s: seq<T>, x: T, f: T -> seq<U>)
    ensures FlatMapped(s + [x], f) == FlatMapped(s, f) + f(x)
  {
    assert (s + [x])[..|s|] == s;
  }

  lemma {:induction false} FlatMappedAppend<T, U>(a: seq<T>, b: seq<T>, f: T -> seq<U>)
    ensures FlatMapped(a + b, f) == FlatMapped(a, f) + FlatMapped(b, f)
  {
    if b == [] {
      assert a + b == a;
    } else {
      var last := |b| - 1;
      FlatMappedAppend(a, b[..last], f);
      assert (a + b)[..|a| + last] == a + b[..last];
      ConcatAssociates(FlatMapped(a, f), FlatMapped(b[..last], f), f(b[last]));
    }
  }

  lemma FlatMappedSplit<T, U>(front: seq<T>, x: T, back: seq<T>, f: T -> seq<U>)
    ensures multiset(FlatMapped(front + ([x] + back), f)) == multiset(f(x)) + multiset(FlatMapped(front + back, f))
  {
    FlatMappedAround(front, x, back, f);
    FlatMappedAppend(front, back, f);
    MiddleFirst(FlatMapped(front, f), f(x), FlatMapped(back, f));
  }

  lemma FlatMappedAround<T, U>(front: seq<T>, x: T, back: seq<T>, f: T -> seq<U>)
    ensures FlatMapped(front + ([x] + back), f) == FlatMapped(front, f) + (f(x) + FlatMapped(back, f))
  {
    FlatMappedAppend(front, [x] + back, f);
    FlatMappedAppend([x], back, f);
    FlatMappedOne(x, f);
  }

  lemma FlatMappedOne<T, U>(x: T, f: T -> seq<U>)
    ensures FlatMapped([x], f) == f(x)
  {
    assert [x][..0] == [];
  }

  lemma MiddleFirst<T>(a: seq<T>, b: seq<T>, c: seq<T>)
    ensures multiset(a + (b + c)) == multiset(b) + multiset(a + c)
  {
    assert multiset(b + c) == multiset(b) + multiset(c);
  }

  lemma {:induction false} FlatMappedMember<T, U>(s: seq<T>, f: T -> seq<U>, y: U)
    ensures y in FlatMapped(s, f) <==> exists x :: x in s && y in f(x)
  {
    if s != [] {
      var front, last := s[..|s| - 1], s[|s| - 1];
      FlatMappedMember(front, f, y);
      assert s == front + [last];
      if x :| x in s && y in f(x) {
        assert x in front || x == last;
      }
    }
  }

  lemma FlatMappedHead<T, U>(s: seq<T>, f: T -> seq<U>)
    requires s != []
    ensures multiset(FlatMapped(s, f)) == multiset(f(s[0])) + multiset(FlatMapped(s[1..], f))
  {
    FlatMappedSplit([], s[0], s[1..], f);
    assert [] + ([s[0]] + s[1..]) == s && [] + s[1..] == s[1..];
  }

  /** The list around one of its members. */
  lemma Around<T>(s: seq<T>, x: T) returns (front: seq<T>, back: seq<T>)
    requires x in multiset(s)
    ensures s == front + ([x] + back) && multiset(front + back) == multiset(s) - multiset{x}
  {
    var i :| 0 <= i < |s| && s[i] == x;
    front, back := s[..i], s[i + 1..];
    assert s == front + ([x] + back);
    MiddleFirst(front, [x], back);
  }

  lemma {:induction false} FlatMappedPermutes<T, U>(a: seq<T>, b: seq<T>, f: T -> seq<U>)
    requires multiset(a) == multiset(b)
    ensures multiset(FlatMapped(a, f)) == multiset(FlatMapped(b, f))
  {
    assert |a| == |multiset(a)| && |b| == |multiset(b)|;
    if a != [] {
      assert a[0] in multiset(a);
      var front, back := Around(b, a[0]);
      TailMultiset(a);
      FlatMappedPermutes(a[1..], front + back, f);
      FlatMappedHead(a, f);
      FlatMappedSplit(front, a[0], back, f);
    }
  }

  function Single<T, U>(f: T -> U): T -> seq<U> {
    x => [f(x)]
  }

  lemma {:induction false} MappedIsFlat<T, U>(s: seq<T>, f: T -> U)
    ensures Mapped(s, f) == FlatMapped(s, Single(f))
  {
    if s != [] {
      var last := |s| - 1;
      MappedIsFlat(s[..last], f);
      assert Mapped(s, f) == Mapped(s[..last], f) + [f(s[last])];
    }
  }

  /** Rearranging a list rearranges its image. */
  lemma MappedPermutes<T, U>(a: seq<T>, b: seq<T>, f: T -> U)
    requires multiset(a) == multiset(b)
    ensures multiset(Mapped(a, f)) == multiset(Mapped(b, f))
  {
    MappedIsFlat(a, f);
    MappedIsFlat(b, f);
    FlatMappedPermutes(a, b, Single(f));
  }

  /** Sorted, each entry once. */
  function UniqueSorted<T(==,!new)>(s: seq<T>, leq: (T, T) -> bool): seq<T> {
    Dedup(Sorted(s, leq))
  }

  method UniqueSortedEntries<T(==,!new)>(s: seq<T>, leq: (T, T) -> bool) returns (unique: seq<T>)
    ensures unique == UniqueSorted(s, leq)
  {
    var sorted := Sorted(s, leq);
    unique := [];
    var seen: set<T> := {};
    for i := 0 to |sorted|
      invariant unique == Dedup(sorted[..i])
      invariant seen == set x | x in unique
    {
      assert sorted[..i + 1][..i] == sorted[..i];
      if sorted[i] !in seen {
        seen := seen + {sorted[i]};
        unique := unique + [sorted[i]];
      }
    }
    assert sorted[..|sorted|] == sorted;
  }

  lemma {:induction false} DedupStaysSorted<T(!new)>(s: seq<T>, leq: (T, T) -> bool)
    requires SortedBy(s, leq)
    ensures SortedBy(Dedup(s), leq)
  {
    if s != [] {
      var front := s[..|s| - 1];
      DedupStaysSorted(front, leq);
      forall k | 0 <= k < |Dedup(front)| ensures leq(Dedup(front)[k], s[|s| - 1]) {
        assert Dedup(front)[k] in front;
        var i :| 0 <= i < |front| && front[i] == Dedup(front)[k];
        assert s[i] == front[i];
      }
    }
  }

  lemma {:induction false} DistinctSameMembers<T(!new)>(a: seq<T>, b: seq<T>)
    requires forall i, j :: 0 <= i < j < |a| ==> a[i] != a[j]
    requires forall i, j :: 0 <= i < j < |b| ==> b[i] != b[j]
    requires forall x :: x in a <==> x in b
    ensures multiset(a) == multiset(b)
  {
    forall x ensures multiset(a)[x] == multiset(b)[x] {
      OccursOnce(a, x);
      OccursOnce(b, x);
    }
  }

  lemma {:induction false} OccursOnce<T(!new)>(s: seq<T>, x: T)
    requires forall i, j :: 0 <= i < j < |s| ==> s[i] != s[j]
    ensures multiset(s)[x] == if x in s then 1 else 0
  {
    if s != [] {
      OccursOnce(s[..|s| - 1], x);
      assert s == s[..|s| - 1] + [s[|s| - 1]];
      assert multiset(s)[x] == multiset(s[..|s| - 1])[x] + multiset([s[|s| - 1]])[x];
    }
  }

  lemma {:induction false} CountsMeanDistinct<T(!new)>(s: seq<T>)
    requires forall x :: multiset(s)[x] <= 1
    ensures forall i, j :: 0 <= i < j < |s| ==> s[i] != s[j]
  {
    forall i, j | 0 <= i < j < |s| ensures s[i] != s[j] {
      assert s == s[..j] + s[j..];
      assert s[..j][i] == s[i] && s[j..][0] == s[j];
      assert multiset(s)[s[i]] == multiset(s[..j])[s[i]] + multiset(s[j..])[s[i]];
    }
  }

  /** Sorting distinct entries leaves them distinct. */
  lemma SortedDistinct<T(!new)>(s: seq<T>, leq: (T, T) -> bool)
    requires forall i, j :: 0 <= i < j < |s| ==> s[i] != s[j]
    ensures var r := Sorted(s, leq); forall i, j :: 0 <= i < j < |r| ==> r[i] != r[j]
  {
    SortedPermutes(s, leq);
    forall x ensures multiset(Sorted(s, leq))[x] <= 1 {
      OccursOnce(s, x);
    }
    CountsMeanDistinct(Sorted(s, leq));
  }

  lemma UniqueSortedMembers<T(!new)>(s: seq<T>, leq: (T, T) -> bool, x: T)
    ensures x in UniqueSorted(s, leq) <==> x in s
  {
    SortedMembers(s, leq, x);
  }

  /** Two lists become the same exactly when they have the same members: order and repetition are forgotten, nothing else. */
  lemma UniqueSortedIff<T(!new)>(a: seq<T>, b: seq<T>, leq: (T, T) -> bool)
    requires TotalPreorder(leq) && Antisymmetric(leq)
    ensures UniqueSorted(a, leq) == UniqueSorted(b, leq) <==> forall x :: x in a <==> x in b
  {
    forall x ensures (x in UniqueSorted(a, leq) <==> x in a) && (x in UniqueSorted(b, leq) <==> x in b) {
      UniqueSortedMembers(a, leq, x);
      UniqueSortedMembers(b, leq, x);
    }
    if forall x :: x in a <==> x in b {
      SortedIsSorted(a, leq);
      SortedIsSorted(b, leq);
      DedupStaysSorted(Sorted(a, leq), leq);
      DedupStaysSorted(Sorted(b, leq), leq);
      DistinctSameMembers(UniqueSorted(a, leq), UniqueSorted(b, leq));
      SortedListsEqual(UniqueSorted(a, leq), UniqueSorted(b, leq), leq);
    }
  }

  // ---------- Strings and lists of strings, compared lexicographically ----------

  predicate LexLeq(a: string, b: string)
    decreases |a|
  {
    a == [] || (b != [] && (a[0] < b[0] || (a[0] == b[0] && LexLeq(a[1..], b[1..]))))
  }

  lemma LexTotal(a: string, b: string)
    ensures LexLeq(a, b) || LexLeq(b, a)
    decreases |a|
  {
    if a != [] && b != [] && a[0] == b[0] {
      LexTotal(a[1..], b[1..]);
    }
  }

  lemma LexTransitive(a: string, b: string, c: string)
    requires LexLeq(a, b) && LexLeq(b, c)
    ensures LexLeq(a, c)
    decreases |a|
  {
    if a != [] && a[0] == b[0] && b[0] == c[0] {
      LexTransitive(a[1..], b[1..], c[1..]);
    }
  }

  lemma LexAntisymmetric(a: string, b: string)
    requires LexLeq(a, b) && LexLeq(b, a)
    ensures a == b
    decreases |a|
  {
    if a != [] {
      LexAntisymmetric(a[1..], b[1..]);
      assert a == [a[0]] + a[1..] && b == [b[0]] + b[1..];
    }
  }

  /** Tuples of strings as sequences of equal length, compared position by position. */
  predicate TupleLeq(a: seq<string>, b: seq<string>)
    decreases |a|
  {
    a == [] || (b != [] && ((a[0] != b[0] && LexLeq(a[0], b[0])) || (a[0] == b[0] && TupleLeq(a[1..], b[1..]))))
  }

  lemma TupleTotal(a: seq<string>, b: seq<string>)
    ensures TupleLeq(a, b) || TupleLeq(b, a)
    decreases |a|
  {
    if a != [] && b != [] {
      LexTotal(a[0], b[0]);
      if a[0] == b[0] {
        TupleTotal(a[1..], b[1..]);
      }
    }
  }

  lemma TupleTransitive(a: seq<string>, b: seq<string>, c: seq<string>)
    requires TupleLeq(a, b) && TupleLeq(b, c)
    ensures TupleLeq(a, c)
    decreases |a|
  {
    if a != [] {
      if a[0] != b[0] && b[0] != c[0] {
        LexTransitive(a[0], b[0], c[0]);
        if a[0] == c[0] {
          LexAntisymmetric(a[0], b[0]);
        }
      } else if a[0] == b[0] == c[0] {
        TupleTransitive(a[1..], b[1..], c[1..]);
      }
    }
  }

  lemma TupleAntisymmetric(a: seq<string>, b: seq<string>)
    requires TupleLeq(a, b) && TupleLeq(b, a)
    ensures a == b
    decreases |a|
  {
    if a != [] {
      if a[0] != b[0] {
        LexAntisymmetric(a[0], b[0]);
      } else {
        TupleAntisymmetric(a[1..], b[1..]);
        assert a == [a[0]] + a[1..] && b == [b[0]] + b[1..];
      }
    }
  }

  // ---------- The orders, position by position ----------

  lemma SamePrefix<T>(a: seq<T>, b: seq<T>, i: nat)
    requires i < |a| && i < |b| && a[..i] == b[..i]
    ensures i > 0 ==> a[0] == b[0]
  {
    if i > 0 {
      assert a[..i][0] == a[0] && b[..i][0] == b[0];
    }
  }

  /** The first position at which the texts differ, if neither ends before. */
  predicate DifferFirstAt(a: string, b: string, i: nat) {
    i < |a| && i < |b| && a[..i] == b[..i] && a[i] != b[i]
  }

  /** Lexicographic order: a prefix, or a smaller character at the first difference. */
  lemma {:induction false} LexLeqIff(a: string, b: string)
    ensures LexLeq(a, b) <==> a <= b || exists i: nat :: DifferFirstAt(a, b, i) && a[i] < b[i]
    decreases |a|
  {
    if a != [] && b != [] && a[0] == b[0] {
      LexLeqIff(a[1..], b[1..]);
      assert a == [a[0]] + a[1..] && b == [b[0]] + b[1..];
      assert a <= b <==> a[1..] <= b[1..];
      forall i: nat | DifferFirstAt(a, b, i) ensures i > 0 && DifferFirstAt(a[1..], b[1..], i - 1) {
        assert a[1..][..i - 1] == a[..i][1..] && b[1..][..i - 1] == b[..i][1..];
      }
      forall i: nat | DifferFirstAt(a[1..], b[1..], i) ensures DifferFirstAt(a, b, i + 1) {
        assert a[..i + 1] == [a[0]] + a[1..][..i] && b[..i + 1] == [b[0]] + b[1..][..i];
      }
    } else if a != [] && b != [] {
      assert DifferFirstAt(a, b, 0);
      assert !(a <= b);
      forall i: nat | DifferFirstAt(a, b, i) ensures i == 0 {
        SamePrefix(a, b, i);
      }
    }
  }

  predicate TuplesDifferFirstAt(a: seq<string>, b: seq<string>, i: nat) {
    i < |a| && i < |b| && a[..i] == b[..i] && a[i] != b[i]
  }

  /** Tuples of one length are ordered by the first position at which they differ. */
  lemma {:induction false} TupleLeqIff(a: seq<string>, b: seq<string>)
    requires |a| == |b|
    ensures TupleLeq(a, b) <==> a == b || exists i: nat :: TuplesDifferFirstAt(a, b, i) && LexLeq(a[i], b[i])
    decreases |a|
  {
    if a != [] && a[0] == b[0] {
      TupleLeqIff(a[1..], b[1..]);
      assert a == [a[0]] + a[1..] && b == [b[0]] + b[1..];
      forall i: nat | TuplesDifferFirstAt(a, b, i) ensures i > 0 && TuplesDifferFirstAt(a[1..], b[1..], i - 1) {
        assert a[1..][..i - 1] == a[..i][1..] && b[1..][..i - 1] == b[..i][1..];
      }
      forall i: nat | TuplesDifferFirstAt(a[1..], b[1..], i) ensures TuplesDifferFirstAt(a, b, i + 1) {
        assert a[..i + 1] == [a[0]] + a[1..][..i] && b[..i + 1] == [b[0]] + b[1..][..i];
      }
    } else if a != [] {
      assert TuplesDifferFirstAt(a, b, 0);
      forall i: nat | TuplesDifferFirstAt(a, b, i) ensures i == 0 {
        SamePrefix(a, b, i);
      }
    }
  }
}
