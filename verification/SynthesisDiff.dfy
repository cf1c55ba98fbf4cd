/** The before/after diff of two parent syntheses, and rebuilding the second from the first. */
module SynthesisDiff {
  import opened Options
  import opened Json
  import opened Ordering

  // ---------- Keys in sorted order ----------

  ghost predicate IsLeast(k: string, keys: set<string>) {
    k in keys && forall j :: j in keys ==> LexLeq(k, j)
  }

  lemma {:induction false} LeastExists(keys: set<string>)
    requires keys != {}
    ensures exists k :: IsLeast(k, keys)
  {
    var x :| x in keys;
    LexTotal(x, x);
    if keys == {x} {
      assert IsLeast(x, keys);
    } else {
      LeastExists(keys - {x});
      var y :| IsLeast(y, keys - {x});
      LexTotal(x, y);
      if LexLeq(x, y) {
        forall j | j in keys ensures LexLeq(x, j) {
          if j != x { LexTransitive(x, y, j); }
        }
        assert IsLeast(x, keys);
      } else {
        assert IsLeast(y, keys);
      }
    }
  }

  lemma LeastUnique(keys: set<string>)
    ensures forall a, b :: IsLeast(a, keys) && IsLeast(b, keys) ==> a == b
  {
    forall a, b | IsLeast(a, keys) && IsLeast(b, keys) ensures a == b {
      LexAntisymmetric(a, b);
    }
  }

  /** `sorted(keys)` */
  ghost function SortedKeys(keys: set<string>): seq<string> {
    if keys == {} then []
    else
      LeastExists(keys);
      var k :| IsLeast(k, keys);
      [k] + SortedKeys(keys - {k})
  }

  lemma {:induction false} SortedKeysEnumerate(keys: set<string>)
    ensures forall k :: k in SortedKeys(keys) <==> k in keys
    ensures forall i, j :: 0 <= i < j < |SortedKeys(keys)| ==> SortedKeys(keys)[i] != SortedKeys(keys)[j]
  {
    if keys != {} {
      LeastExists(keys);
      var k := SortedKeys(keys)[0];
      SortedKeysEnumerate(keys - {k});
      assert SortedKeys(keys) == [k] + SortedKeys(keys - {k});
    }
  }

  lemma SortedKeysStep(keys: set<string>, k: string)
    requires IsLeast(k, keys)
    ensures SortedKeys(keys) == [k] + SortedKeys(keys - {k})
  {
    LeastUnique(keys);
  }

  method LeastKey(keys: set<string>) returns (k: string)
    requires keys != {}
    ensures IsLeast(k, keys)
  {
    k :| k in keys;
    var others := keys;
    while others != {}
      invariant k in keys && others <= keys
      invariant forall j :: j in keys && j !in others ==> LexLeq(k, j)
      decreases others
    {
      var j :| j in others;
      LexTotal(j, j);
      LexTotal(k, j);
      if !LexLeq(k, j) {
        forall i | i in keys && i !in others ensures LexLeq(j, i) {
          LexTransitive(j, k, i);
        }
        k := j;
      }
      others := others - {j};
    }
  }

  /** Computes `sorted(keys)` by repeatedly taking out the least key. */
  method SortKeys(keys: set<string>) returns (order: seq<string>)
    ensures order == SortedKeys(keys)
  {
    order := [];
    var rest := keys;
    while rest != {}
      invariant order + SortedKeys(rest) == SortedKeys(keys)
      decreases rest
    {
      var k := LeastKey(rest);
      SortedKeysStep(rest, k);
      ghost var tail := SortedKeys(rest - {k});
      assert order + ([k] + tail) == order + [k] + tail;
      order, rest := order + [k], rest - {k};
    }
    assert order + [] == order;
  }

  // ---------- The diff ----------

  /** A changed location; None stands for "missing". */
  datatype Entry = Entry(path: Path, before: Option<Value>, after: Option<Value>)

  function Prefixed(p: Path, entries: seq<Entry>): seq<Entry> {
    seq(|entries|, i requires 0 <= i < |entries| => entries[i].(path := p + entries[i].path))
  }

  function Field(m: Fields, k: string): Option<Value> {
    if k in m then Some(m[k]) else None
  }

  function Item(s: seq<Value>, i: nat): Option<Value> {
    if i < |s| then Some(s[i]) else None
  }

  /** Two values that cannot both be entered: one entry, unless they are equal. */
  function Differing(a: Option<Value>, b: Option<Value>): seq<Entry> {
    if a == b then [] else [Entry([], a, b)]
  }

  ghost function FieldDiff(a: Fields, b: Fields, k: string): seq<Entry>
    decreases Obj(a), 0
  {
    if k in a && k in b then Diff(a[k], b[k]) else Differing(Field(a, k), Field(b, k))
  }

  ghost function FieldDiffs(a: Fields, b: Fields, keys: seq<string>): seq<Entry>
    decreases Obj(a), 1, |keys|
  {
    if keys == [] then []
    else
      var last := keys[|keys| - 1];
      FieldDiffs(a, b, keys[..|keys| - 1]) + Prefixed([Key(last)], FieldDiff(a, b, last))
  }

  ghost function ItemDiff(a: seq<Value>, b: seq<Value>, i: nat): seq<Entry>
    decreases Arr(a), 0
  {
    if i < |a| && i < |b| then Diff(a[i], b[i]) else Differing(Item(a, i), Item(b, i))
  }

  ghost function ItemDiffs(a: seq<Value>, b: seq<Value>, n: nat): seq<Entry>
    decreases Arr(a), 1, n
  {
    if n == 0 then [] else ItemDiffs(a, b, n - 1) + Prefixed([Index(n - 1)], ItemDiff(a, b, n - 1))
  }

  function Max(a: nat, b: nat): nat {
    if a < b then b else a
  }

  /** Entries with paths relative to the two values. */
  ghost function Diff(a: Value, b: Value): seq<Entry>
    decreases a, 2
  {
    if a.Obj? && b.Obj? then FieldDiffs(a.fields, b.fields, SortedKeys(a.fields.Keys + b.fields.Keys))
    else if a.Arr? && b.Arr? then ItemDiffs(a.items, b.items, Max(|a.items|, |b.items|))
    else Differing(Some(a), Some(b))
  }

  lemma PrefixedTwice(p: Path, q: Path, entries: seq<Entry>)
    ensures Prefixed(p, Prefixed(q, entries)) == Prefixed(p + q, entries)
  {
    forall i | 0 <= i < |entries| ensures p + (q + entries[i].path) == p + q + entries[i].path {
    }
  }

  lemma PrefixedAppend(p: Path, a: seq<Entry>, b: seq<Entry>)
    ensures Prefixed(p, a + b) == Prefixed(p, a) + Prefixed(p, b)
  {
  }

  lemma NextField(path: Path, a: Fields, b: Fields, keys: seq<string>, n: nat)
    requires n < |keys|
    ensures Prefixed(path, FieldDiffs(a, b, keys[..n + 1]))
         == Prefixed(path, FieldDiffs(a, b, keys[..n])) + Prefixed(path + [Key(keys[n])], FieldDiff(a, b, keys[n]))
  {
    assert keys[..n + 1][..n] == keys[..n];
    PrefixedTwice(path, [Key(keys[n])], FieldDiff(a, b, keys[n]));
    PrefixedAppend(path, FieldDiffs(a, b, keys[..n]), Prefixed([Key(keys[n])], FieldDiff(a, b, keys[n])));
  }

  lemma NextItem(path: Path, a: seq<Value>, b: seq<Value>, n: nat)
    ensures Prefixed(path, ItemDiffs(a, b, n + 1))
         == Prefixed(path, ItemDiffs(a, b, n)) + Prefixed(path + [Index(n)], ItemDiff(a, b, n))
  {
    PrefixedTwice(path, [Index(n)], ItemDiff(a, b, n));
    PrefixedAppend(path, ItemDiffs(a, b, n), Prefixed([Index(n)], ItemDiff(a, b, n)));
  }

  /** The source's recursion, with the path passed down. */
  method BeforeAfterDiff(a: Option<Value>, b: Option<Value>, path: Path) returns (entries: seq<Entry>)
    ensures entries == Prefixed(path, if a.Some? && b.Some? then Diff(a.value, b.value) else Differing(a, b))
    decreases a.Some? && b.Some?, if a.Some? then a.value else Null
  {
    entries := [];
    if a.Some? && b.Some? && a.value.Obj? && b.value.Obj? {
      var x, y := a.value.fields, b.value.fields;
      var keys := SortKeys(x.Keys + y.Keys);
      for n := 0 to |keys|
        invariant entries == Prefixed(path, FieldDiffs(x, y, keys[..n]))
      {
        var k := keys[n];
        var found := BeforeAfterDiff(Field(x, k), Field(y, k), path + [Key(k)]);
        NextField(path, x, y, keys, n);
        entries := entries + found;
      }
      assert keys[..|keys|] == keys;
    } else if a.Some? && b.Some? && a.value.Arr? && b.value.Arr? {
      var x, y := a.value.items, b.value.items;
      for n := 0 to Max(|x|, |y|)
        invariant entries == Prefixed(path, ItemDiffs(x, y, n))
      {
        var found := BeforeAfterDiff(Item(x, n), Item(y, n), path + [Index(n)]);
        NextItem(path, x, y, n);
        entries := entries + found;
      }
    } else if a != b {
      assert path + [] == path;
      entries := [Entry(path, a, b)];
    }
  }

  // ---------- Applying a diff ----------

  /** The entries below one step, with that step taken off. */
  function Below(s: Step, entries: seq<Entry>): seq<Entry> {
    if entries == [] then []
    else
      var last := entries[|entries| - 1];
      Below(s, entries[..|entries| - 1])
      + (if last.path != [] && last.path[0] == s then [last.(path := last.path[1..])] else [])
  }

  function KeyHeads(entries: seq<Entry>): set<string> {
    set e | e in entries && e.path != [] && e.path[0].Key? :: e.path[0].key
  }

  function IndexBound(entries: seq<Entry>): nat {
    if entries == [] then 0
    else
      var last := entries[|entries| - 1];
      Max(IndexBound(entries[..|entries| - 1]),
          if last.path != [] && last.path[0].Index? then last.path[0].index + 1 else 0)
  }

  predicate Replaces(entries: seq<Entry>) {
    entries != [] && entries[0].path == []
  }

  /** A possibly missing value after the entries: replaced outright, or rebuilt from its parts. */
  function Rebuild(v: Option<Value>, entries: seq<Entry>): Option<Value>
    decreases v.Some?, if v.Some? then v.value else Null, 2
  {
    if Replaces(entries) then entries[0].after
    else match v
      case Some(Obj(m)) => Some(Obj(RebuildFields(m, entries)))
      case Some(Arr(s)) => Some(Arr(RebuildItems(s, entries, Max(|s|, IndexBound(entries)))))
      case _ => v
  }

  function RebuildField(m: Fields, k: string, entries: seq<Entry>): Option<Value>
    decreases true, Obj(m), 0
  {
    Rebuild(Field(m, k), Below(Key(k), entries))
  }

  function RebuildFields(m: Fields, entries: seq<Entry>): Fields
    decreases true, Obj(m), 1
  {
    map k | k in m.Keys + KeyHeads(entries) && RebuildField(m, k, entries).Some? :: RebuildField(m, k, entries).value
  }

  /** The first `n` positions, leaving out those whose element is missing after the entries. */
  function RebuildItems(s: seq<Value>, entries: seq<Entry>, n: nat): seq<Value>
    decreases true, Arr(s), 1, n
  {
    if n == 0 then []
    else
      RebuildItems(s, entries, n - 1)
      + (match Rebuild(Item(s, n - 1), Below(Index(n - 1), entries)) case Some(x) => [x] case None => [])
  }

  // Entries below a step

  lemma {:induction false} BelowAppend(s: Step, a: seq<Entry>, b: seq<Entry>)
    ensures Below(s, a + b) == Below(s, a) + Below(s, b)
  {
    if b == [] {
      assert a + b == a;
    } else {
      assert (a + b)[..|a + b| - 1] == a + b[..|b| - 1];
      BelowAppend(s, a, b[..|b| - 1]);
    }
  }

  lemma {:induction false} BelowPrefixed(s: Step, t: Step, entries: seq<Entry>)
    ensures Below(s, Prefixed([t], entries)) == if s == t then entries else []
  {
    if entries != [] {
      var front, last := entries[..|entries| - 1], entries[|entries| - 1];
      BelowPrefixed(s, t, front);
      assert Prefixed([t], entries)[..|entries| - 1] == Prefixed([t], front);
      assert ([t] + last.path)[1..] == last.path;
      assert entries == front + [last];
    }
  }

  lemma BelowConcat(front: seq<Entry>, added: seq<Entry>, s: Step, t: Step)
    ensures Below(s, front + Prefixed([t], added)) == Below(s, front) + if s == t then added else []
  {
    BelowAppend(s, front, Prefixed([t], added));
    BelowPrefixed(s, t, added);
  }

  lemma {:induction false} BelowFieldDiffs(a: Fields, b: Fields, keys: seq<string>, k: string)
    requires forall i, j :: 0 <= i < j < |keys| ==> keys[i] != keys[j]
    ensures Below(Key(k), FieldDiffs(a, b, keys)) == if k in keys then FieldDiff(a, b, k) else []
  {
    if keys != [] {
      var front, last := keys[..|keys| - 1], keys[|keys| - 1];
      var entries, added := FieldDiffs(a, b, front), FieldDiff(a, b, last);
      BelowFieldDiffs(a, b, front, k);
      BelowConcat(entries, added, Key(k), Key(last));
      assert FieldDiffs(a, b, keys) == entries + Prefixed([Key(last)], added);
      assert k in keys <==> k in front || k == last;
    }
  }

  /** Lists of entries, each put below its index. */
  ghost function Joined(parts: nat -> seq<Entry>, n: nat): seq<Entry> {
    if n == 0 then [] else Joined(parts, n - 1) + Prefixed([Index(n - 1)], parts(n - 1))
  }

  lemma JoinedStep(parts: nat -> seq<Entry>, n: nat, i: nat)
    requires n > 0
    ensures Below(Index(i), Joined(parts, n))
         == Below(Index(i), Joined(parts, n - 1)) + if i == n - 1 then parts(n - 1) else []
  {
    BelowConcat(Joined(parts, n - 1), parts(n - 1), Index(i), Index(n - 1));
  }

  lemma {:induction false} BelowJoined(parts: nat -> seq<Entry>, n: nat, i: nat)
    ensures Below(Index(i), Joined(parts, n)) == if i < n then parts(i) else []
  {
    if n > 0 {
      BelowJoined(parts, n - 1, i);
      JoinedStep(parts, n, i);
      EitherEmpty(Below(Index(i), Joined(parts, n - 1)), if i == n - 1 then parts(n - 1) else []);
    }
  }

  lemma EitherEmpty(a: seq<Entry>, b: seq<Entry>)
    ensures a == [] ==> a + b == b
    ensures b == [] ==> a + b == a
  {
  }

  lemma {:induction false} ItemDiffsJoined(a: seq<Value>, b: seq<Value>, n: nat)
    ensures ItemDiffs(a, b, n) == Joined((i: nat) => ItemDiff(a, b, i), n)
  {
    if n > 0 {
      ItemDiffsJoined(a, b, n - 1);
    }
  }

  lemma BelowItemDiffs(a: seq<Value>, b: seq<Value>, n: nat, i: nat)
    ensures Below(Index(i), ItemDiffs(a, b, n)) == if i < n then ItemDiff(a, b, i) else []
  {
    ItemDiffsJoined(a, b, n);
    BelowJoined((j: nat) => ItemDiff(a, b, j), n, i);
  }

  // Heads of the entries

  lemma {:induction false} FieldDiffsHeads(a: Fields, b: Fields, keys: seq<string>)
    ensures forall e :: e in FieldDiffs(a, b, keys) ==> e.path != [] && e.path[0].Key? && e.path[0].key in keys
    ensures forall k :: k in keys && FieldDiff(a, b, k) != [] ==> k in KeyHeads(FieldDiffs(a, b, keys))
  {
    if keys != [] {
      var front, last := keys[..|keys| - 1], keys[|keys| - 1];
      FieldDiffsHeads(a, b, front);
      var added := Prefixed([Key(last)], FieldDiff(a, b, last));
      forall k | k in keys && FieldDiff(a, b, k) != [] ensures k in KeyHeads(FieldDiffs(a, b, keys)) {
        if k == last {
          assert added[0] in FieldDiffs(a, b, keys) && added[0].path[0] == Key(last);
        } else {
          assert k in front;
          var e :| e in FieldDiffs(a, b, front) && e.path != [] && e.path[0].Key? && e.path[0].key == k;
          assert e in FieldDiffs(a, b, keys);
        }
      }
    }
  }

  lemma {:induction false} ItemDiffsHeads(a: seq<Value>, b: seq<Value>, n: nat)
    ensures forall e :: e in ItemDiffs(a, b, n) ==> e.path != [] && e.path[0].Index? && e.path[0].index < n
  {
    if n > 0 {
      ItemDiffsHeads(a, b, n - 1);
    }
  }

  // ---------- Round trip ----------

  /** Applying the diff of `a` and `b` to `a` gives `b`. */
  lemma {:induction false} DiffRoundTrip(a: Value, b: Value)
    ensures Rebuild(Some(a), Diff(a, b)) == Some(b)
    decreases a, 2
  {
    if a.Obj? && b.Obj? {
      FieldsRoundTrip(a.fields, b.fields);
    } else if a.Arr? && b.Arr? {
      ItemsRoundTrip(a.items, b.items);
    }
  }

  lemma FieldRoundTrip(a: Fields, b: Fields, keys: seq<string>, k: string)
    requires keys == SortedKeys(a.Keys + b.Keys)
    ensures RebuildField(a, k, FieldDiffs(a, b, keys)) == Field(b, k)
    decreases Obj(a), 0
  {
    SortedKeysEnumerate(a.Keys + b.Keys);
    BelowFieldDiffs(a, b, keys, k);
    if k in a && k in b {
      DiffRoundTrip(a[k], b[k]);
    }
  }

  lemma {:induction false} FieldsRoundTrip(a: Fields, b: Fields)
    ensures Rebuild(Some(Obj(a)), Diff(Obj(a), Obj(b))) == Some(Obj(b))
    decreases Obj(a), 1
  {
    var keys := SortedKeys(a.Keys + b.Keys);
    forall k ensures RebuildField(a, k, FieldDiffs(a, b, keys)) == Field(b, k) {
      FieldRoundTrip(a, b, keys, k);
    }
    NewKeysAreHeads(a, b, keys);
    RebuiltFields(a, b, FieldDiffs(a, b, keys));
    RebuildObject(a, FieldDiffs(a, b, keys));
  }

  lemma NewKeysAreHeads(a: Fields, b: Fields, keys: seq<string>)
    requires keys == SortedKeys(a.Keys + b.Keys)
    ensures !Replaces(FieldDiffs(a, b, keys))
    ensures forall k :: k in b && k !in a ==> k in KeyHeads(FieldDiffs(a, b, keys))
  {
    SortedKeysEnumerate(a.Keys + b.Keys);
    FieldDiffsHeads(a, b, keys);
    forall k | k in b && k !in a ensures k in KeyHeads(FieldDiffs(a, b, keys)) {
      assert FieldDiff(a, b, k) != [];
    }
  }

  lemma RebuiltFields(a: Fields, b: Fields, entries: seq<Entry>)
    requires forall k :: RebuildField(a, k, entries) == Field(b, k)
    requires forall k :: k in b && k !in a ==> k in KeyHeads(entries)
    ensures RebuildFields(a, entries) == b
  {
    var rebuilt := RebuildFields(a, entries);
    forall k ensures (k in rebuilt <==> k in b) && (k in b ==> rebuilt[k] == b[k]) {
      assert RebuildField(a, k, entries) == Field(b, k);
    }
  }

  lemma RebuildObject(a: Fields, entries: seq<Entry>)
    requires !Replaces(entries)
    ensures Rebuild(Some(Obj(a)), entries) == Some(Obj(RebuildFields(a, entries)))
  {
  }

  lemma BoundReaches(a: seq<Value>, b: seq<Value>, n: nat)
    requires n == Max(|a|, |b|)
    ensures |b| <= Max(|a|, IndexBound(ItemDiffs(a, b, n)))
  {
    if |b| > |a| {
      BelowItemDiffs(a, b, n, |b| - 1);
      BoundedBelow(ItemDiffs(a, b, n), |b| - 1);
    }
  }

  lemma ItemRoundTrip(a: seq<Value>, b: seq<Value>, n: nat, i: nat)
    requires n == Max(|a|, |b|)
    ensures Rebuild(Item(a, i), Below(Index(i), ItemDiffs(a, b, n))) == Item(b, i)
    decreases Arr(a), 0
  {
    BelowItemDiffs(a, b, n, i);
    if i < |a| && i < |b| {
      DiffRoundTrip(a[i], b[i]);
    }
  }

  lemma {:induction false} ItemsRoundTrip(a: seq<Value>, b: seq<Value>)
    ensures Rebuild(Some(Arr(a)), Diff(Arr(a), Arr(b))) == Some(Arr(b))
    decreases Arr(a), 1
  {
    var n := Max(|a|, |b|);
    var entries := ItemDiffs(a, b, n);
    ItemDiffsHeads(a, b, n);
    forall i: nat ensures Rebuild(Item(a, i), Below(Index(i), entries)) == Item(b, i) {
      ItemRoundTrip(a, b, n, i);
    }
    BoundReaches(a, b, n);
    RebuildItemsPrefix(a, b, entries, Max(|a|, IndexBound(entries)));
    assert b[..|b|] == b;
    RebuildArray(a, entries);
  }

  lemma RebuildArray(a: seq<Value>, entries: seq<Entry>)
    requires !Replaces(entries)
    ensures Rebuild(Some(Arr(a)), entries) == Some(Arr(RebuildItems(a, entries, Max(|a|, IndexBound(entries)))))
  {
  }

  lemma {:induction false} BoundedBelow(entries: seq<Entry>, i: nat)
    ensures i >= IndexBound(entries) ==> Below(Index(i), entries) == []
  {
    if entries != [] {
      BoundedBelow(entries[..|entries| - 1], i);
    }
  }

  lemma {:induction false} RebuildItemsPrefix(a: seq<Value>, b: seq<Value>, entries: seq<Entry>, n: nat)
    requires forall i: nat :: Rebuild(Item(a, i), Below(Index(i), entries)) == Item(b, i)
    ensures RebuildItems(a, entries, n) == UpTo(b, n)
  {
    if n > 0 {
      RebuildItemsPrefix(a, b, entries, n - 1);
      assert Rebuild(Item(a, n - 1), Below(Index(n - 1), entries)) == Item(b, n - 1);
      RebuildItemsStep(a, b, entries, n);
    }
  }

  lemma RebuildItemsStep(a: seq<Value>, b: seq<Value>, entries: seq<Entry>, n: nat)
    requires n > 0 && Rebuild(Item(a, n - 1), Below(Index(n - 1), entries)) == Item(b, n - 1)
    requires RebuildItems(a, entries, n - 1) == UpTo(b, n - 1)
    ensures RebuildItems(a, entries, n) == UpTo(b, n)
  {
    UpToStep(b, n);
  }

  /** `b[:n]` */
  function UpTo(b: seq<Value>, n: nat): seq<Value> {
    b[..if n < |b| then n else |b|]
  }

  lemma UpToStep(b: seq<Value>, n: nat)
    requires n > 0
    ensures UpTo(b, n) == UpTo(b, n - 1) + match Item(b, n - 1) case Some(x) => [x] case None => []
  {
  }

  // ---------- Shape of the diff ----------

  function Swapped(entries: seq<Entry>): seq<Entry> {
    seq(|entries|, i requires 0 <= i < |entries| => Entry(entries[i].path, entries[i].after, entries[i].before))
  }

  /** No entry's path is a prefix of another's. */
  ghost predicate PrefixFree(entries: seq<Entry>) {
    forall i, j :: 0 <= i < |entries| && 0 <= j < |entries| && i != j ==> !(entries[i].path <= entries[j].path)
  }

  lemma {:induction false} EmptyIffEqual(a: Value, b: Value)
    ensures Diff(a, b) == [] <==> a == b
  {
    if Diff(a, b) == [] {
      DiffRoundTrip(a, b);
      RebuildNothing(a);
    }
    if a == b {
      SelfDiffEmpty(a);
    }
  }

  lemma {:induction false} SelfDiffEmpty(a: Value)
    ensures Diff(a, a) == []
    decreases a, 1
  {
    if a.Obj? {
      SelfFieldsEmpty(a.fields, SortedKeys(a.fields.Keys + a.fields.Keys));
    } else if a.Arr? {
      SelfItemsEmpty(a.items, |a.items|);
    }
  }

  lemma {:induction false} SelfFieldsEmpty(a: Fields, keys: seq<string>)
    ensures FieldDiffs(a, a, keys) == []
    decreases Obj(a), 0, |keys|
  {
    if keys != [] {
      SelfFieldsEmpty(a, keys[..|keys| - 1]);
      if keys[|keys| - 1] in a {
        SelfDiffEmpty(a[keys[|keys| - 1]]);
      }
    }
  }

  lemma {:induction false} SelfItemsEmpty(a: seq<Value>, n: nat)
    ensures ItemDiffs(a, a, n) == []
    decreases Arr(a), 0, n
  {
    if n > 0 {
      SelfItemsEmpty(a, n - 1);
      if n - 1 < |a| {
        SelfDiffEmpty(a[n - 1]);
      }
    }
  }

  lemma {:induction false} RebuildNothing(v: Value)
    ensures Rebuild(Some(v), []) == Some(v)
    decreases v, 1
  {
    match v
    case Obj(m) =>
      forall k | k in m ensures RebuildField(m, k, []) == Some(m[k]) {
        RebuildNothing(m[k]);
      }
      assert RebuildFields(m, []) == m;
    case Arr(s) =>
      RebuildItemsNothing(s, |s|);
      assert s[..|s|] == s;
    case _ =>
  }

  lemma {:induction false} RebuildItemsNothing(s: seq<Value>, n: nat)
    requires n <= |s|
    ensures RebuildItems(s, [], n) == s[..n]
    decreases Arr(s), 0, n
  {
    if n > 0 {
      RebuildItemsNothing(s, n - 1);
      RebuildNothing(s[n - 1]);
      assert s[..n] == s[..n - 1] + [s[n - 1]];
    }
  }

  lemma SwappedPrefixed(p: Path, entries: seq<Entry>)
    ensures Swapped(Prefixed(p, entries)) == Prefixed(p, Swapped(entries))
  {
  }

  lemma SwappedAppend(a: seq<Entry>, b: seq<Entry>)
    ensures Swapped(a + b) == Swapped(a) + Swapped(b)
  {
  }

  lemma {:induction false} SwapExchangesSides(a: Value, b: Value)
    ensures Diff(b, a) == Swapped(Diff(a, b))
    decreases a, 1
  {
    if a.Obj? && b.Obj? {
      assert a.fields.Keys + b.fields.Keys == b.fields.Keys + a.fields.Keys;
      SwapFields(a.fields, b.fields, SortedKeys(a.fields.Keys + b.fields.Keys));
    } else if a.Arr? && b.Arr? {
      SwapItems(a.items, b.items, Max(|a.items|, |b.items|));
    }
  }

  lemma {:induction false} SwapFields(a: Fields, b: Fields, keys: seq<string>)
    ensures FieldDiffs(b, a, keys) == Swapped(FieldDiffs(a, b, keys))
    decreases Obj(a), 0, |keys|
  {
    if keys != [] {
      var front, last := keys[..|keys| - 1], keys[|keys| - 1];
      SwapFields(a, b, front);
      if last in a && last in b {
        SwapExchangesSides(a[last], b[last]);
      }
      assert FieldDiff(b, a, last) == Swapped(FieldDiff(a, b, last));
      SwappedPrefixed([Key(last)], FieldDiff(a, b, last));
      SwappedAppend(FieldDiffs(a, b, front), Prefixed([Key(last)], FieldDiff(a, b, last)));
    }
  }

  lemma {:induction false} SwapItems(a: seq<Value>, b: seq<Value>, n: nat)
    ensures ItemDiffs(b, a, n) == Swapped(ItemDiffs(a, b, n))
    decreases Arr(a), 0, n
  {
    if n > 0 {
      SwapItems(a, b, n - 1);
      if n - 1 < |a| && n - 1 < |b| {
        SwapExchangesSides(a[n - 1], b[n - 1]);
      }
      assert ItemDiff(b, a, n - 1) == Swapped(ItemDiff(a, b, n - 1));
      SwappedPrefixed([Index(n - 1)], ItemDiff(a, b, n - 1));
      SwappedAppend(ItemDiffs(a, b, n - 1), Prefixed([Index(n - 1)], ItemDiff(a, b, n - 1)));
    }
  }

  lemma PrefixFreePrefixed(s: Step, entries: seq<Entry>)
    requires PrefixFree(entries)
    ensures PrefixFree(Prefixed([s], entries))
  {
    forall i, j | 0 <= i < |entries| && 0 <= j < |entries| && i != j
      ensures !([s] + entries[i].path <= [s] + entries[j].path)
    {
      PrefixCancels(s, entries[i].path, entries[j].path);
    }
  }

  lemma PrefixCancels(s: Step, p: Path, q: Path)
    ensures [s] + p <= [s] + q ==> p <= q
  {
    if [s] + p <= [s] + q {
      assert p == ([s] + p)[1..] == ([s] + q)[1..|p| + 1] == q[..|p|];
    }
  }

  /** Two prefix-free lists whose entries start with different steps. */
  lemma PrefixFreeJoin(a: seq<Entry>, b: seq<Entry>)
    requires PrefixFree(a) && PrefixFree(b)
    requires forall x, y :: x in a && y in b ==> x.path != [] && y.path != [] && x.path[0] != y.path[0]
    ensures PrefixFree(a + b)
  {
    forall i, j | 0 <= i < |a + b| && 0 <= j < |a + b| && i != j
      ensures !((a + b)[i].path <= (a + b)[j].path)
    {
      if i < |a| && j >= |a| {
        assert a[i] in a && b[j - |a|] in b;
      } else if i >= |a| && j < |a| {
        assert a[j] in a && b[i - |a|] in b;
      }
    }
  }

  lemma {:induction false} PathsAreIndependent(a: Value, b: Value)
    ensures PrefixFree(Diff(a, b))
    decreases a, 1
  {
    if a.Obj? && b.Obj? {
      SortedKeysEnumerate(a.fields.Keys + b.fields.Keys);
      FieldPathsIndependent(a.fields, b.fields, SortedKeys(a.fields.Keys + b.fields.Keys));
    } else if a.Arr? && b.Arr? {
      ItemPathsIndependent(a.items, b.items, Max(|a.items|, |b.items|));
    }
  }

  lemma {:induction false} FieldPathsIndependent(a: Fields, b: Fields, keys: seq<string>)
    requires forall i, j :: 0 <= i < j < |keys| ==> keys[i] != keys[j]
    ensures PrefixFree(FieldDiffs(a, b, keys))
    decreases Obj(a), 0, |keys|
  {
    if keys != [] {
      var front, last := keys[..|keys| - 1], keys[|keys| - 1];
      FieldPathsIndependent(a, b, front);
      if last in a && last in b {
        PathsAreIndependent(a[last], b[last]);
      }
      PrefixFreePrefixed(Key(last), FieldDiff(a, b, last));
      FieldDiffsHeads(a, b, front);
      assert last !in front;
      PrefixFreeJoin(FieldDiffs(a, b, front), Prefixed([Key(last)], FieldDiff(a, b, last)));
    }
  }

  lemma {:induction false} ItemPathsIndependent(a: seq<Value>, b: seq<Value>, n: nat)
    ensures PrefixFree(ItemDiffs(a, b, n))
    decreases Arr(a), 0, n
  {
    if n > 0 {
      ItemPathsIndependent(a, b, n - 1);
      if n - 1 < |a| && n - 1 < |b| {
        PathsAreIndependent(a[n - 1], b[n - 1]);
      }
      PrefixFreePrefixed(Index(n - 1), ItemDiff(a, b, n - 1));
      ItemDiffsHeads(a, b, n - 1);
      PrefixFreeJoin(ItemDiffs(a, b, n - 1), Prefixed([Index(n - 1)], ItemDiff(a, b, n - 1)));
    }
  }
}
