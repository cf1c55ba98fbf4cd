/** The string primitives the repair protocol relies on: `str(int)`, `int(str)`, `str.find` and `str.split`. */
module Text {

  const DIGITS: string := "0123456789"

  predicate IsDigit(c: char) {
    c in DIGITS
  }

  /** `str.isdecimal`, restricted to ASCII digits. */
  predicate IsDecimal(s: string) {
    |s| > 0 && forall i :: 0 <= i < |s| ==> IsDigit(s[i])
  }

  function DigitValue(c: char): (d: nat)
    requires IsDigit(c)
    ensures d < 10 && DIGITS[d] == c
  {
    c as int - '0' as int
  }

  /** `str(n)` */
  function Decimal(n: nat): (s: string)
    ensures IsDecimal(s)
  {
    if n < 10 then [DIGITS[n]] else Decimal(n / 10) + [DIGITS[n % 10]]
  }

  /** `int(s)` */
  function DecimalValue(s: string): nat
    requires IsDecimal(s)
  {
    var last := DigitValue(s[|s| - 1]);
    if |s| == 1 then last else 10 * DecimalValue(s[..|s| - 1]) + last
  }

  lemma {:induction false} DecimalRoundTrip(n: nat)
    ensures DecimalValue(Decimal(n)) == n
  {
    if n >= 10 {
      DecimalRoundTrip(n / 10);
      assert Decimal(n)[..|Decimal(n)| - 1] == Decimal(n / 10);
    }
  }

  /** Index of the first `c`, or the length when there is none (where Python's `find` answers -1). */
  function Find(s: string, c: char): (i: nat)
    ensures i <= |s|
    ensures i < |s| ==> s[i] == c
    ensures forall j :: 0 <= j < i ==> s[j] != c
  {
    if s == [] || s[0] == c then 0 else 1 + Find(s[1..], c)
  }

  lemma FindAppend(a: string, b: string, c: char)
    requires c !in a
    ensures Find(a + b, c) == |a| + Find(b, c)
  {
    if a == [] {
      assert a + b == b;
    } else {
      assert (a + b)[0] == a[0];
      assert (a + b)[1..] == a[1..] + b;
      FindAppend(a[1..], b, c);
    }
  }

  /** `s.split(c)` */
  function Split(s: string, c: char): (parts: seq<string>)
    ensures |parts| > 0
    decreases |s|
  {
    var i := Find(s, c);
    if i == |s| then [s] else [s[..i]] + Split(s[i + 1..], c)
  }

  /** `c.join(parts)` */
  function Join(parts: seq<string>, c: char): string {
    if parts == [] then "" else if |parts| == 1 then parts[0] else parts[0] + [c] + Join(parts[1..], c)
  }

  lemma {:induction false} SplitJoin(parts: seq<string>, c: char)
    requires |parts| > 0
    requires forall i :: 0 <= i < |parts| ==> c !in parts[i]
    ensures Split(Join(parts, c), c) == parts
  {
    if |parts| == 1 {
      FindAppend(parts[0], "", c);
      assert parts[0] + "" == parts[0];
    } else {
      var rest := Join(parts[1..], c);
      assert Join(parts, c) == parts[0] + ([c] + rest);
      FindAppend(parts[0], [c] + rest, c);
      assert Join(parts, c)[|parts[0]| + 1..] == rest;
      SplitJoin(parts[1..], c);
    }
  }

  lemma ConcatAssociates<T>(a: seq<T>, b: seq<T>, c: seq<T>)
    ensures a + b + c == a + (b + c)
  {
  }

  /** `dict.fromkeys(s)`: first occurrences, in order. */
  function Dedup<T(==,!new)>(s: seq<T>): (r: seq<T>)
    ensures forall x :: x in r <==> x in s
    ensures forall i, j :: 0 <= i < j < |r| ==> r[i] != r[j]
  {
    if s == [] then [] else
      var r := Dedup(s[..|s| - 1]);
      if s[|s| - 1] in r then r else r + [s[|s| - 1]]
  }

  lemma DedupOne(s: seq<string>)
    requires |s| <= 1
    ensures Dedup(s) == s
  {
    if s != [] {
      assert s[..0] == [];
    }
  }

  /** `str.isspace` for one character. */
  predicate IsSpace(c: char) {
    var n := c as int;
    9 <= n <= 13 || 28 <= n <= 32 || n == 0x85 || n == 0xA0 || n == 0x1680 || 0x2000 <= n <= 0x200A
    || n == 0x2028 || n == 0x2029 || n == 0x202F || n == 0x205F || n == 0x3000
  }

  /** Decimal notation: the last digit counts ones, and what is before it is the tenfold. */
  lemma DecimalMeans(n: nat)
    ensures n < 10 ==> Decimal(n) == [('0' as int + n) as char]
    ensures n >= 10 ==> Decimal(n) == Decimal(n / 10) + [('0' as int + n % 10) as char]
  {
    assert forall d: nat :: d < 10 ==> DIGITS[d] == ('0' as int + d) as char;
  }

  /** Among ASCII characters, white space is tab to carriage return, the four separators, and the space. */
  lemma AsciiSpace(c: char)
    requires c as int < 128
    ensures IsSpace(c) <==> c == '\t' || c == '\n' || c as int == 11 || c as int == 12 || c == '\r'
                            || 28 <= c as int <= 31 || c == ' '
  {
  }

  /** `positions` are, in order, where the entries of `r` first occur in `s`. */
  ghost predicate FirstAt<T(!new)>(s: seq<T>, r: seq<T>, positions: seq<nat>) {
    && |positions| == |r|
    && (forall i, j :: 0 <= i < j < |positions| ==> positions[i] < positions[j])
    && (forall i :: 0 <= i < |positions| ==> positions[i] < |s| && r[i] == s[positions[i]])
    && (forall i, k :: 0 <= i < |positions| && 0 <= k < positions[i] ==> s[k] != s[positions[i]])
  }

  /** The entries kept are the first occurrences, in order. */
  lemma {:induction false} FirstOccurrences<T(!new)>(s: seq<T>) returns (positions: seq<nat>)
    ensures FirstAt(s, Dedup(s), positions)
  {
    if s == [] {
      positions := [];
    } else {
      var n := |s| - 1;
      positions := FirstOccurrences(s[..n]);
      FirstAtLonger(s, Dedup(s[..n]), positions);
      if s[n] !in Dedup(s[..n]) {
        assert forall k :: 0 <= k < n ==> s[..n][k] in s[..n];
        FirstAtNew(s, Dedup(s[..n]), positions);
        positions := positions + [n];
      }
    }
  }

  lemma FirstAtLonger<T(!new)>(s: seq<T>, r: seq<T>, positions: seq<nat>)
    requires s != [] && FirstAt(s[..|s| - 1], r, positions)
    ensures FirstAt(s, r, positions)
  {
  }

  lemma FirstAtNew<T(!new)>(s: seq<T>, r: seq<T>, positions: seq<nat>)
    requires s != [] && FirstAt(s, r, positions)
    requires forall k :: 0 <= k < |s| - 1 ==> s[k] != s[|s| - 1]
    requires forall i :: 0 <= i < |positions| ==> positions[i] < |s| - 1
    ensures FirstAt(s, r + [s[|s| - 1]], positions + [|s| - 1])
  {
  }
}
