/** When a child's text states a fixture fact: the same words, whatever the white space. */
module EvidenceText {
  import opened Options
  import opened Json
  import opened Text
  import opened Ordering
  import opened TraceGuard
  import opened RepairReferences
  import opened FreshEvidence

  // ---------- Texts as words and the white space around them ----------

  predicate Blank(s: string) {
    forall i :: 0 <= i < |s| ==> IsSpace(s[i])
  }

  predicate IsWord(w: string) {
    w != "" && forall i :: 0 <= i < |w| ==> !IsSpace(w[i])
  }

  predicate AreWords(words: seq<string>) {
    forall i :: 0 <= i < |words| ==> IsWord(words[i])
  }

  /** The words with white space before, between and after them. */
  function Spread(words: seq<string>, gaps: seq<string>): string
    requires |gaps| == |words| + 1
  {
    if words == [] then gaps[0] else gaps[0] + words[0] + Spread(words[1..], gaps[1..])
  }

  /** White space only, and some of it between any two words. */
  predicate AreGaps(gaps: seq<string>) {
    && (forall i :: 0 <= i < |gaps| ==> Blank(gaps[i]))
    && (forall i :: 0 < i < |gaps| - 1 ==> gaps[i] != "")
  }

  ghost predicate Reads(text: string, words: seq<string>) {
    AreWords(words) && exists gaps: seq<string> :: |gaps| == |words| + 1 && AreGaps(gaps) && text == Spread(words, gaps)
  }

  /** One list of words renders to both. */
  ghost predicate Agree(a: string, b: string) {
    exists words: seq<string> :: Reads(a, words) && Reads(b, words)
  }

  /** The words with one space between any two. */
  function Tight(words: seq<string>): string {
    if words == [] then "" else if |words| == 1 then words[0] else words[0] + " " + Tight(words[1..])
  }

  ghost predicate HasWord(text: string) {
    exists i :: 0 <= i < |text| && !IsSpace(text[i])
  }

  /** What follows `FACT:`, the fact id and a space in the words of the fixture's text. */
  ghost predicate Follows(factId: string, fixture: string, tail: string) {
    exists words: seq<string> :: Reads(fixture, words) && Tight(words) == "FACT:" + factId + " " + tail
  }

  /** The child's text has a word and agrees with the fixture's, with or without the fact's label. */
  ghost predicate StatesText(factId: string, child: string, fixture: string) {
    HasWord(child) && (Agree(child, fixture) || exists tail :: Follows(factId, fixture, tail) && Agree(child, tail))
  }

  // ---------- Splitting reads a text ----------

  lemma {:induction false} WordsSkipBlank(gap: string, rest: string)
    requires Blank(gap)
    ensures Words(gap + rest) == Words(rest)
  {
    if gap == "" {
      assert gap + rest == rest;
    } else {
      assert (gap + rest)[1..] == gap[1..] + rest;
      WordsSkipBlank(gap[1..], rest);
    }
  }

  lemma {:induction false} WordEndAt(w: string, rest: string)
    requires forall i :: 0 <= i < |w| ==> !IsSpace(w[i])
    requires rest == "" || IsSpace(rest[0])
    ensures WordEnd(w + rest) == |w|
  {
    if w == "" {
      assert w + rest == rest;
    } else {
      assert (w + rest)[1..] == w[1..] + rest;
      WordEndAt(w[1..], rest);
    }
  }

  lemma WordsOne(w: string, rest: string)
    requires IsWord(w) && (rest == "" || IsSpace(rest[0]))
    ensures Words(w + rest) == [w] + Words(rest)
  {
    WordEndAt(w, rest);
    assert (w + rest)[..|w|] == w && (w + rest)[|w|..] == rest;
  }

  lemma SpreadStart(words: seq<string>, gaps: seq<string>)
    requires |gaps| == |words| + 1 && AreGaps(gaps)
    requires words != [] ==> gaps[0] != ""
    ensures Spread(words, gaps) == "" || IsSpace(Spread(words, gaps)[0])
  {
  }

  lemma {:induction false} WordsOfSpread(words: seq<string>, gaps: seq<string>)
    requires AreWords(words) && |gaps| == |words| + 1 && AreGaps(gaps)
    ensures Words(Spread(words, gaps)) == words
  {
    if words == [] {
      WordsSkipBlank(gaps[0], "");
      assert gaps[0] + "" == gaps[0];
    } else {
      var rest := Spread(words[1..], gaps[1..]);
      assert AreGaps(gaps[1..]) && AreWords(words[1..]);
      WordsOfSpread(words[1..], gaps[1..]);
      SpreadStart(words[1..], gaps[1..]);
      WordsOne(words[0], rest);
      ConcatAssociates(gaps[0], words[0], rest);
      WordsSkipBlank(gaps[0], words[0] + rest);
    }
  }

  /** The gaps around the words that splitting gives. */
  predicate GapsOf(text: string, gaps: seq<string>) {
    && AreWords(Words(text)) && |gaps| == |Words(text)| + 1 && AreGaps(gaps) && text == Spread(Words(text), gaps)
    && (text != "" && IsSpace(text[0]) ==> gaps[0] != "")
  }

  lemma {:induction false} SpreadOfWords(text: string) returns (gaps: seq<string>)
    ensures GapsOf(text, gaps)
    decreases |text|
  {
    if text == "" {
      gaps := [""];
    } else if IsSpace(text[0]) {
      var inner := SpreadOfWords(text[1..]);
      gaps := [text[..1] + inner[0]] + inner[1..];
      GapsAfterSpace(text, inner);
    } else {
      var inner := SpreadOfWords(text[WordEnd(text)..]);
      gaps := [""] + inner;
      GapsAfterWord(text, inner);
    }
  }

  lemma GapsAfterSpace(text: string, inner: seq<string>)
    requires text != "" && IsSpace(text[0]) && GapsOf(text[1..], inner)
    ensures GapsOf(text, [text[..1] + inner[0]] + inner[1..])
  {
    MoreGap(Words(text[1..]), inner, text[..1]);
    assert text == text[..1] + text[1..];
  }

  lemma GapsAfterWord(text: string, inner: seq<string>)
    requires text != "" && !IsSpace(text[0]) && GapsOf(text[WordEnd(text)..], inner)
    ensures GapsOf(text, [""] + inner)
  {
    var n := WordEnd(text);
    assert n < |text| ==> text[n..][0] == text[n];
    MoreWord(Words(text[n..]), inner, text[..n]);
    assert text == text[..n] + text[n..];
  }

  lemma MoreGap(words: seq<string>, gaps: seq<string>, space: string)
    requires |gaps| == |words| + 1 && AreGaps(gaps) && Blank(space)
    ensures var more := [space + gaps[0]] + gaps[1..];
            AreGaps(more) && Spread(words, more) == space + Spread(words, gaps)
  {
    var more := [space + gaps[0]] + gaps[1..];
    if words != [] {
      assert more[1..] == gaps[1..];
      ConcatAssociates(space, gaps[0], words[0]);
      ConcatAssociates(space, gaps[0] + words[0], Spread(words[1..], gaps[1..]));
    }
  }

  lemma MoreWord(words: seq<string>, gaps: seq<string>, w: string)
    requires |gaps| == |words| + 1 && AreGaps(gaps) && (words != [] ==> gaps[0] != "")
    ensures AreGaps([""] + gaps) && Spread([w] + words, [""] + gaps) == w + Spread(words, gaps)
  {
    assert ([w] + words)[1..] == words && ([""] + gaps)[1..] == gaps;
    assert "" + w == w;
  }

  /** A text reads as one list of words: the one that splitting gives. */
  lemma ReadsIff(text: string, words: seq<string>)
    ensures Reads(text, words) <==> words == Words(text)
  {
    var gaps := SpreadOfWords(text);
    if Reads(text, words) {
      var other: seq<string> :| |other| == |words| + 1 && AreGaps(other) && text == Spread(words, other);
      WordsOfSpread(words, other);
    }
  }

  lemma AgreeIff(a: string, b: string)
    ensures Agree(a, b) <==> Words(a) == Words(b)
  {
    ReadsIff(a, Words(a));
    ReadsIff(b, Words(a));
    if Agree(a, b) {
      var words: seq<string> :| Reads(a, words) && Reads(b, words);
      ReadsIff(a, words);
      ReadsIff(b, words);
    }
  }

  // ---------- Normalised texts ----------

  lemma {:induction false} TightIsJoin(words: seq<string>)
    ensures Tight(words) == Join(words, ' ')
  {
    if |words| > 1 {
      TightIsJoin(words[1..]);
    }
  }

  lemma {:induction false} WordsOfTight(words: seq<string>)
    requires AreWords(words)
    ensures Words(Tight(words)) == words
  {
    if |words| == 1 {
      WordsOne(words[0], "");
      assert words[0] + "" == words[0];
    } else if words != [] {
      var rest := Tight(words[1..]);
      WordsOfTight(words[1..]);
      WordsOne(words[0], " " + rest);
      WordsSkipBlank(" ", rest);
      ConcatAssociates(words[0], " ", rest);
    }
  }

  lemma SplittingGivesWords(text: string)
    ensures AreWords(Words(text))
  {
    var gaps := SpreadOfWords(text);
  }

  /** Normalising keeps the words and nothing else. */
  lemma NormalizedIs(text: string)
    ensures Normalized(text) == Tight(Words(text)) && Words(Normalized(text)) == Words(text)
    ensures Normalized(text) == "" <==> Words(text) == []
  {
    SplittingGivesWords(text);
    TightIsJoin(Words(text));
    WordsOfTight(Words(text));
  }

  lemma SameNormalizedIff(a: string, b: string)
    ensures Normalized(a) == Normalized(b) <==> Agree(a, b)
  {
    NormalizedIs(a);
    NormalizedIs(b);
    AgreeIff(a, b);
  }

  lemma {:induction false} HasWordIff(text: string)
    ensures HasWord(text) <==> Words(text) != []
  {
    if text != "" {
      if IsSpace(text[0]) {
        HasWordIff(text[1..]);
        assert forall i :: 0 < i < |text| ==> text[i] == text[1..][i - 1];
      }
    }
  }

  lemma HeadHoldsWord(words: seq<string>, head: string, tail: string)
    requires AreWords(words) && Tight(words) == head + " " + tail
    ensures |words| > 1 && |words[0]| <= |head|
  {
    var w := words[0];
    assert IsSpace(' ') && Tight(words)[|head|] == ' ';
    forall i | 0 <= i < |w| ensures !IsSpace(Tight(words)[i]) {
      assert Tight(words)[i] == w[i];
    }
  }

  /** A tail of a tight text that starts after a space is tight. */
  lemma {:induction false} TightTail(words: seq<string>, head: string, tail: string)
    requires AreWords(words) && Tight(words) == head + " " + tail
    ensures Tight(Words(tail)) == tail
  {
    HeadHoldsWord(words, head, tail);
    var n := |words[0]|;
    assert Tight(words)[n + 1..] == Tight(words[1..]);
    if |head| == n {
      assert (head + " " + tail)[n + 1..] == tail;
      WordsOfTight(words[1..]);
    } else {
      assert (head + " " + tail)[n + 1..] == head[n + 1..] + " " + tail;
      TightTail(words[1..], head[n + 1..], tail);
    }
  }

  lemma LabelledIff(factId: string, child: string, fixture: string)
    ensures (var prefix := "FACT:" + factId + " ";
             prefix <= Normalized(fixture) && Normalized(child) == Normalized(fixture)[|prefix|..])
            <==> exists tail :: Follows(factId, fixture, tail) && Agree(child, tail)
  {
    var prefix, words := "FACT:" + factId + " ", Words(fixture);
    NormalizedIs(fixture);
    NormalizedIs(child);
    SplittingGivesWords(fixture);
    ReadsIff(fixture, words);
    if prefix <= Normalized(fixture) && Normalized(child) == Normalized(fixture)[|prefix|..] {
      var tail := Normalized(fixture)[|prefix|..];
      assert Tight(words) == prefix + tail;
      AgreeIff(child, tail);
      assert Follows(factId, fixture, tail);
    }
    if tail :| Follows(factId, fixture, tail) && Agree(child, tail) {
      LabelledTail(factId, child, fixture, tail);
    }
  }

  lemma LabelledTail(factId: string, child: string, fixture: string, tail: string)
    requires Follows(factId, fixture, tail) && Agree(child, tail)
    ensures var prefix := "FACT:" + factId + " ";
            prefix <= Normalized(fixture) && Normalized(child) == Normalized(fixture)[|prefix|..]
  {
    var words: seq<string> :| Reads(fixture, words) && Tight(words) == "FACT:" + factId + " " + tail;
    ReadsIff(fixture, words);
    NormalizedIs(fixture);
    TightTail(words, "FACT:" + factId, tail);
    NormalizedIs(child);
    AgreeIff(child, tail);
  }

  /** The source's comparison of normalised texts is this statement about words. */
  lemma TextMatchesIff(factId: string, child: string, fixture: string)
    ensures TextMatches(factId, child, fixture) <==> StatesText(factId, child, fixture)
  {
    NormalizedIs(child);
    HasWordIff(child);
    SameNormalizedIff(child, fixture);
    LabelledIff(factId, child, fixture);
  }

  // ---------- The rebuilt manifest ----------

  /** The child lists an observed fact with this id, this evidence chunk and this text. */
  ghost predicate Lists(r: ChildRecord, key: HandleKey, text: string) {
    && "observed_facts" in r.output && r.output["observed_facts"].Arr?
    && exists fact :: fact in r.output["observed_facts"].items && FactSays(fact, key, text)
  }

  predicate FactSays(fact: Value, key: HandleKey, text: string) {
    && fact.Obj?
    && "fact_id" in fact.fields && fact.fields["fact_id"] == Str(key.0)
    && "evidence_chunk_id" in fact.fields && fact.fields["evidence_chunk_id"] == Str(key.1)
    && "text" in fact.fields && fact.fields["text"] == Str(text)
  }

  /** The entry is the last one of its fact and chunk in the fixture. */
  ghost predicate LastOfKey(fixture: seq<Evidence>, e: Evidence) {
    exists i :: 0 <= i < |fixture| && fixture[i] == e
      && forall j :: i < j < |fixture| ==> (fixture[j].factId, fixture[j].chunkId) != (e.factId, e.chunkId)
  }

  /** The child states the fixture's text for this fact and chunk. */
  ghost predicate StatesEntry(r: ChildRecord, d: Evidence) {
    exists text :: Lists(r, (d.factId, d.chunkId), text) && StatesText(d.factId, text, d.text)
  }

  lemma {:induction false} ByKeyIsLast(fixture: seq<Evidence>, e: Evidence)
    ensures KeyOf(e) in ByKey(fixture) && ByKey(fixture)[KeyOf(e)] == e <==> LastOfKey(fixture, e)
  {
    if fixture != [] {
      var n := |fixture| - 1;
      var front, last := fixture[..n], fixture[n];
      ByKeyIsLast(front, e);
      if last == e {
        assert LastOfKey(fixture, e);
      } else if KeyOf(last) != KeyOf(e) {
        LastOfFront(fixture, e);
      }
    }
  }

  lemma LastOfFront(fixture: seq<Evidence>, e: Evidence)
    requires fixture != [] && KeyOf(fixture[|fixture| - 1]) != KeyOf(e)
    ensures LastOfKey(fixture, e) <==> LastOfKey(fixture[..|fixture| - 1], e)
  {
    var front := fixture[..|fixture| - 1];
    if LastOfKey(front, e) {
      var i :| 0 <= i < |front| && front[i] == e
        && forall j :: i < j < |front| ==> (front[j].factId, front[j].chunkId) != (e.factId, e.chunkId);
      assert fixture[i] == e;
    }
    if LastOfKey(fixture, e) {
      var i :| 0 <= i < |fixture| && fixture[i] == e
        && forall j :: i < j < |fixture| ==> (fixture[j].factId, fixture[j].chunkId) != (e.factId, e.chunkId);
      assert front[i] == e;
    }
  }

  /** A fact shows a key exactly when it says so and states the text of the key's last fixture entry. */
  lemma ShowsIff(fact: Value, d: Evidence, fixture: seq<Evidence>)
    requires LastOfKey(fixture, d)
    ensures Shows(fact, KeyOf(d), ByKey(fixture))
            <==> exists text :: FactSays(fact, (d.factId, d.chunkId), text) && StatesText(d.factId, text, d.text)
  {
    ByKeyIsLast(fixture, d);
    if Stated(fact).Some? {
      TextMatchesIff(d.factId, Stated(fact).value.1, d.text);
      assert FactSays(fact, Stated(fact).value.0, Stated(fact).value.1);
    }
    forall text | FactSays(fact, (d.factId, d.chunkId), text) ensures Stated(fact) == Some((KeyOf(d), text)) {
    }
  }

  lemma ShowingRecordStates(r: ChildRecord, fact: Value, d: Evidence, fixture: seq<Evidence>)
    requires LastOfKey(fixture, d) && fact in ObservedFacts(r) && Shows(fact, KeyOf(d), ByKey(fixture))
    ensures StatesEntry(r, d)
  {
    var key := (d.factId, d.chunkId);
    ShowsIff(fact, d, fixture);
    var text :| FactSays(fact, key, text) && StatesText(d.factId, text, d.text);
    assert Lists(r, key, text);
  }

  lemma StatingRecordShows(r: ChildRecord, d: Evidence, fixture: seq<Evidence>) returns (fact: Value)
    requires LastOfKey(fixture, d) && StatesEntry(r, d)
    ensures fact in ObservedFacts(r) && Shows(fact, KeyOf(d), ByKey(fixture))
  {
    var text :| Lists(r, (d.factId, d.chunkId), text) && StatesText(d.factId, text, d.text);
    fact :| fact in r.output["observed_facts"].items && FactSays(fact, (d.factId, d.chunkId), text);
    ShowsIff(fact, d, fixture);
  }

  lemma ShowingRecordIff(r: ChildRecord, d: Evidence, fixture: seq<Evidence>)
    requires LastOfKey(fixture, d)
    ensures ShownBy(r, KeyOf(d), ByKey(fixture)) <==> StatesEntry(r, d)
  {
    if fact :| fact in ObservedFacts(r) && Shows(fact, KeyOf(d), ByKey(fixture)) {
      ShowingRecordStates(r, fact, d, fixture);
    }
    if StatesEntry(r, d) {
      var fact := StatingRecordShows(r, d, fixture);
    }
  }

  /** The record with this index is the first that shows the entry's key, and its call is the entry's. */
  ghost predicate FirstShownAt(e: Evidence, records: seq<ChildRecord>, allowed: map<HandleKey, Evidence>, i: nat) {
    && i < |records| && e.childCallId == Some(records[i].callId) && ShownBy(records[i], KeyOf(e), allowed)
    && forall j :: 0 <= j < i ==> !ShownBy(records[j], KeyOf(e), allowed)
  }

  ghost predicate ShownBy(r: ChildRecord, key: HandleKey, allowed: map<HandleKey, Evidence>) {
    exists fact :: fact in ObservedFacts(r) && Shows(fact, key, allowed)
  }

  lemma {:induction false} NewFromRecord(evidence: seq<Evidence>, facts: seq<Value>, record: ChildRecord,
                                         allowed: map<HandleKey, Evidence>, e: Evidence)
    requires e in ObserveFacts(evidence, facts, record, allowed)
    ensures e in evidence || (KeyOf(e) !in Keys(evidence) && e.childCallId == Some(record.callId)
                              && exists fact :: fact in facts && Shows(fact, KeyOf(e), allowed))
  {
    if facts != [] {
      var front, last := facts[..|facts| - 1], facts[|facts| - 1];
      var before := ObserveFacts(evidence, front, record, allowed);
      if e in before {
        NewFromRecord(evidence, front, record, allowed, e);
      } else {
        assert Shows(last, KeyOf(e), allowed);
        KeysOnlyGrow(evidence, front, record, allowed);
      }
    }
  }

  lemma {:induction false} KeysOnlyGrow(evidence: seq<Evidence>, facts: seq<Value>, record: ChildRecord,
                                        allowed: map<HandleKey, Evidence>)
    ensures Keys(evidence) <= Keys(ObserveFacts(evidence, facts, record, allowed))
  {
    if facts != [] {
      KeysOnlyGrow(evidence, facts[..|facts| - 1], record, allowed);
    }
  }

  lemma NotShownBefore(records: seq<ChildRecord>, allowed: map<HandleKey, Evidence>, key: HandleKey, j: nat)
    requires key !in Keys(ObserveRecords(records, allowed)) && j < |records|
    ensures !ShownBy(records[j], key, allowed)
  {
    ObserveRecordsExact(records, allowed);
    assert records[j] in records;
    assert !Observed(records, key, allowed);
  }

  lemma {:induction false} EntriesFirstShown(records: seq<ChildRecord>, allowed: map<HandleKey, Evidence>, e: Evidence)
    returns (i: nat)
    requires e in ObserveRecords(records, allowed)
    ensures FirstShownAt(e, records, allowed, i)
  {
    var n := |records| - 1;
    var front, last := records[..n], records[n];
    var before := ObserveRecords(front, allowed);
    NewFromRecord(before, ObservedFacts(last), last, allowed, e);
    if e in before {
      i := EntriesFirstShown(front, allowed, e);
      assert forall j :: 0 <= j <= i ==> records[j] == front[j];
    } else {
      i := n;
      forall j | 0 <= j < n ensures !ShownBy(records[j], KeyOf(e), allowed) {
        NotShownBefore(front, allowed, KeyOf(e), j);
      }
    }
  }

  /** The first child that states the entry, by its call. */
  ghost predicate FirstToState(records: seq<ChildRecord>, d: Evidence, call: Option<string>) {
    exists i :: 0 <= i < |records| && StatesEntry(records[i], d) && call == Some(records[i].callId)
      && forall j :: 0 <= j < i ==> !StatesEntry(records[j], d)
  }

  /**
    * An entry of the rebuilt manifest is the last fixture entry of its fact and chunk, with the call of the first
    * child that lists that fact under that chunk in the fixture's words.
    */
  lemma ManifestEntryMeans(fixture: seq<Evidence>, records: seq<ChildRecord>, e: Evidence)
    requires e in FreshManifest(fixture, records)
    ensures exists d :: LastOfKey(fixture, d) && e == d.(childCallId := e.childCallId) && FirstToState(records, d, e.childCallId)
  {
    var allowed := ByKey(fixture);
    FreshManifestExact(fixture, records);
    SortedMembers(ObserveRecords(records, allowed), EvidenceLeq, e);
    var i := EntriesFirstShown(records, allowed, e);
    var d := allowed[KeyOf(e)];
    ByKeyIsLast(fixture, d);
    forall j | 0 <= j <= i ensures StatesEntry(records[j], d) <==> ShownBy(records[j], KeyOf(e), allowed) {
      ShowingRecordIff(records[j], d, fixture);
    }
    assert FirstToState(records, d, e.childCallId);
  }

  /** Conversely every last fixture entry that some child states is there. */
  lemma StatedEntryIsThere(fixture: seq<Evidence>, records: seq<ChildRecord>, d: Evidence)
    requires LastOfKey(fixture, d)
    ensures (exists r :: r in records && StatesEntry(r, d))
            <==> exists e :: e in FreshManifest(fixture, records) && KeyOf(e) == KeyOf(d)
  {
    FreshManifestExact(fixture, records);
    ByKeyIsLast(fixture, d);
    if r :| r in records && StatesEntry(r, d) {
      ShowingRecordIff(r, d, fixture);
      assert Observed(records, KeyOf(d), ByKey(fixture));
      assert KeyOf(d) in Keys(FreshManifest(fixture, records));
    }
    if e :| e in FreshManifest(fixture, records) && KeyOf(e) == KeyOf(d) {
      assert KeyOf(e) in Keys(FreshManifest(fixture, records));
      var r, fact :| r in records && fact in ObservedFacts(r) && Shows(fact, KeyOf(d), ByKey(fixture));
      ShowingRecordIff(r, d, fixture);
    }
  }
}
