/** Who says what in a request: the rounds of the session, as far as the budget reaches. */
module InterviewTranscript {
  import opened Options
  import opened Text
  import opened Interview
  import opened InterviewPrompt

  /** The user's answer, cut after 800 characters. */
  predicate Answers(m: Message, answer: string) {
    m.role == User && m.content == if |answer| <= 800 then answer else answer[..800] + "..."
  }

  /** How many messages a round takes. */
  function Count(r: Round): nat {
    if r.question == SUMMARY_QUESTION then 0 else if r.response == None || r.response == Some("") then 1 else 2
  }

  /** The assistant's question, then the user's answer if there is one; nothing of a round that asked for the summary. */
  predicate TellsRound(told: seq<Message>, r: Round) {
    && |told| == Count(r)
    && (Count(r) >= 1 ==> told[0] == Message(Assistant, r.question))
    && (Count(r) == 2 ==> Answers(told[1], r.response.value))
  }

  /** The messages tell the rounds, in order and nothing else. */
  predicate Transcript(messages: seq<Message>, rounds: seq<Round>)
    decreases |rounds|
  {
    if rounds == [] then messages == []
    else
      var r := rounds[|rounds| - 1];
      var n := |messages| - Count(r);
      n >= 0 && TellsRound(messages[n..], r) && Transcript(messages[..n], rounds[..|rounds| - 1])
  }

  lemma RoundIsTold(r: Round)
    ensures TellsRound(RoundMessages(r), r)
  {
  }

  lemma OneTelling(a: seq<Message>, b: seq<Message>, r: Round)
    requires TellsRound(a, r) && TellsRound(b, r)
    ensures a == b
  {
  }

  lemma TellOneMore(told: seq<Message>, more: seq<Message>, rounds: seq<Round>)
    requires rounds != [] && Transcript(told, rounds[..|rounds| - 1]) && TellsRound(more, rounds[|rounds| - 1])
    ensures Transcript(told + more, rounds)
  {
    SplitBack(told, more);
    Unfolded(told + more, rounds, told, more);
  }

  lemma SplitBack<T>(a: seq<T>, b: seq<T>)
    ensures (a + b)[..|a + b| - |b|] == a && (a + b)[|a + b| - |b|..] == b
  {
  }

  lemma Unfolded(all: seq<Message>, rounds: seq<Round>, told: seq<Message>, more: seq<Message>)
    requires rounds != [] && |all| >= Count(rounds[|rounds| - 1]) == |more|
    requires all[..|all| - |more|] == told && all[|all| - |more|..] == more
    requires Transcript(told, rounds[..|rounds| - 1]) && TellsRound(more, rounds[|rounds| - 1])
    ensures Transcript(all, rounds)
  {
  }

  lemma {:induction false} RoundsAreTold(rounds: seq<Round>)
    ensures Transcript(RoundsMessages(rounds), rounds)
  {
    if rounds != [] {
      var earlier, r := rounds[..|rounds| - 1], rounds[|rounds| - 1];
      RoundsAreTold(earlier);
      RoundIsTold(r);
      TellOneMore(RoundsMessages(earlier), RoundMessages(r), rounds);
    }
  }

  /** The rounds determine what is told. */
  lemma {:induction false} TranscriptIsUnique(a: seq<Message>, b: seq<Message>, rounds: seq<Round>)
    requires Transcript(a, rounds) && Transcript(b, rounds)
    ensures a == b
    decreases |rounds|
  {
    if rounds != [] {
      var r := rounds[|rounds| - 1];
      var m, n := |a| - Count(r), |b| - Count(r);
      TranscriptIsUnique(a[..m], b[..n], rounds[..|rounds| - 1]);
      OneTelling(a[m..], b[n..], r);
      assert a == a[..m] + a[m..] && b == b[..n] + b[n..];
    }
  }

  /** The end of a message list, its first message possibly cut at the front. */
  predicate EndOf(kept: seq<Message>, all: seq<Message>) {
    && |kept| <= |all|
    && (forall i :: 0 < i < |kept| ==> kept[i] == all[|all| - |kept| + i])
    && (kept != [] ==> IsEndOf(kept[0], all[|all| - |kept|]))
  }

  /** What follows the system prompt and the part of the initial context that did not fit it. */
  function AfterContext(messages: seq<Message>, context: string): seq<Message> {
    var k := if |context| > 1800 then 2 else 1;
    if |messages| >= k then messages[k..] else []
  }

  /** How many characters of rounds fit: 3600 less the overflowing context. */
  function Room(context: string): int {
    3600 - if |context| > 1800 then |OVERFLOW_HEADING| + |context| - 1800 else 0
  }

  lemma {:induction false} KeptTotal(messages: seq<Message>, n: nat)
    ensures Total(KeepLast(messages, n)) == Min(n, Total(messages))
  {
    KeepLastIsSuffix(messages, n);
    TotalIsSpeech(messages);
    TotalIsSpeech(KeepLast(messages, n));
  }

  lemma TrimmedAfterFront(front: seq<Message>, rest: seq<Message>, maxChars: nat)
    requires Total(front) < maxChars
    ensures Trimmed(front + rest, maxChars, |front|)
         == front + if Total(rest) <= maxChars - Total(front) then rest else KeepLast(rest, maxChars - Total(front))
  {
    FrontAndBack(front, rest);
    SpeechesAppend(front, rest);
  }

  lemma KeptIsEnd(rest: seq<Message>, room: nat)
    ensures var kept := if Total(rest) <= room then rest else KeepLast(rest, room);
            EndOf(kept, rest) && Total(kept) == Min(room, Total(rest))
  {
    if Total(rest) > room {
      KeepLastKeepsMessages(rest, room);
      KeptTotal(rest, room);
    }
  }

  lemma ContextMessages(context: string)
    requires |context| <= MAX_CONTEXT_CHARS
    ensures Total(OverflowMessages(context)) == 3600 - Room(context) < 3600
    ensures |OverflowMessages(context)| == if |context| > 1800 then 1 else 0
  {
    OverflowTotal(context);
  }

  lemma HistoryTellsRounds(rounds: seq<Round>, context: string)
    requires |context| <= MAX_CONTEXT_CHARS
    ensures var rest, told := TrimmedHistory(rounds, context)[|OverflowMessages(context)|..], RoundsMessages(rounds);
            && OverflowMessages(context) <= TrimmedHistory(rounds, context)
            && (Total(told) <= Room(context) ==> rest == told)
            && EndOf(rest, told) && Total(rest) == Min(Room(context), Total(told))
  {
    ContextMessages(context);
    TrimmedHistoryIs(rounds, context);
    TrimmedAfterFront(OverflowMessages(context), RoundsMessages(rounds), 3600);
    KeptIsEnd(RoundsMessages(rounds), Room(context));
  }

  /**
    * Every request is a system prompt, the overflowing context as the user's, and then the rounds: all of them,
    * speaker by speaker, if they fit the room; otherwise the newest characters that fill it exactly, whole messages
    * but for a cut at the front of the oldest.
    */
  lemma RequestTellsRounds(s: Session, w: Wording, told: seq<Message>)
    requires Ask(s, w).Send? && Transcript(told, s.rounds)
    ensures var messages, context := Ask(s, w).messages, PromptSafeContext(s);
            && messages != [] && messages[0].role == System
            && (|context| > 1800 ==> |messages| > 1 && messages[1] == Message(User, OVERFLOW_HEADING + context[1800..]))
            && (Total(told) <= Room(context) ==> AfterContext(messages, context) == told)
            && EndOf(AfterContext(messages, context), told)
            && Total(AfterContext(messages, context)) == Min(Room(context), Total(told))
  {
    var context := PromptSafeContext(s);
    PromptSafeContextIsSafe(s);
    SentHistory(s, w);
    SentPrompt(s, w);
    HistoryTellsRounds(s.rounds, context);
    ContextMessages(context);
    RoundsAreTold(s.rounds);
    TranscriptIsUnique(told, RoundsMessages(s.rounds), s.rounds);
    SentAfterContext(Ask(s, w).messages, TrimmedHistory(s.rounds, context), context);
  }

  lemma SentAfterContext(messages: seq<Message>, history: seq<Message>, context: string)
    requires messages != [] && messages[1..] == history && OverflowMessages(context) <= history
    requires |OverflowMessages(context)| == if |context| > 1800 then 1 else 0
    ensures AfterContext(messages, context) == history[|OverflowMessages(context)|..]
    ensures |context| > 1800 ==> |messages| > 1 && messages[1] == Message(User, OVERFLOW_HEADING + context[1800..])
  {
    if |context| > 1800 {
      assert history[0] == OverflowMessages(context)[0] == messages[1];
    }
  }

  /** Every session has a transcript, so the theorem above speaks of every request. */
  lemma TranscriptExists(rounds: seq<Round>) returns (told: seq<Message>)
    ensures Transcript(told, rounds)
  {
    told := RoundsMessages(rounds);
    RoundsAreTold(rounds);
  }

  /** One round with an answer: the question is the assistant's, the answer the user's. */
  lemma OneRoundTold(s: Session, w: Wording, question: string, answer: string)
    requires Ask(s, w).Send? && s.rounds == [Round(1, question, Some(answer))] && question != SUMMARY_QUESTION
    requires |PromptSafeContext(s)| <= 1800 && 0 < |answer| <= 800 && |question| <= 1000
    ensures Ask(s, w).messages[1..] == [Message(Assistant, question), Message(User, answer)]
  {
    var told := [Message(Assistant, question), Message(User, answer)];
    OneRoundTranscript(told, s.rounds, question, answer);
    TwoTotal(told[0], told[1]);
    RequestTellsRounds(s, w, told);
  }

  lemma OneRoundTranscript(told: seq<Message>, rounds: seq<Round>, question: string, answer: string)
    requires rounds == [Round(1, question, Some(answer))] && question != SUMMARY_QUESTION && 0 < |answer| <= 800
    requires told == [Message(Assistant, question), Message(User, answer)]
    ensures Transcript(told, rounds)
  {
    assert told[0..] == told && told[..0] == [] && rounds[..0] == [];
    assert TellsRound(told, rounds[0]);
  }

  lemma TwoTotal(a: Message, b: Message)
    ensures Total([a, b]) == |a.content| + |b.content|
  {
    SpeechesAppend([a], [b]);
    SpeechesOne(a);
    SpeechesOne(b);
    assert [a] + [b] == [a, b];
  }

  // ---------- The system prompt ----------

  function ShownContext(context: string): string {
    if |context| <= 1800 then context else context[..1800] + CONTINUES_NOTICE
  }

  /** Header, then as much of the base prompt as the panel leaves room for, then the panel. */
  function Composed(w: Wording, context: string, limit: int): string
    requires limit >= 20
  {
    var header := w.opening + ShownContext(context) + w.closing;
    var room := limit - 20 - |header|;
    if room <= 0 then header[..limit - 20] + "\n\n\n"
    else if |w.panel| > room then header + "\n\n\n" + w.panel[..room]
    else header + "\n" + (if |w.base| <= room - |w.panel| then w.base else w.base[..room - |w.panel|]) + "\n\n" + w.panel
  }

  lemma SystemPromptIs(w: Wording, context: string, limit: int)
    requires limit >= 20
    ensures SystemPrompt(w, context, limit) == Composed(w, context, limit)
  {
    HardTruncationFires(w, context, limit);
    var header := Header(w, context);
    assert header == w.opening + ShownContext(context) + w.closing;
    ConcatAssociates(header, "\n", "\n\n");
    ConcatAssociates(header[..if |header| <= limit - 20 then |header| else limit - 20], "\n", "\n\n");
    assert "\n" + "\n\n" == "\n\n\n";
  }

  /** A request's system prompt has what 4800 characters leave beside the history, at most 3500. */
  lemma RequestSystemPrompt(s: Session, w: Wording)
    requires Ask(s, w).Send?
    ensures Ask(s, w).messages != []
    ensures var limit := Min(3500, 4800 - Total(Ask(s, w).messages[1..]));
            && limit >= 1200
            && Ask(s, w).messages[0] == Message(System, Composed(w, PromptSafeContext(s), limit))
            && |Ask(s, w).messages[0].content| <= limit
  {
    SentHistory(s, w);
    SentPrompt(s, w);
    HistoryFits(s.rounds, PromptSafeContext(s));
    SystemPromptIs(w, PromptSafeContext(s), RequestBudget(s));
    SystemPromptFits(w, PromptSafeContext(s), RequestBudget(s));
  }
}
