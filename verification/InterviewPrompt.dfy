/** What is sent for the next question: a system prompt and a history that share one character budget. */
module InterviewPrompt {
  import opened Options
  import opened Text
  import opened Interview

  const MAX_TOTAL_CHARS := 4800
  const MAX_SYSTEM_CHARS := 3500
  const MIN_SYSTEM_CHARS := 1200
  const MAX_SYSTEM_CONTEXT_CHARS := 1800
  const MAX_HISTORY_RESPONSE_CHARS := 800
  const OVERHEAD := 20
  const CONTINUES_NOTICE: string := "\n\n[Initial context continues in the first user message.]"
  const OVERFLOW_HEADING: string := "Additional initial context omitted from the system prompt:\n"

  datatype Role = System | User | Assistant

  datatype Message = Message(role: Role, content: string)

  function Total(messages: seq<Message>): (n: nat) {
    if messages == [] then 0 else Total(messages[..|messages| - 1]) + |messages[|messages| - 1].content|
  }

  /** One character together with who says it. */
  datatype Said = Said(role: Role, c: char)

  function Speech(m: Message): (r: seq<Said>)
    ensures |r| == |m.content|
  {
    seq(|m.content|, i requires 0 <= i < |m.content| => Said(m.role, m.content[i]))
  }

  /** Everything said, in order, regardless of where messages begin and end. */
  function Speeches(messages: seq<Message>): (r: seq<Said>) {
    if messages == [] then [] else Speeches(messages[..|messages| - 1]) + Speech(messages[|messages| - 1])
  }

  function Min(a: int, b: int): int {
    if a <= b then a else b
  }

  /** The first `n` of them; none when `n` is negative. */
  function Oldest(all: seq<Said>, n: int): seq<Said> {
    if n <= 0 then [] else all[..Min(n, |all|)]
  }

  /** The last `n` of them; none when `n` is negative. */
  function Newest(all: seq<Said>, n: int): seq<Said> {
    if n <= 0 then [] else all[|all| - Min(n, |all|)..]
  }

  // ---------- Trimming ----------

  /** The front of a message list, its last message cut to fit `n` characters. */
  function KeepFirst(messages: seq<Message>, n: int): seq<Message>
    decreases |messages|
  {
    if messages == [] || n <= 0 then []
    else
      var m := messages[0];
      if |m.content| <= n then [m] + KeepFirst(messages[1..], n - |m.content|) else [Message(m.role, m.content[..n])]
  }

  /** The end of a message list, its first message cut to fit `n` characters. */
  function KeepLast(messages: seq<Message>, n: int): seq<Message>
    decreases |messages|
  {
    if messages == [] || n <= 0 then []
    else
      var m := messages[|messages| - 1];
      if |m.content| <= n then KeepLast(messages[..|messages| - 1], n - |m.content|) + [m]
      else [Message(m.role, m.content[|m.content| - n..])]
  }

  function Front(messages: seq<Message>, preserve: nat): seq<Message> {
    messages[..Min(preserve, |messages|)]
  }

  function Back(messages: seq<Message>, preserve: nat): seq<Message> {
    messages[Min(preserve, |messages|)..]
  }

  function Trimmed(messages: seq<Message>, maxChars: int, preserve: nat): seq<Message> {
    var prefix := Front(messages, preserve);
    if Total(messages) <= maxChars then messages
    else if Total(prefix) >= maxChars then KeepFirst(prefix, maxChars)
    else prefix + KeepLast(Back(messages, preserve), maxChars - Total(prefix))
  }

  method TrimMessagesToBudget(messages: seq<Message>, maxChars: int, preserve: nat) returns (kept: seq<Message>)
    ensures kept == Trimmed(messages, maxChars, preserve)
  {
    if Total(messages) <= maxChars {
      return messages;
    }
    var prefix, remaining := Front(messages, preserve), Back(messages, preserve);
    var prefixChars := Total(prefix);
    if prefixChars >= maxChars {
      kept := KeepWithinPrefix(prefix, maxChars);
      return;
    }
    var retained := KeepWithinSuffix(remaining, maxChars - prefixChars);
    return prefix + retained;
  }

  method KeepWithinSuffix(remaining: seq<Message>, maxChars: int) returns (retained: seq<Message>)
    ensures retained == KeepLast(remaining, maxChars)
  {
    var used, i := 0, |remaining|;
    retained := [];
    assert remaining[..i] == remaining;
    while i > 0
      invariant 0 <= i <= |remaining|
      invariant KeepLast(remaining[..i], maxChars - used) + retained == KeepLast(remaining, maxChars)
    {
      var m, room := remaining[i - 1], maxChars - used;
      assert remaining[..i][..i - 1] == remaining[..i - 1];
      if room <= 0 {
        break;
      }
      if |m.content| > room {
        retained := [Message(m.role, m.content[|m.content| - room..])] + retained;
        return;
      }
      ConcatAssociates(KeepLast(remaining[..i - 1], room - |m.content|), [m], retained);
      retained := [m] + retained;
      used := used + |m.content|;
      i := i - 1;
    }
  }

  method KeepWithinPrefix(prefix: seq<Message>, maxChars: int) returns (kept: seq<Message>)
    ensures kept == KeepFirst(prefix, maxChars)
  {
    var used, i := 0, 0;
    kept := [];
    while i < |prefix|
      invariant 0 <= i <= |prefix|
      invariant kept + KeepFirst(prefix[i..], maxChars - used) == KeepFirst(prefix, maxChars)
    {
      var m, room := prefix[i], maxChars - used;
      assert prefix[i..][1..] == prefix[i + 1..];
      if room <= 0 {
        break;
      }
      if |m.content| > room {
        kept := kept + [Message(m.role, m.content[..room])];
        return;
      }
      ConcatAssociates(kept, [m], KeepFirst(prefix[i + 1..], room - |m.content|));
      kept := kept + [m];
      used := used + |m.content|;
      i := i + 1;
    }
  }

  lemma {:induction false} TotalIsSpeech(messages: seq<Message>)
    ensures Total(messages) == |Speeches(messages)|
  {
    if messages != [] {
      TotalIsSpeech(messages[..|messages| - 1]);
    }
  }

  lemma {:induction false} SpeechesAppend(a: seq<Message>, b: seq<Message>)
    ensures Speeches(a + b) == Speeches(a) + Speeches(b)
    ensures Total(a + b) == Total(a) + Total(b)
  {
    if b == [] {
      assert a + b == a;
    } else {
      var last := |b| - 1;
      assert (a + b)[..|a + b| - 1] == a + b[..last];
      SpeechesAppend(a, b[..last]);
      ConcatAssociates(Speeches(a), Speeches(b[..last]), Speech(b[last]));
    }
  }

  lemma SpeechesOne(m: Message)
    ensures Speeches([m]) == Speech(m) && Total([m]) == |m.content|
  {
    assert [m][..0] == [];
  }

  lemma SpeechesSnoc(a: seq<Message>, m: Message)
    ensures Speeches(a + [m]) == Speeches(a) + Speech(m)
  {
    SpeechesAppend(a, [m]);
    SpeechesOne(m);
  }

  lemma OldestAndNewest(a: seq<Said>, b: seq<Said>, n: int)
    ensures n >= |b| ==> Newest(a + b, n) == Newest(a, n - |b|) + b
    ensures n <= |b| ==> Newest(a + b, n) == Newest(b, n)
    ensures n >= |a| ==> Oldest(a + b, n) == a + Oldest(b, n - |a|)
    ensures n <= |a| ==> Oldest(a + b, n) == Oldest(a, n)
  {
  }

  lemma SpeechOfPart(m: Message, n: nat)
    requires 0 < n <= |m.content|
    ensures Speeches([Message(m.role, m.content[..n])]) == Oldest(Speech(m), n)
    ensures Speeches([Message(m.role, m.content[|m.content| - n..])]) == Newest(Speech(m), n)
  {
    SpeechesOne(Message(m.role, m.content[..n]));
    SpeechesOne(Message(m.role, m.content[|m.content| - n..]));
  }

  /** Trimming from the front of a list keeps its last `n` characters with their roles. */
  lemma {:induction false} KeepLastIsSuffix(messages: seq<Message>, n: int)
    ensures Speeches(KeepLast(messages, n)) == Newest(Speeches(messages), n)
    decreases |messages|
  {
    if messages != [] && n > 0 {
      var front, m := messages[..|messages| - 1], messages[|messages| - 1];
      OldestAndNewest(Speeches(front), Speech(m), n);
      if |m.content| <= n {
        KeepLastIsSuffix(front, n - |m.content|);
        SpeechesSnoc(KeepLast(front, n - |m.content|), m);
      } else {
        SpeechOfPart(m, n);
      }
    }
  }

  /** Trimming from the end of a list keeps its first `n` characters with their roles. */
  lemma {:induction false} KeepFirstIsPrefix(messages: seq<Message>, n: int)
    ensures Speeches(KeepFirst(messages, n)) == Oldest(Speeches(messages), n)
    decreases |messages|
  {
    if messages != [] && n > 0 {
      var m, back := messages[0], messages[1..];
      SpeechesCons(m, back);
      assert messages == [m] + back;
      OldestAndNewest(Speech(m), Speeches(back), n);
      if |m.content| <= n {
        KeepFirstIsPrefix(back, n - |m.content|);
        SpeechesCons(m, KeepFirst(back, n - |m.content|));
      } else {
        SpeechOfPart(m, n);
      }
    }
  }

  lemma SpeechesCons(m: Message, rest: seq<Message>)
    ensures Speeches([m] + rest) == Speech(m) + Speeches(rest)
  {
    SpeechesAppend([m], rest);
    SpeechesOne(m);
  }

  /** All retained messages but the oldest are whole, and that one keeps its end. */
  lemma {:induction false} KeepLastKeepsMessages(messages: seq<Message>, n: int)
    ensures var kept := KeepLast(messages, n);
            && |kept| <= |messages|
            && (forall i :: 0 < i < |kept| ==> kept[i] == messages[|messages| - |kept| + i])
            && (kept != [] ==> IsEndOf(kept[0], messages[|messages| - |kept|]))
    decreases |messages|
  {
    if messages != [] && n > 0 {
      var front, m := messages[..|messages| - 1], messages[|messages| - 1];
      if |m.content| <= n {
        KeepLastKeepsMessages(front, n - |m.content|);
      }
    }
  }

  predicate IsEndOf(cut: Message, m: Message) {
    && cut.role == m.role
    && |cut.content| <= |m.content|
    && cut.content == m.content[|m.content| - |cut.content|..]
  }

  /** The trimmed list uses the budget exactly: the preserved front, then the newest characters that fit. */
  lemma TrimIsExact(messages: seq<Message>, maxChars: int, preserve: nat)
    ensures var kept, prefix := Trimmed(messages, maxChars, preserve), Front(messages, preserve);
            && Total(kept) == (if Total(messages) <= maxChars then Total(messages) else if maxChars < 0 then 0 else maxChars)
            && Speeches(kept)
               == Oldest(Speeches(prefix), maxChars) + Newest(Speeches(Back(messages, preserve)), maxChars - Total(prefix))
  {
    var prefix, back := Front(messages, preserve), Back(messages, preserve);
    assert messages == prefix + back;
    SpeechesAppend(prefix, back);
    TotalIsSpeech(messages);
    TotalIsSpeech(prefix);
    TotalIsSpeech(back);
    TotalIsSpeech(Trimmed(messages, maxChars, preserve));
    KeepFirstIsPrefix(prefix, maxChars);
    KeepLastIsSuffix(back, maxChars - Total(prefix));
    SpeechesAppend(prefix, KeepLast(back, maxChars - Total(prefix)));
    EverythingFits(Speeches(prefix), maxChars);
    EverythingFits(Speeches(back), maxChars - Total(prefix));
  }

  lemma EverythingFits(all: seq<Said>, n: int)
    ensures n >= |all| ==> Oldest(all, n) == all && Newest(all, n) == all
    ensures n <= 0 ==> Oldest(all, n) == [] && Newest(all, n) == []
  {
  }

  // ---------- The system prompt ----------

  /** The fixed texts for a session: header before and after the initial context, panel, and base prompt. */
  datatype Wording = Wording(opening: string, closing: string, panel: string, base: string)

  /** Python's `s[:n]`, which counts from the end for a negative `n`. */
  function Take(s: string, n: int): (r: string) {
    if n >= 0 then s[..Min(n, |s|)] else if -n <= |s| then s[..|s| + n] else ""
  }

  function ContextInSystemPrompt(context: string): string {
    if |context| <= MAX_SYSTEM_CONTEXT_CHARS then context
    else context[..MAX_SYSTEM_CONTEXT_CHARS] + CONTINUES_NOTICE
  }

  /** Empty when the context fits the system prompt. */
  function Overflow(context: string): string {
    if |context| <= MAX_SYSTEM_CONTEXT_CHARS then ""
    else OVERFLOW_HEADING + context[MAX_SYSTEM_CONTEXT_CHARS..]
  }

  function Header(w: Wording, context: string): string {
    w.opening + ContextInSystemPrompt(context) + w.closing
  }

  /** A zero limit counts as no limit given. */
  function Limit(maxChars: int): int {
    if maxChars == 0 then MAX_SYSTEM_CHARS else maxChars
  }

  /** The prompt before its final hard truncation. */
  function FittedPrompt(w: Wording, context: string, maxChars: int): string {
    var header := Header(w, context);
    var room := Limit(maxChars) - |header| - OVERHEAD;
    if room <= 0 then Take(header, Limit(maxChars) - OVERHEAD) + "\n" + "\n\n"
    else if |w.panel| > room then header + "\n" + "\n\n" + w.panel[..room]
    else header + "\n" + Take(w.base, room - |w.panel|) + "\n\n" + w.panel
  }

  function SystemPrompt(w: Wording, context: string, maxChars: int): string {
    var prompt := FittedPrompt(w, context, maxChars);
    if |prompt| > Limit(maxChars) then Take(prompt, Limit(maxChars)) else prompt
  }

  /** Exactly when the final hard truncation has anything to cut. */
  lemma HardTruncationFires(w: Wording, context: string, maxChars: int)
    ensures |FittedPrompt(w, context, maxChars)| > Limit(maxChars)
            <==> maxChars != 0 && maxChars < OVERHEAD && (maxChars < 3 || |Header(w, context)| > OVERHEAD - 3)
  {
  }

  /** Within any limit of at least twenty characters the prompt fits, and leads with the header as far as it fits. */
  lemma SystemPromptFits(w: Wording, context: string, maxChars: int)
    requires maxChars >= OVERHEAD
    ensures var prompt, header := SystemPrompt(w, context, maxChars), Header(w, context);
            && |prompt| <= maxChars
            && (|header| + OVERHEAD <= maxChars ==> header <= prompt)
            && (|header| + OVERHEAD > maxChars ==> prompt == header[..maxChars - OVERHEAD] + "\n\n\n")
  {
    HardTruncationFires(w, context, maxChars);
  }

  /**
    * The initial context's part of the prompt arrives whole when it fits the limit together with what leads
    * up to it; otherwise the prompt is nothing but the start of that text.
    */
  lemma ContextKeptOrCut(w: Wording, context: string, maxChars: int)
    requires maxChars >= OVERHEAD
    ensures var prompt, lead := SystemPrompt(w, context, maxChars), w.opening + ContextInSystemPrompt(context);
            if |lead| + OVERHEAD <= maxChars then lead <= prompt else prompt == lead[..maxChars - OVERHEAD] + "\n\n\n"
  {
    var lead := w.opening + ContextInSystemPrompt(context);
    SystemPromptFits(w, context, maxChars);
    assert lead <= Header(w, context);
    if |lead| + OVERHEAD > maxChars {
      assert Header(w, context)[..maxChars - OVERHEAD] == lead[..maxChars - OVERHEAD];
    }
  }

  // ---------- The history ----------

  function HistoryResponse(response: string): string {
    if |response| > MAX_HISTORY_RESPONSE_CHARS then response[..MAX_HISTORY_RESPONSE_CHARS] + "..." else response
  }

  function RoundMessages(r: Round): seq<Message> {
    if r.question == SUMMARY_QUESTION then []
    else if r.response.Some? && r.response.value != "" then
      [Message(Assistant, r.question), Message(User, HistoryResponse(r.response.value))]
    else [Message(Assistant, r.question)]
  }

  function RoundsMessages(rounds: seq<Round>): seq<Message> {
    if rounds == [] then [] else RoundsMessages(rounds[..|rounds| - 1]) + RoundMessages(rounds[|rounds| - 1])
  }

  function OverflowMessages(context: string): seq<Message> {
    if Overflow(context) == "" then [] else [Message(User, Overflow(context))]
  }

  function History(rounds: seq<Round>, context: string): seq<Message> {
    OverflowMessages(context) + RoundsMessages(rounds)
  }

  method BuildConversationHistory(rounds: seq<Round>, context: string) returns (messages: seq<Message>)
    ensures messages == History(rounds, context)
  {
    messages := [];
    var overflow := Overflow(context);
    if overflow != "" {
      messages := messages + [Message(User, overflow)];
    }
    var i := 0;
    while i < |rounds|
      invariant 0 <= i <= |rounds|
      invariant messages == OverflowMessages(context) + RoundsMessages(rounds[..i])
    {
      assert rounds[..i + 1][..i] == rounds[..i];
      ConcatAssociates(OverflowMessages(context), RoundsMessages(rounds[..i]), RoundMessages(rounds[i]));
      if rounds[i].question != SUMMARY_QUESTION {
        messages := messages + [Message(Assistant, rounds[i].question)];
        if rounds[i].response.Some? && rounds[i].response.value != "" {
          messages := messages + [Message(User, HistoryResponse(rounds[i].response.value))];
        }
      }
      i := i + 1;
    }
    assert rounds[..i] == rounds;
  }

  // ---------- Asking ----------

  datatype Asked = SummaryQuestion | AlreadyComplete | Send(messages: seq<Message>)

  function TrimmedHistory(rounds: seq<Round>, context: string): seq<Message> {
    Trimmed(History(rounds, context), MAX_TOTAL_CHARS - MIN_SYSTEM_CHARS,
            if |context| > MAX_SYSTEM_CONTEXT_CHARS then 1 else 0)
  }

  function SystemBudget(history: seq<Message>): int {
    Min(MAX_SYSTEM_CHARS, MAX_TOTAL_CHARS - Total(history))
  }

  function Ask(s: Session, w: Wording): Asked {
    if s.status.Complete? then
      if NeedsSummary(s) then SummaryQuestion else AlreadyComplete
    else match EffectiveContext(s)
      case None => SummaryQuestion
      case Some(context) =>
        var history := TrimmedHistory(s.rounds, context);
        Send([Message(System, SystemPrompt(w, context, SystemBudget(history)))] + history)
  }

  method AskNextQuestion(s: Session, w: Wording) returns (asked: Asked)
    ensures asked == Ask(s, w)
  {
    if s.status.Complete? && NeedsSummary(s) {
      return SummaryQuestion;
    }
    if s.status.Complete? {
      return AlreadyComplete;
    }
    var effective := EffectiveContext(s);
    if effective.None? {
      return SummaryQuestion;
    }
    var context := effective.value;
    var history := BuildConversationHistory(s.rounds, context);
    var preserve := if |context| > MAX_SYSTEM_CONTEXT_CHARS then 1 else 0;
    history := TrimMessagesToBudget(history, MAX_TOTAL_CHARS - MIN_SYSTEM_CHARS, preserve);
    var budget := Min(MAX_SYSTEM_CHARS, MAX_TOTAL_CHARS - Total(history));
    return Send([Message(System, SystemPrompt(w, context, budget))] + history);
  }

  // ---------- Main results ----------

  lemma HistoryFits(rounds: seq<Round>, context: string)
    ensures var history := TrimmedHistory(rounds, context);
            && Total(history) <= MAX_TOTAL_CHARS - MIN_SYSTEM_CHARS
            && MIN_SYSTEM_CHARS <= SystemBudget(history) <= MAX_TOTAL_CHARS - Total(history)
  {
    TrimIsExact(History(rounds, context), MAX_TOTAL_CHARS - MIN_SYSTEM_CHARS,
                if |context| > MAX_SYSTEM_CONTEXT_CHARS then 1 else 0);
  }

  lemma TotalAfterSystem(prompt: string, history: seq<Message>)
    ensures Total([Message(System, prompt)] + history) == |prompt| + Total(history)
  {
    SpeechesAppend([Message(System, prompt)], history);
    SpeechesOne(Message(System, prompt));
  }

  /** Every request fits the total budget, and the final hard truncation never had anything to cut. */
  lemma PromptWithinBudget(s: Session, w: Wording)
    requires Ask(s, w).Send?
    ensures Total(Ask(s, w).messages) <= MAX_TOTAL_CHARS
    ensures var context, history := PromptSafeContext(s), TrimmedHistory(s.rounds, PromptSafeContext(s));
            |FittedPrompt(w, context, SystemBudget(history))| <= SystemBudget(history)
  {
    var context := PromptSafeContext(s);
    var history := TrimmedHistory(s.rounds, context);
    HistoryFits(s.rounds, context);
    HardTruncationFires(w, context, SystemBudget(history));
    SystemPromptFits(w, context, SystemBudget(history));
    TotalAfterSystem(SystemPrompt(w, context, SystemBudget(history)), history);
  }

  /** A preserved front that fits is kept whole. */
  lemma FittingFrontKept(front: seq<Message>, rest: seq<Message>, maxChars: int)
    requires Total(front) < maxChars
    ensures front <= Trimmed(front + rest, maxChars, |front|)
  {
    FrontAndBack(front, rest);
  }

  lemma FrontAndBack(front: seq<Message>, rest: seq<Message>)
    ensures Front(front + rest, |front|) == front && Back(front + rest, |front|) == rest
  {
  }

  /** After a preserved front that fits come the newest characters of the rest. */
  lemma FittingFrontSpeech(front: seq<Message>, rest: seq<Message>, maxChars: int)
    requires Total(front) < maxChars
    ensures Speeches(Trimmed(front + rest, maxChars, |front|))
         == Speeches(front) + Newest(Speeches(rest), maxChars - Total(front))
  {
    FrontAndBack(front, rest);
    TrimIsExact(front + rest, maxChars, |front|);
    TotalIsSpeech(front);
    EverythingFits(Speeches(front), maxChars);
  }

  lemma TrimmedHistoryIs(rounds: seq<Round>, context: string)
    ensures TrimmedHistory(rounds, context)
            == Trimmed(OverflowMessages(context) + RoundsMessages(rounds), MAX_TOTAL_CHARS - MIN_SYSTEM_CHARS,
                       |OverflowMessages(context)|)
  {
    OverflowTotal(context);
  }

  lemma HistoryKeepsOverflow(rounds: seq<Round>, context: string)
    requires |context| <= MAX_CONTEXT_CHARS
    ensures OverflowMessages(context) <= TrimmedHistory(rounds, context)
  {
    OverflowTotal(context);
    TrimmedHistoryIs(rounds, context);
    FittingFrontKept(OverflowMessages(context), RoundsMessages(rounds), MAX_TOTAL_CHARS - MIN_SYSTEM_CHARS);
  }

  lemma HistoryKeepsNewest(rounds: seq<Round>, context: string)
    requires |context| <= MAX_CONTEXT_CHARS
    ensures Speeches(TrimmedHistory(rounds, context))
         == Speeches(OverflowMessages(context)) + Newest(Speeches(RoundsMessages(rounds)), RoundsRoom(context))
  {
    OverflowTotal(context);
    TrimmedHistoryIs(rounds, context);
    TrimmedSpeech(TrimmedHistory(rounds, context), OverflowMessages(context), RoundsMessages(rounds), RoundsRoom(context));
  }

  lemma TrimmedSpeech(kept: seq<Message>, front: seq<Message>, rest: seq<Message>, room: int)
    requires room > 0 && room == MAX_TOTAL_CHARS - MIN_SYSTEM_CHARS - Total(front)
    requires kept == Trimmed(front + rest, MAX_TOTAL_CHARS - MIN_SYSTEM_CHARS, |front|)
    ensures Speeches(kept) == Speeches(front) + Newest(Speeches(rest), room)
  {
    FittingFrontSpeech(front, rest, MAX_TOTAL_CHARS - MIN_SYSTEM_CHARS);
  }

  /** How many characters the rounds may take. */
  function RoundsRoom(context: string): int {
    MAX_TOTAL_CHARS - MIN_SYSTEM_CHARS - |Overflow(context)|
  }

  lemma SentHistory(s: Session, w: Wording)
    requires Ask(s, w).Send?
    ensures Ask(s, w).messages != [] && Ask(s, w).messages[1..] == TrimmedHistory(s.rounds, PromptSafeContext(s))
  {
  }

  lemma SentPrompt(s: Session, w: Wording)
    requires Ask(s, w).Send?
    ensures Ask(s, w).messages != []
    ensures Ask(s, w).messages[0] == Message(System, SystemPrompt(w, PromptSafeContext(s), RequestBudget(s)))
  {
  }

  /** The budget the system prompt of a request has. */
  function RequestBudget(s: Session): (b: int) {
    SystemBudget(TrimmedHistory(s.rounds, PromptSafeContext(s)))
  }

  /**
    * The history that is sent: overflowing context whole and first, then the newest characters of the
    * rounds, as many as the budget leaves, each with its role.
    */
  lemma HistoryKeepsOverflowAndNewest(s: Session, w: Wording)
    requires Ask(s, w).Send?
    ensures var context, messages := PromptSafeContext(s), Ask(s, w).messages;
            && RoundsRoom(context) > 0 && messages != []
            && OverflowMessages(context) <= messages[1..]
            && Speeches(messages[1..])
               == Speeches(OverflowMessages(context)) + Newest(Speeches(RoundsMessages(s.rounds)), RoundsRoom(context))
  {
    var context := PromptSafeContext(s);
    PromptSafeContextIsSafe(s);
    OverflowTotal(context);
    SentHistory(s, w);
    HistoryKeepsOverflow(s.rounds, context);
    HistoryKeepsNewest(s.rounds, context);
  }

  lemma OverflowTotal(context: string)
    ensures Total(OverflowMessages(context)) == |Overflow(context)|
    ensures |OverflowMessages(context)| == if |context| > MAX_SYSTEM_CONTEXT_CHARS then 1 else 0
    ensures |context| <= MAX_CONTEXT_CHARS ==> |Overflow(context)| < MAX_TOTAL_CHARS - MIN_SYSTEM_CHARS
  {
    if Overflow(context) != "" {
      SpeechesOne(Message(User, Overflow(context)));
    }
  }

  /** Between them the system prompt's part and the overflow message hold the whole context. */
  lemma ContextSplitsLosslessly(context: string)
    ensures |context| > MAX_SYSTEM_CONTEXT_CHARS ==>
              && context[..MAX_SYSTEM_CONTEXT_CHARS] <= ContextInSystemPrompt(context)
              && OVERFLOW_HEADING <= Overflow(context)
              && context[..MAX_SYSTEM_CONTEXT_CHARS] + Overflow(context)[|OVERFLOW_HEADING|..] == context
  {
    if |context| > MAX_SYSTEM_CONTEXT_CHARS {
      assert Overflow(context)[|OVERFLOW_HEADING|..] == context[MAX_SYSTEM_CONTEXT_CHARS..];
    }
  }

  /** A session that is asked for its summary can always answer, after which the next question goes out. */
  lemma SummaryLeadsToQuestion(s: Session, w: Wording, response: string)
    requires NeedsSummary(s) && ValidResponse(response) && response != SUMMARY_REQUIRED
    ensures Ask(s, w) == SummaryQuestion
    ensures Ask(Step(s, Answer(SUMMARY_QUESTION, response)), w).Send?
  {
    ContextMissingIff(s);
    SummaryUnblocks(s, response);
  }

  // ---------- The initial context in a request ----------

  /** The part of the system prompt that ends with the initial context. */
  function Lead(w: Wording, context: string): string {
    w.opening + ContextInSystemPrompt(context)
  }

  predicate AllNewlines(s: string) {
    forall i :: 0 <= i < |s| ==> s[i] == '\n'
  }

  /** The lead fits, or all that would be cut off is what the cut puts in its place: at most three newlines. */
  predicate LeadFits(lead: string, budget: int)
    requires budget >= OVERHEAD
  {
    || |lead| + OVERHEAD <= budget
    || (|lead| + OVERHEAD - 3 <= budget && AllNewlines(lead[budget - OVERHEAD..]))
  }

  lemma CutKeepsLeadIff(lead: string, k: nat)
    requires k < |lead|
    ensures lead <= lead[..k] + "\n\n\n" <==> |lead| <= k + 3 && AllNewlines(lead[k..])
  {
    var cut := lead[..k] + "\n\n\n";
    if lead <= cut {
      forall i | 0 <= i < |lead[k..]| ensures lead[k..][i] == '\n' {
        assert lead[k + i] == cut[k + i];
      }
    }
    if |lead| <= k + 3 && AllNewlines(lead[k..]) {
      forall i | 0 <= i < |lead| ensures lead[i] == cut[i] {
        assert i >= k ==> lead[i] == lead[k..][i - k];
      }
    }
  }

  lemma PromptKeepsContextIff(w: Wording, context: string, budget: int)
    requires budget >= OVERHEAD
    ensures Lead(w, context) <= SystemPrompt(w, context, budget) <==> LeadFits(Lead(w, context), budget)
  {
    var lead := Lead(w, context);
    ContextKeptOrCut(w, context, budget);
    if |lead| + OVERHEAD > budget {
      CutKeepsLeadIff(lead, budget - OVERHEAD);
    }
  }

  /** A request's system prompt holds the initial context's part whole exactly when that part, and what leads up to it,
      fit the budget that the history leaves. */
  lemma RequestKeepsContextIff(s: Session, w: Wording)
    requires Ask(s, w).Send?
    ensures MIN_SYSTEM_CHARS <= RequestBudget(s)
    ensures Lead(w, PromptSafeContext(s)) <= Ask(s, w).messages[0].content
            <==> LeadFits(Lead(w, PromptSafeContext(s)), RequestBudget(s))
  {
    HistoryFits(s.rounds, PromptSafeContext(s));
    SentPrompt(s, w);
    PromptKeepsContextIff(w, PromptSafeContext(s), RequestBudget(s));
  }

  /** Once the rounds fill their share, the budget is the least one, and a longer initial context is cut. */
  lemma FullHistoryCutsContext(s: Session, w: Wording)
    requires Ask(s, w).Send? && |PromptSafeContext(s)| > MIN_SYSTEM_CHARS
    requires Total(History(s.rounds, PromptSafeContext(s))) >= MAX_TOTAL_CHARS - MIN_SYSTEM_CHARS
    ensures RequestBudget(s) == MIN_SYSTEM_CHARS
    ensures !(Lead(w, PromptSafeContext(s)) <= Ask(s, w).messages[0].content)
  {
    FullHistoryLeavesLeast(s);
    RequestKeepsContextIff(s, w);
    LongLeadDoesNotFit(w, PromptSafeContext(s));
  }

  lemma FullHistoryLeavesLeast(s: Session)
    requires Total(History(s.rounds, PromptSafeContext(s))) >= MAX_TOTAL_CHARS - MIN_SYSTEM_CHARS
    ensures RequestBudget(s) == MIN_SYSTEM_CHARS
  {
    var context := PromptSafeContext(s);
    TrimmedTotal(History(s.rounds, context), MAX_TOTAL_CHARS - MIN_SYSTEM_CHARS,
                 if |context| > MAX_SYSTEM_CONTEXT_CHARS then 1 else 0);
  }

  lemma TrimmedTotal(messages: seq<Message>, maxChars: nat, preserve: nat)
    ensures Total(Trimmed(messages, maxChars, preserve)) == if Total(messages) <= maxChars then Total(messages) else maxChars
  {
    TrimIsExact(messages, maxChars, preserve);
  }

  lemma LongLeadDoesNotFit(w: Wording, context: string)
    requires |context| > MIN_SYSTEM_CHARS
    ensures !LeadFits(Lead(w, context), MIN_SYSTEM_CHARS)
  {
  }

  function Repeated(c: char, n: nat): (r: string)
    ensures |r| == n
  {
    seq(n, i requires 0 <= i < n => c)
  }

  /** A session whose one long question pushes the end of its initial context out of every request. */
  lemma ContextCanBeCut(w: Wording)
    ensures var s := Session(InProgress, [Round(1, Repeated('q', 3600), None)], Repeated('x', 1800), None, None);
            Ask(s, w).Send? && !(Lead(w, s.initialContext) <= Ask(s, w).messages[0].content)
  {
    var context, question := Repeated('x', 1800), Repeated('q', 3600);
    var s := Session(InProgress, [Round(1, question, None)], context, None, None);
    LongTextsAreNotFixed(context, question);
    OneQuestion(question, context);
    FullHistoryCutsContext(s, w);
  }

  lemma LongTextsAreNotFixed(context: string, question: string)
    requires |context| >= 1800 && |question| >= 1800
    ensures context != SUMMARY_REQUIRED && question != SUMMARY_QUESTION
  {
    assert |SUMMARY_REQUIRED| < 1800 && |SUMMARY_QUESTION| < 1800;
  }

  lemma OneQuestion(question: string, context: string)
    requires question != SUMMARY_QUESTION && |context| <= MAX_SYSTEM_CONTEXT_CHARS
    ensures Total(History([Round(1, question, None)], context)) == |question|
  {
    var rounds := [Round(1, question, None)];
    assert rounds[..0] == [];
    assert RoundsMessages(rounds) == [Message(Assistant, question)];
    SpeechesOne(Message(Assistant, question));
    assert History(rounds, context) == [Message(Assistant, question)];
  }
}
