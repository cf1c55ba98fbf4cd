/** An interview session: its rounds, when it may be reopened, and the context that is safe to send. */
module Interview {
  import opened Options
  import opened Text
  import Json

  const MAX_CONTEXT_CHARS := 3500
  const MAX_RESPONSE_LENGTH := 10000
  const SEED_READY_THRESHOLD: real := 0.2
  const TRUNCATION_NOTICE: string := "\n\n[Context truncated for prompt safety.]"
  const SUMMARY_QUESTION: string :=
    "Your saved initial context is too long to safely send to the interview "
    + "model without risking CLI prompt failure. Please reply with a concise "
    + "summary of the full context, including goals, constraints, and success "
    + "criteria. I will use that summary for the next interview question."
  const SUMMARY_REQUIRED: string :=
    "[Initial context exceeds the prompt-safe size and no user summary has been "
    + "recorded yet. Ask the user to provide a concise summary before scoring or "
    + "generating a seed.]"

  datatype Status = InProgress | Complete | Aborted

  /** `response` is None while the question is open. */
  datatype Round = Round(number: nat, question: string, response: Option<string>)

  datatype Session = Session(status: Status, rounds: seq<Round>, initialContext: string, score: Option<real>,
                             breakdown: Option<Json.Fields>)

  predicate IsSummary(r: Round) {
    r.question == SUMMARY_QUESTION && r.response.Some? && r.response.value != ""
  }

  predicate NeedsSummary(s: Session) {
    |s.initialContext| > MAX_CONTEXT_CHARS && !exists r :: r in s.rounds && IsSummary(r)
  }

  predicate CanReopen(s: Session) {
    && s.status.Complete?
    && (NeedsSummary(s) || (s.score.Some? && s.score.value > SEED_READY_THRESHOLD))
  }

  // ---------- Context that is safe to send ----------

  /** A long text keeps its start and says that it was cut. */
  function TruncatedContext(context: string): (r: string)
    ensures |r| <= MAX_CONTEXT_CHARS
  {
    if |context| <= MAX_CONTEXT_CHARS then context
    else context[..MAX_CONTEXT_CHARS - |TRUNCATION_NOTICE|] + TRUNCATION_NOTICE
  }

  /** The newest summary the user gave. */
  function LatestSummary(rounds: seq<Round>): Option<string> {
    if rounds == [] then None
    else
      var last := rounds[|rounds| - 1];
      if IsSummary(last) then last.response else LatestSummary(rounds[..|rounds| - 1])
  }

  function PromptSafeContext(s: Session): string {
    if |s.initialContext| <= MAX_CONTEXT_CHARS then s.initialContext
    else match LatestSummary(s.rounds)
      case Some(summary) => TruncatedContext(summary)
      case None => SUMMARY_REQUIRED
  }

  /** None asks for a summary first. */
  function EffectiveContext(s: Session): Option<string> {
    var context := PromptSafeContext(s);
    if context == SUMMARY_REQUIRED then None else Some(context)
  }

  lemma {:induction false} LatestSummaryExists(rounds: seq<Round>)
    ensures LatestSummary(rounds).Some? <==> exists r :: r in rounds && IsSummary(r)
  {
    if rounds != [] {
      var front := rounds[..|rounds| - 1];
      assert rounds == front + [rounds[|rounds| - 1]];
      LatestSummaryExists(front);
    }
  }

  /** Whatever was stored, the context to send is within its bound. */
  lemma PromptSafeContextIsSafe(s: Session)
    ensures |PromptSafeContext(s)| <= MAX_CONTEXT_CHARS
  {
    assert |SUMMARY_REQUIRED| <= MAX_CONTEXT_CHARS;
  }

  /** A context is missing exactly when a summary is needed, or when the user's own text is the marker for that. */
  lemma ContextMissingIff(s: Session)
    ensures EffectiveContext(s).None? <==>
            (NeedsSummary(s) || s.initialContext == SUMMARY_REQUIRED
             || (|s.initialContext| > MAX_CONTEXT_CHARS && LatestSummary(s.rounds) == Some(SUMMARY_REQUIRED)))
  {
    LatestSummaryExists(s.rounds);
    assert |SUMMARY_REQUIRED| <= MAX_CONTEXT_CHARS;
    if |s.initialContext| > MAX_CONTEXT_CHARS && LatestSummary(s.rounds).Some? {
      var summary := LatestSummary(s.rounds).value;
      if |summary| > MAX_CONTEXT_CHARS {
        assert |TruncatedContext(summary)| == MAX_CONTEXT_CHARS > |SUMMARY_REQUIRED|;
      }
    }
  }

  // ---------- Events ----------

  function StripLeft(s: string): string {
    if s != "" && IsSpace(s[0]) then StripLeft(s[1..]) else s
  }

  function StripRight(s: string): string {
    if s != "" && IsSpace(s[|s| - 1]) then StripRight(s[..|s| - 1]) else s
  }

  /** Not blank, and not too long once stripped. */
  predicate ValidResponse(response: string) {
    var stripped := StripRight(StripLeft(response));
    stripped != "" && |stripped| <= MAX_RESPONSE_LENGTH
  }

  datatype Event = Answer(question: string, response: string) | Finish | Score(score: real, breakdown: Json.Fields) | ClearScore

  predicate Records(s: Session, response: string) {
    ValidResponse(response) && (s.status.Complete? ==> CanReopen(s))
  }

  function Step(s: Session, e: Event): Session {
    match e
    case Answer(question, response) =>
      if !Records(s, response) then s
      else s.(status := if s.status.Complete? then InProgress else s.status,
              rounds := s.rounds + [Round(|s.rounds| + 1, question, Some(response))])
    case Finish => s.(status := Complete)
    case Score(score, breakdown) => s.(score := Some(score), breakdown := Some(breakdown))
    case ClearScore => s.(score := None, breakdown := None)
  }

  function Run(s: Session, events: seq<Event>): Session {
    if events == [] then s else Step(Run(s, events[..|events| - 1]), events[|events| - 1])
  }

  /** The stored session, updated in place. */
  class InterviewState {
    var status: Status
    var rounds: seq<Round>
    const initialContext: string
    var score: Option<real>
    var breakdown: Option<Json.Fields>

    function Snapshot(): Session
      reads this
    {
      Session(status, rounds, initialContext, score, breakdown)
    }

    constructor (initialContext: string)
      ensures Snapshot() == Session(InProgress, [], initialContext, None, None)
    {
      this.status := InProgress;
      this.rounds := [];
      this.initialContext := initialContext;
      this.score := None;
      this.breakdown := None;
    }

    /** Adds a round, reopening a session that was finished too early; a refusal changes nothing. */
    method RecordResponse(response: string, question: string) returns (recorded: bool)
      modifies this
      ensures recorded <==> Records(old(Snapshot()), response)
      ensures Snapshot() == Step(old(Snapshot()), Answer(question, response))
    {
      if !ValidResponse(response) {
        return false;
      }
      if status.Complete? {
        if !CanReopen(Snapshot()) {
          return false;
        }
        status := InProgress;
      }
      rounds := rounds + [Round(|rounds| + 1, question, Some(response))];
      return true;
    }

    method CompleteInterview()
      modifies this
      ensures Snapshot() == Step(old(Snapshot()), Finish)
    {
      if status.Complete? {
        return;
      }
      status := Complete;
    }

    method StoreAmbiguity(value: real, components: Json.Fields)
      modifies this
      ensures Snapshot() == Step(old(Snapshot()), Score(value, components))
    {
      score := Some(value);
      breakdown := Some(components);
    }

    method ClearStoredAmbiguity()
      modifies this
      ensures Snapshot() == Step(old(Snapshot()), ClearScore)
    {
      if score.None? && breakdown.None? {
        return;
      }
      score := None;
      breakdown := None;
    }
  }

  // ---------- Whole runs ----------

  /** Rounds are numbered 1, 2, 3 and so on. */
  ghost predicate Numbered(rounds: seq<Round>) {
    forall i :: 0 <= i < |rounds| ==> rounds[i].number == i + 1
  }

  /** No event rewrites an earlier round or the initial context, and numbering stays consecutive. */
  lemma {:induction false} RunOnlyAppends(s: Session, events: seq<Event>)
    ensures s.rounds <= Run(s, events).rounds
    ensures Run(s, events).initialContext == s.initialContext
    ensures Numbered(s.rounds) ==> Numbered(Run(s, events).rounds)
  {
    if events != [] {
      RunOnlyAppends(s, events[..|events| - 1]);
    }
  }

  /** Once a summary exists no run can lose it. */
  lemma SummaryIsPermanent(s: Session, events: seq<Event>)
    requires !NeedsSummary(s)
    ensures !NeedsSummary(Run(s, events))
  {
    RunOnlyAppends(s, events);
  }

  /** A finished session that may not reopen stays as it is until a new score is stored. */
  lemma {:induction false} ClosedStaysClosed(s: Session, events: seq<Event>)
    requires s.status.Complete? && !CanReopen(s)
    requires forall e :: e in events ==> !e.Score?
    ensures var after := Run(s, events);
            && after == s.(score := after.score, breakdown := after.breakdown) && !CanReopen(after)
            && (after == s || (after.score.None? && after.breakdown.None?))
  {
    if events != [] {
      var last := |events| - 1;
      assert events[last] in events;
      assert forall e :: e in events[..last] ==> e in events;
      ClosedStaysClosed(s, events[..last]);
    }
  }

  /** Answering the summary question with anything but the marker always makes the context available, whatever the status. */
  lemma SummaryUnblocks(s: Session, response: string)
    requires NeedsSummary(s) && ValidResponse(response) && response != SUMMARY_REQUIRED
    ensures var after := Step(s, Answer(SUMMARY_QUESTION, response));
            && !after.status.Complete? && !NeedsSummary(after)
            && EffectiveContext(after) == Some(TruncatedContext(response))
  {
    var after := Step(s, Answer(SUMMARY_QUESTION, response));
    var round := Round(|s.rounds| + 1, SUMMARY_QUESTION, Some(response));
    assert response != "";
    assert after.rounds[|after.rounds| - 1] == round && round in after.rounds && IsSummary(round);
    assert LatestSummary(after.rounds) == Some(response);
    ContextMissingIff(after);
    assert |SUMMARY_REQUIRED| <= MAX_CONTEXT_CHARS;
  }

  // ---------- What the context and a response are ----------

  /** The round with this index is the last that answered the summary question. */
  ghost predicate LastSummaryAt(rounds: seq<Round>, i: nat, summary: string) {
    && i < |rounds| && rounds[i].question == SUMMARY_QUESTION && rounds[i].response == Some(summary) && summary != ""
    && forall j :: i < j < |rounds| ==> !SummaryAnswered(rounds[j])
  }

  predicate SummaryAnswered(r: Round) {
    r.question == SUMMARY_QUESTION && r.response.Some? && r.response.value != ""
  }

  lemma {:induction false} LatestSummaryIs(rounds: seq<Round>, i: nat, summary: string)
    requires LastSummaryAt(rounds, i, summary)
    ensures LatestSummary(rounds) == Some(summary)
  {
    if i < |rounds| - 1 {
      LatestSummaryIs(rounds[..|rounds| - 1], i, summary);
    }
  }

  /**
    * The context that is sent: the user's own up to 3500 characters; for a longer one the newest summary, itself cut
    * to 3500 characters that end with a notice.
    */
  lemma PromptSafeContextMeans(s: Session, i: nat, summary: string)
    ensures |s.initialContext| <= 3500 ==> PromptSafeContext(s) == s.initialContext
    ensures |s.initialContext| > 3500 && LastSummaryAt(s.rounds, i, summary) ==>
              && (|summary| <= 3500 ==> PromptSafeContext(s) == summary)
              && (|summary| > 3500 ==>
                    |PromptSafeContext(s)| == 3500
                    && PromptSafeContext(s) == summary[..3500 - |TRUNCATION_NOTICE|] + TRUNCATION_NOTICE)
    ensures |s.initialContext| > 3500 && (forall r :: r in s.rounds ==> !SummaryAnswered(r)) ==>
              PromptSafeContext(s) == SUMMARY_REQUIRED
  {
    LatestSummaryExists(s.rounds);
    if LastSummaryAt(s.rounds, i, summary) {
      LatestSummaryIs(s.rounds, i, summary);
    }
  }

  /** When a finished session may be reopened. */
  lemma CanReopenMeans(s: Session)
    ensures CanReopen(s)
       <==> && s.status == Complete
            && ((|s.initialContext| > 3500 && forall r :: r in s.rounds ==> !SummaryAnswered(r))
                || (s.score.Some? && s.score.value > 0.2))
  {
  }

  predicate BlankText(s: string) {
    forall i :: 0 <= i < |s| ==> IsSpace(s[i])
  }

  /** A response is valid when what is left without the white space around it is not empty and has at most 10000 characters. */
  lemma ValidResponseIff(left: string, core: string, right: string)
    requires BlankText(left) && BlankText(right)
    requires core != "" ==> !IsSpace(core[0]) && !IsSpace(core[|core| - 1])
    ensures ValidResponse(left + core + right) <==> core != "" && |core| <= 10000
  {
    ConcatAssociates(left, core, right);
    StripsLeft(left, core + right);
    if core == "" {
      assert core + right == right;
      StripsLeft(right, "");
      assert right + "" == right;
    } else {
      assert (core + right)[0] == core[0];
      StripsRight(core, right);
    }
  }

  lemma {:induction false} StripsLeft(left: string, rest: string)
    requires BlankText(left)
    ensures StripLeft(left + rest) == StripLeft(rest)
  {
    if left == "" {
      assert left + rest == rest;
    } else {
      assert (left + rest)[1..] == left[1..] + rest;
      StripsLeft(left[1..], rest);
    }
  }

  lemma {:induction false} StripsRight(core: string, right: string)
    requires BlankText(right) && (core != "" ==> !IsSpace(core[|core| - 1]))
    ensures StripRight(core + right) == core
  {
    if right == "" {
      assert core + right == core;
    } else {
      var n := |right| - 1;
      assert (core + right)[..|core + right| - 1] == core + right[..n];
      StripsRight(core, right[..n]);
    }
  }
}
