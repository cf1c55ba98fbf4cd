/** Ambiguity scoring: a retry loop around the model, and when a score lets an interview complete. */
module Ambiguity {
  import opened Options

  const THRESHOLD := 0.2

  // ---------- Scores ----------

  /** Clarities as parsed, before clamping; the context clarity may be missing. */
  datatype Reading = Reading(goal: real, constraints: real, criteria: real, context: Option<real>)

  datatype Component = Component(clarity: real, weight: real)

  datatype Breakdown = Breakdown(goal: Component, constraints: Component, criteria: Component, context: Option<Component>)

  function Clamped(x: real): (r: real)
    ensures 0.0 <= r <= 1.0
    ensures 0.0 <= x <= 1.0 ==> r == x
  {
    if x < 0.0 then 0.0 else if x > 1.0 then 1.0 else x
  }

  /** The components that count: context only in a brownfield project, and only when it was given. */
  function BreakdownOf(r: Reading, brownfield: bool): Breakdown {
    if brownfield then
      Breakdown(Component(Clamped(r.goal), 0.35), Component(Clamped(r.constraints), 0.25), Component(Clamped(r.criteria), 0.25),
                if r.context.Some? then Some(Component(Clamped(r.context.value), 0.15)) else None)
    else
      Breakdown(Component(Clamped(r.goal), 0.40), Component(Clamped(r.constraints), 0.30), Component(Clamped(r.criteria), 0.30),
                None)
  }

  function Components(b: Breakdown): seq<Component> {
    [b.goal, b.constraints, b.criteria] + if b.context.Some? then [b.context.value] else []
  }

  function WeightedClarity(cs: seq<Component>): real {
    if cs == [] then 0.0
    else WeightedClarity(cs[..|cs| - 1]) + cs[|cs| - 1].clarity * cs[|cs| - 1].weight
  }

  function Overall(b: Breakdown): real {
    1.0 - WeightedClarity(Components(b))
  }

  predicate BelowFloor(c: Option<Component>, floor: real) {
    c.None? || c.value.clarity < floor
  }

  datatype Floor = GoalFloor | ConstraintFloor | CriteriaFloor | ContextFloor

  const FLOORS: seq<Floor> := [GoalFloor, ConstraintFloor, CriteriaFloor, ContextFloor]

  predicate Unmet(b: Breakdown, floor: Floor) {
    match floor
    case GoalFloor => BelowFloor(Some(b.goal), 0.75)
    case ConstraintFloor => BelowFloor(Some(b.constraints), 0.65)
    case CriteriaFloor => BelowFloor(Some(b.criteria), 0.70)
    case ContextFloor => BelowFloor(b.context, 0.60)
  }

  /** The unmet floors in their order. */
  method GetCompletionFloorFailures(b: Breakdown, brownfield: bool) returns (failures: seq<Floor>)
    ensures forall f :: f in failures <==> Unmet(b, f) && (f.ContextFloor? ==> brownfield)
  {
    failures := [];
    var required := if brownfield then 4 else 3;
    for k := 0 to required
      invariant forall f :: f in failures <==> f in FLOORS[..k] && Unmet(b, f)
    {
      if Unmet(b, FLOORS[k]) {
        failures := failures + [FLOORS[k]];
      }
      assert FLOORS[..k + 1] == FLOORS[..k] + [FLOORS[k]];
    }
    assert FLOORS[..3] == [GoalFloor, ConstraintFloor, CriteriaFloor];
    assert FLOORS[..4] == FLOORS;
  }

  predicate FloorsMet(b: Breakdown, brownfield: bool) {
    && !Unmet(b, GoalFloor) && !Unmet(b, ConstraintFloor) && !Unmet(b, CriteriaFloor)
    && (brownfield ==> !Unmet(b, ContextFloor))
  }

  predicate Qualifies(b: Breakdown, brownfield: bool) {
    Overall(b) <= THRESHOLD && FloorsMet(b, brownfield)
  }

  method QualifiesForSeedCompletion(b: Breakdown, brownfield: bool) returns (q: bool)
    ensures q <==> Qualifies(b, brownfield)
  {
    var failures := GetCompletionFloorFailures(b, brownfield);
    q := Overall(b) <= THRESHOLD && failures == [];
    NoFailuresIff(b, brownfield, failures);
  }

  lemma NoFailuresIff(b: Breakdown, brownfield: bool, failures: seq<Floor>)
    requires forall f :: f in failures <==> Unmet(b, f) && (f.ContextFloor? ==> brownfield)
    ensures failures == [] <==> FloorsMet(b, brownfield)
  {
    if failures != [] {
      var f := failures[0];
      assert f in failures && Unmet(b, f);
      assert f == GoalFloor || f == ConstraintFloor || f == CriteriaFloor || f == ContextFloor;
    } else {
      assert GoalFloor !in failures && ConstraintFloor !in failures && CriteriaFloor !in failures && ContextFloor !in failures;
    }
  }

  lemma OverallOf(b: Breakdown)
    ensures Overall(b) == 1.0 - (b.goal.clarity * b.goal.weight + b.constraints.clarity * b.constraints.weight
                                 + b.criteria.clarity * b.criteria.weight
                                 + if b.context.Some? then b.context.value.clarity * b.context.value.weight else 0.0)
  {
    var one, two, three := [b.goal], [b.goal, b.constraints], [b.goal, b.constraints, b.criteria];
    assert one[..0] == [] && two[..1] == one && three[..2] == two;
    assert WeightedClarity(one) == b.goal.clarity * b.goal.weight;
    assert WeightedClarity(two) == WeightedClarity(one) + b.constraints.clarity * b.constraints.weight;
    assert WeightedClarity(three) == WeightedClarity(two) + b.criteria.clarity * b.criteria.weight;
    if b.context.Some? {
      assert Components(b)[..3] == three;
    } else {
      assert Components(b) == three;
    }
  }

  /** The source's two weightings, written out. */
  function WeightedReading(r: Reading, brownfield: bool): real {
    if brownfield then
      0.35 * Clamped(r.goal) + 0.25 * Clamped(r.constraints) + 0.25 * Clamped(r.criteria)
      + if r.context.Some? then 0.15 * Clamped(r.context.value) else 0.0
    else 0.40 * Clamped(r.goal) + 0.30 * Clamped(r.constraints) + 0.30 * Clamped(r.criteria)
  }

  lemma OverallOfReading(r: Reading, brownfield: bool)
    ensures Overall(BreakdownOf(r, brownfield)) == 1.0 - WeightedReading(r, brownfield)
  {
    OverallOf(BreakdownOf(r, brownfield));
  }

  /** Whatever the model reports, the score is a fraction; clarity of one everywhere scores zero. */
  lemma OverallWithinUnit(r: Reading, brownfield: bool)
    ensures 0.0 <= Overall(BreakdownOf(r, brownfield)) <= 1.0
    ensures Overall(BreakdownOf(r, brownfield)) == 0.0 <==>
              && r.goal >= 1.0 && r.constraints >= 1.0 && r.criteria >= 1.0
              && (brownfield ==> r.context.Some? && r.context.value >= 1.0)
  {
    OverallOfReading(r, brownfield);
  }

  /** A brownfield reading without context keeps a residual ambiguity and never completes, though it may look ready. */
  lemma MissingContextNeverCompletes(r: Reading)
    requires r.context.None?
    ensures Overall(BreakdownOf(r, true)) >= 0.15 && !Qualifies(BreakdownOf(r, true), true)
    ensures Overall(BreakdownOf(r, true)) <= THRESHOLD
            <==> 0.35 * Clamped(r.goal) + 0.25 * Clamped(r.constraints) + 0.25 * Clamped(r.criteria) >= 0.8
  {
    OverallOfReading(r, true);
    assert Unmet(BreakdownOf(r, true), ContextFloor);
  }

  predicate NoLess(a: Reading, b: Reading) {
    && a.goal <= b.goal && a.constraints <= b.constraints && a.criteria <= b.criteria
    && (a.context.Some? ==> b.context.Some? && a.context.value <= b.context.value)
  }

  /** Clearer requirements never score worse and never lose completion. */
  lemma ClarityOnlyHelps(a: Reading, b: Reading, brownfield: bool)
    requires NoLess(a, b)
    ensures Overall(BreakdownOf(b, brownfield)) <= Overall(BreakdownOf(a, brownfield))
    ensures Qualifies(BreakdownOf(a, brownfield), brownfield) ==> Qualifies(BreakdownOf(b, brownfield), brownfield)
  {
    ScoreOnlyFalls(a, b, brownfield);
    FloorsStayMet(a, b, brownfield);
  }

  lemma ScoreOnlyFalls(a: Reading, b: Reading, brownfield: bool)
    requires NoLess(a, b)
    ensures Overall(BreakdownOf(b, brownfield)) <= Overall(BreakdownOf(a, brownfield))
  {
    OverallOfReading(a, brownfield);
    OverallOfReading(b, brownfield);
  }

  lemma FloorsStayMet(a: Reading, b: Reading, brownfield: bool)
    requires NoLess(a, b)
    ensures FloorsMet(BreakdownOf(a, brownfield), brownfield) ==> FloorsMet(BreakdownOf(b, brownfield), brownfield)
  {
  }

  // ---------- Milestones ----------

  datatype Milestone = Initial | Progress | Refined | Ready

  function Bound(m: Milestone): real {
    match m
    case Initial => 1.0
    case Progress => 0.4
    case Refined => 0.3
    case Ready => THRESHOLD
  }

  function MilestoneOf(score: real): Milestone {
    if score <= Bound(Ready) then Ready
    else if score <= Bound(Refined) then Refined
    else if score <= Bound(Progress) then Progress
    else Initial
  }

  function NextMilestone(score: real): Option<Milestone> {
    if score > Bound(Initial) then Some(Initial)
    else if score > Bound(Progress) then Some(Progress)
    else if score > Bound(Refined) then Some(Refined)
    else if score > Bound(Ready) then Some(Ready)
    else None
  }

  function Rank(m: Milestone): nat {
    match m
    case Initial => 0
    case Progress => 1
    case Refined => 2
    case Ready => 3
  }

  /** On scores the scorer produces, the next milestone is the one after the current, and there is none when ready. */
  lemma NextFollowsCurrent(score: real)
    requires score <= 1.0
    ensures NextMilestone(score).None? <==> MilestoneOf(score) == Ready
    ensures MilestoneOf(score) == Ready <==> score <= THRESHOLD
    ensures NextMilestone(score).Some? ==> Rank(NextMilestone(score).value) == Rank(MilestoneOf(score)) + 1
  {
  }

  /** The documented next milestone: of those whose bound lies below the score, the most advanced. */
  ghost predicate MostAdvancedBelow(score: real, next: Option<Milestone>) {
    match next
    case Some(m) => Bound(m) < score && forall o: Milestone :: Bound(o) < score ==> Rank(o) <= Rank(m)
    case None => forall o: Milestone :: Bound(o) >= score
  }

  /** The code gives the documented milestone exactly for scores that no bound but the last separates from ready. */
  lemma NextIsMostAdvancedIff(score: real)
    ensures MostAdvancedBelow(score, NextMilestone(score)) <==> score <= 0.3
  {
    assert Rank(Ready) == 3 && Bound(Ready) == 0.2;
    if score > 0.3 {
      assert Bound(Ready) < score && Rank(NextMilestone(score).value) < Rank(Ready);
    }
  }

  /** A score for which documentation and code differ: the milestone given is Refined, the most advanced below is Ready. */
  lemma NextMilestoneDiffers()
    ensures NextMilestone(0.35) == Some(Refined) && MostAdvancedBelow(0.35, Some(Ready))
    ensures !MostAdvancedBelow(0.35, NextMilestone(0.35))
  {
    NextIsMostAdvancedIff(0.35);
  }

  // ---------- The retry loop ----------

  /** One completion: a provider error, a reply that parses, one that does not, or one whose parsing raises. */
  datatype Answer = ProviderError | Clear(reading: Reading) | Unreadable(truncated: bool) | Fatal

  /** `maxRetries` is None for unlimited. */
  datatype Limits = Limits(initialTokens: nat, maxRetries: Option<nat>, maxFormatErrors: nat)

  /** `Pending`: the loop would call again, but the answers given end here. */
  datatype Outcome = Scored(breakdown: Breakdown, overall: real) | Exhausted | Raised | Pending

  function Pow2(n: nat): nat {
    if n == 0 then 1 else 2 * Pow2(n - 1)
  }

  function Truncations(answers: seq<Answer>): nat {
    if answers == [] then 0
    else Truncations(answers[..|answers| - 1]) + if answers[|answers| - 1] == Unreadable(true) then 1 else 0
  }

  function FormatErrors(answers: seq<Answer>): nat {
    if answers == [] then 0
    else FormatErrors(answers[..|answers| - 1]) + if answers[|answers| - 1] == Unreadable(false) then 1 else 0
  }

  predicate OutOfRetries(limits: Limits, calls: nat) {
    limits.maxRetries.Some? && calls >= limits.maxRetries.value
  }

  predicate OutOfFormat(answers: seq<Answer>, limits: Limits, calls: nat)
    requires calls <= |answers|
  {
    calls > 0 && answers[calls - 1] == Unreadable(false) && FormatErrors(answers[..calls]) >= limits.maxFormatErrors
  }

  /** The last answer ends the loop. */
  predicate Finished(answers: seq<Answer>, limits: Limits, calls: nat)
    requires calls <= |answers|
  {
    (calls > 0 && (answers[calls - 1].Clear? || answers[calls - 1].Fatal?)) || OutOfFormat(answers, limits, calls)
  }

  /** The loop makes no further call after this many. */
  predicate Stops(answers: seq<Answer>, limits: Limits, calls: nat)
    requires calls <= |answers|
  {
    Finished(answers, limits, calls) || OutOfRetries(limits, calls)
  }

  /** How the loop ends after exactly `calls` calls. */
  function OutcomeAt(answers: seq<Answer>, limits: Limits, calls: nat, brownfield: bool): Outcome
    requires calls <= |answers|
  {
    if calls > 0 && answers[calls - 1].Clear? then
      Scored(BreakdownOf(answers[calls - 1].reading, brownfield), Overall(BreakdownOf(answers[calls - 1].reading, brownfield)))
    else if calls > 0 && answers[calls - 1].Fatal? then Raised
    else if OutOfFormat(answers, limits, calls) || OutOfRetries(limits, calls) then Exhausted
    else Pending
  }

  /**
    * The scoring loop. `tokens` records each call's token limit: the initial limit doubled once for every
    * truncated reply before it. The loop stops at the first point where it must and not before.
    */
  method Score(answers: seq<Answer>, limits: Limits, brownfield: bool) returns (outcome: Outcome, tokens: seq<nat>)
    ensures |tokens| <= |answers|
    ensures forall k :: 0 <= k < |tokens| ==> tokens[k] == limits.initialTokens * Pow2(Truncations(answers[..k]))
    ensures forall k :: 0 <= k < |tokens| ==> !Stops(answers, limits, k)
    ensures Stops(answers, limits, |tokens|) || |tokens| == |answers|
    ensures outcome == OutcomeAt(answers, limits, |tokens|, brownfield)
    ensures limits.maxRetries.Some? ==> |tokens| <= limits.maxRetries.value
  {
    var current, formatErrors, attempt := limits.initialTokens, 0, 0;
    tokens := [];
    while !OutOfRetries(limits, attempt) && attempt < |answers|
      invariant attempt == |tokens| <= |answers|
      invariant current == limits.initialTokens * Pow2(Truncations(answers[..attempt]))
      invariant formatErrors == FormatErrors(answers[..attempt])
      invariant forall k :: 0 <= k < attempt ==> tokens[k] == limits.initialTokens * Pow2(Truncations(answers[..k]))
      invariant forall k :: 0 <= k < attempt ==> !Stops(answers, limits, k)
      invariant !Finished(answers, limits, attempt)
      invariant limits.maxRetries.Some? ==> attempt <= limits.maxRetries.value
    {
      var answer := answers[attempt];
      assert answers[..attempt + 1][..attempt] == answers[..attempt];
      tokens := tokens + [current];
      attempt := attempt + 1;
      match answer {
        case ProviderError =>
        case Clear(reading) =>
          var b := BreakdownOf(reading, brownfield);
          return Scored(b, Overall(b)), tokens;
        case Fatal =>
          return Raised, tokens;
        case Unreadable(truncated) =>
          if truncated {
            Doubling(limits.initialTokens, Truncations(answers[..attempt - 1]));
            current := current * 2;
          } else {
            formatErrors := formatErrors + 1;
            if formatErrors >= limits.maxFormatErrors {
              return Exhausted, tokens;
            }
          }
      }
    }
    outcome := if OutOfRetries(limits, attempt) then Exhausted else Pending;
  }

  lemma Doubling(initial: nat, n: nat)
    ensures initial * Pow2(n) * 2 == initial * Pow2(n + 1)
  {
  }

  /** The loop's call count is determined by its answers, so more answers after the end change nothing. */
  lemma StopIsUnique(answers: seq<Answer>, more: seq<Answer>, limits: Limits, a: nat, b: nat)
    requires a <= |answers| && b <= |answers + more|
    requires Stops(answers, limits, a) && forall k :: 0 <= k < a ==> !Stops(answers, limits, k)
    requires Stops(answers + more, limits, b) && forall k :: 0 <= k < b ==> !Stops(answers + more, limits, k)
    ensures a == b
  {
    forall k | 0 <= k <= |answers| ensures Stops(answers + more, limits, k) <==> Stops(answers, limits, k) {
      assert (answers + more)[..k] == answers[..k];
    }
  }

  /** While the loop goes on, format errors stay below their limit, with or without a retry limit. */
  lemma {:induction false} FormatErrorsStayBelow(answers: seq<Answer>, limits: Limits, calls: nat)
    requires calls <= |answers| && forall k :: 0 <= k <= calls ==> !OutOfFormat(answers, limits, k)
    ensures FormatErrors(answers[..calls]) < limits.maxFormatErrors || FormatErrors(answers[..calls]) == 0
  {
    if calls > 0 {
      FormatErrorsStayBelow(answers, limits, calls - 1);
      assert answers[..calls][..calls - 1] == answers[..calls - 1];
      assert !OutOfFormat(answers, limits, calls);
    }
  }

  /** Completion, component by component: a score of at most 0.2, and each clarity at its floor. */
  lemma CompletionMeans(b: Breakdown, brownfield: bool)
    ensures Qualifies(b, brownfield)
       <==> && Overall(b) <= 0.2
            && b.goal.clarity >= 0.75 && b.constraints.clarity >= 0.65 && b.criteria.clarity >= 0.70
            && (brownfield ==> b.context.Some? && b.context.value.clarity >= 0.60)
  {
  }
}
