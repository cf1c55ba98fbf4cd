/** The append-only log of operational observations, and what a recall takes from it. */
module MemoryLog {
  import opened Options
  import opened Text
  import opened Json
  import opened Ordering

  /** The keys a record may have; any other key is an `Extra`. */
  datatype Field = Kind | Task | Recommendation | Family | Category | Outcome | Confidence | CreatedAt | Extra(name: string)

  type Record = map<Field, Value>

  /** One line of the log file. */
  datatype Line = Blank | Garbled | NotObject | Entry(record: Record)

  datatype Observation = Observation(kind: string, task: string, recommendation: string, family: string,
                                     category: string, outcome: string, confidence: real, createdAt: string)

  datatype Prior = Prior(kind: string, task: string, recommendation: string, family: Option<string>,
                         category: Option<string>, confidence: real)

  datatype Query = Query(family: string, category: string, tasks: set<string>)

  datatype Reason = InvalidJson | RecordNotObject | FieldNotAllowed | MissingRequiredField | KindNotAllowed
                  | TaskNotAllowed | RecommendationNotAllowed | ForbiddenText

  /** Whether a text matches a contamination or injection pattern. */
  type TextTest = string -> bool

  const KINDS: set<string> :=
    {"provider_schema_stability", "missing_evidence_handle_seen", "repair_strategy_succeeded", "repair_strategy_failed",
     "latency_bucket", "schema_hint_needed"}
  const TASKS: set<string> :=
    {"extract_child_evidence", "synthesize_parent_answer_from_child_evidence", "repair_missing_evidence_handle",
     "parent_synthesis_retry"}
  const RECOMMENDATIONS: set<string> :=
    {"require_fact_id_and_evidence_chunk_id", "preserve_child_fact_identity", "prefer_strict_json_schema",
     "retry_once_after_missing_handle_repair", "route_synthesis_to_schema_stable_provider",
     "avoid_chunk_only_citations", "record_latency_without_quality_claim"}

  function Read(r: Record, f: Field): Value {
    if f in r then r[f] else Null
  }

  predicate Contaminated(r: Record, f: Field, forbidden: TextTest) {
    Read(r, f).Str? && forbidden(Read(r, f).text)
  }

  function Validate(r: Record, forbidden: TextTest): Option<Reason> {
    if exists f :: f in r && f.Extra? then Some(FieldNotAllowed)
    else if !Read(r, Kind).Str? || !Read(r, Task).Str? || !Read(r, Recommendation).Str? then Some(MissingRequiredField)
    else if Read(r, Kind).text !in KINDS then Some(KindNotAllowed)
    else if Read(r, Task).text !in TASKS then Some(TaskNotAllowed)
    else if Read(r, Recommendation).text !in RECOMMENDATIONS then Some(RecommendationNotAllowed)
    else if Contaminated(r, Kind, forbidden) || Contaminated(r, Task, forbidden)
         || Contaminated(r, Recommendation, forbidden) || Contaminated(r, Family, forbidden)
         || Contaminated(r, Category, forbidden) || Contaminated(r, Outcome, forbidden) then Some(ForbiddenText)
    else None
  }

  function Clamped(x: real): real {
    if x < 0.0 then 0.0 else if x > 1.0 then 1.0 else x
  }

  function ConfidenceOf(v: Value): real {
    match v
    case Num(x) => Clamped(x)
    case Bool(b) => if b then 1.0 else 0.0
    case _ => 1.0
  }

  predicate Matches(v: Value, wanted: string) {
    v.Null? || v == Str(wanted)
  }

  function TextOf(v: Value): Option<string> {
    if v.Str? then Some(v.text) else None
  }

  predicate Relevant(r: Record, q: Query) {
    && Read(r, Task).Str? && Read(r, Task).text in q.tasks
    && Matches(Read(r, Family), q.family) && Matches(Read(r, Category), q.category)
  }

  function PriorOf(r: Record): Prior
    requires Read(r, Kind).Str? && Read(r, Task).Str? && Read(r, Recommendation).Str?
  {
    Prior(Read(r, Kind).text, Read(r, Task).text, Read(r, Recommendation).text, TextOf(Read(r, Family)),
          TextOf(Read(r, Category)), ConfidenceOf(Read(r, Confidence)))
  }

  predicate PriorLeq(a: Prior, b: Prior) {
    TupleLeq(PriorKey(a), PriorKey(b))
  }

  function PriorKey(p: Prior): seq<string> {
    [p.task, p.kind, if p.family.Some? then p.family.value else "", if p.category.Some? then p.category.value else "",
     p.recommendation]
  }

  // ---------- Recall ----------

  function PriorsIn(log: seq<Line>, q: Query, forbidden: TextTest): seq<Prior> {
    if log == [] then []
    else
      var before, line := PriorsIn(log[..|log| - 1], q, forbidden), log[|log| - 1];
      if line.Entry? && Validate(line.record, forbidden).None? && Relevant(line.record, q)
      then before + [PriorOf(line.record)] else before
  }

  function LineRejection(line: Line, forbidden: TextTest): Option<Reason> {
    match line
    case Blank => None
    case Garbled => Some(InvalidJson)
    case NotObject => Some(RecordNotObject)
    case Entry(r) => Validate(r, forbidden)
  }

  function RejectionsIn(log: seq<Line>, forbidden: TextTest): seq<Reason> {
    if log == [] then []
    else
      var before, rejection := RejectionsIn(log[..|log| - 1], forbidden), LineRejection(log[|log| - 1], forbidden);
      if rejection.Some? then before + [rejection.value] else before
  }

  predicate Unhashable(v: Value) {
    v.Arr? || v.Obj?
  }

  /** Comparing the line's family or category with the query raises: it is looked up in a set, and cannot be. */
  predicate Raises(line: Line, q: Query, forbidden: TextTest) {
    && line.Entry? && Validate(line.record, forbidden).None?
    && Read(line.record, Task).Str? && Read(line.record, Task).text in q.tasks
    && (Unhashable(Read(line.record, Family))
        || (Matches(Read(line.record, Family), q.family) && Unhashable(Read(line.record, Category))))
  }

  ghost predicate NoneRaises(log: seq<Line>, q: Query, forbidden: TextTest) {
    forall i :: 0 <= i < |log| ==> !Raises(log[i], q, forbidden)
  }

  /** What a recall answers. */
  function Recalled(log: seq<Line>, q: Query, forbidden: TextTest): seq<Prior> {
    Sorted(PriorsIn(log, q, forbidden), PriorLeq)
  }

  // ---------- Store ----------

  function RecordOf(o: Observation): Record {
    map[Kind := Str(o.kind), Task := Str(o.task), Recommendation := Str(o.recommendation), Family := Str(o.family),
        Category := Str(o.category), Outcome := Str(o.outcome), Confidence := Num(o.confidence),
        CreatedAt := Str(o.createdAt)]
  }

  function RefusalOf(o: Observation, forbidden: TextTest): Option<Reason> {
    Validate(RecordOf(o), forbidden)
  }

  predicate Storable(o: Observation, forbidden: TextTest) {
    RefusalOf(o, forbidden).None?
  }

  /** Why an observation is refused, or None. */
  type Refuser = Observation -> Option<Reason>

  function NotRefused(batch: seq<Observation>, refuse: Refuser): seq<Observation> {
    if batch == [] then []
    else
      var before, last := NotRefused(batch[..|batch| - 1], refuse), batch[|batch| - 1];
      if refuse(last).None? then before + [last] else before
  }

  function ReasonsAmong(batch: seq<Observation>, refuse: Refuser): seq<Reason> {
    if batch == [] then []
    else
      var before, last := ReasonsAmong(batch[..|batch| - 1], refuse), batch[|batch| - 1];
      if refuse(last).Some? then before + [refuse(last).value] else before
  }

  /** Separates a batch into the observations to store and the reasons for refusing the others. */
  method Sift(batch: seq<Observation>, refuse: Refuser) returns (stored: seq<Observation>, rejected: seq<Reason>)
    ensures stored == NotRefused(batch, refuse) && rejected == ReasonsAmong(batch, refuse)
    ensures |stored| + |rejected| == |batch|
  {
    stored, rejected := [], [];
    for i := 0 to |batch|
      invariant stored == NotRefused(batch[..i], refuse) && rejected == ReasonsAmong(batch[..i], refuse)
      invariant |stored| + |rejected| == i
    {
      assert batch[..i + 1][..i] == batch[..i];
      var refusal := refuse(batch[i]);
      if refusal.Some? {
        rejected := rejected + [refusal.value];
      } else {
        stored := stored + [batch[i]];
      }
    }
    assert batch[..|batch|] == batch;
  }

  /** The observations of a batch that are stored, and why the others are not, in order. */
  function StorableAmong(batch: seq<Observation>, forbidden: TextTest): seq<Observation> {
    NotRefused(batch, (o: Observation) => RefusalOf(o, forbidden))
  }

  function Refusals(batch: seq<Observation>, forbidden: TextTest): seq<Reason> {
    ReasonsAmong(batch, (o: Observation) => RefusalOf(o, forbidden))
  }

  function LinesOf(batch: seq<Observation>): seq<Line> {
    seq(|batch|, i requires 0 <= i < |batch| => Entry(RecordOf(batch[i])))
  }

  /** The log on disk, appended to and never rewritten. */
  class LocalJsonMemoryBackend {
    var log: seq<Line>
    const forbidden: TextTest

    constructor (forbidden: TextTest)
      ensures log == [] && this.forbidden == forbidden
    {
      this.log := [];
      this.forbidden := forbidden;
    }

    /** Appends the valid observations of a batch in order and reports why each other one was refused. */
    method Store(batch: seq<Observation>) returns (stored: seq<Observation>, rejected: seq<Reason>)
      modifies this
      ensures stored == StorableAmong(batch, forbidden)
      ensures log == old(log) + LinesOf(stored)
      ensures rejected == Refusals(batch, forbidden)
      ensures |stored| + |rejected| == |batch|
    {
      stored, rejected := Sift(batch, (o: Observation) => RefusalOf(o, forbidden));
      log := log + LinesOf(stored);
    }

    /** The priors of the valid matching lines, sorted, and why invalid lines are refused; nothing when a line raises. */
    method Recall(q: Query) returns (raised: bool, priors: seq<Prior>, rejected: seq<Reason>)
      ensures raised <==> !NoneRaises(log, q, forbidden)
      ensures !raised ==> priors == Recalled(log, q, forbidden) && rejected == RejectionsIn(log, forbidden)
      ensures raised ==> priors == [] && rejected == []
    {
      raised, priors, rejected := false, [], [];
      for i := 0 to |log|
        invariant !raised && NoneRaises(log[..i], q, forbidden)
        invariant priors == PriorsIn(log[..i], q, forbidden)
        invariant rejected == RejectionsIn(log[..i], forbidden)
      {
        assert log[..i + 1][..i] == log[..i];
        var line := log[i];
        if Raises(line, q, forbidden) {
          return true, [], [];
        }
        var rejection := LineRejection(line, forbidden);
        if rejection.Some? {
          rejected := rejected + [rejection.value];
        } else if line.Entry? && Relevant(line.record, q) {
          priors := priors + [PriorOf(line.record)];
        }
      }
      assert log[..|log|] == log;
      priors := Sorted(priors, PriorLeq);
    }
  }

  lemma LinesSnoc(batch: seq<Observation>, o: Observation)
    ensures LinesOf(batch + [o]) == LinesOf(batch) + [Entry(RecordOf(o))]
    ensures LinesOf(batch + [o])[..|batch|] == LinesOf(batch)
  {
  }

  // ---------- Runs of stores ----------

  function LogAfter(batches: seq<seq<Observation>>, forbidden: TextTest): seq<Line> {
    if batches == [] then []
    else LogAfter(batches[..|batches| - 1], forbidden) + LinesOf(StorableAmong(batches[|batches| - 1], forbidden))
  }

  function All(batches: seq<seq<Observation>>): seq<Observation> {
    if batches == [] then [] else All(batches[..|batches| - 1]) + batches[|batches| - 1]
  }

  predicate About(o: Observation, q: Query) {
    o.task in q.tasks && o.family == q.family && o.category == q.category
  }

  /** The prior an observation becomes. */
  function PriorFrom(o: Observation): Prior {
    Prior(o.kind, o.task, o.recommendation, Some(o.family), Some(o.category), Clamped(o.confidence))
  }

  function Expected(observations: seq<Observation>, q: Query, forbidden: TextTest): seq<Prior> {
    if observations == [] then []
    else
      var before, last := Expected(observations[..|observations| - 1], q, forbidden), observations[|observations| - 1];
      if Storable(last, forbidden) && About(last, q) then before + [PriorFrom(last)] else before
  }

  lemma {:induction false} PriorsAppend(log: seq<Line>, more: seq<Line>, q: Query, forbidden: TextTest)
    ensures PriorsIn(log + more, q, forbidden) == PriorsIn(log, q, forbidden) + PriorsIn(more, q, forbidden)
    ensures RejectionsIn(log + more, forbidden) == RejectionsIn(log, forbidden) + RejectionsIn(more, forbidden)
  {
    if more == [] {
      assert log + more == log;
    } else {
      assert (log + more)[..|log + more| - 1] == log + more[..|more| - 1];
      PriorsAppend(log, more[..|more| - 1], q, forbidden);
    }
  }

  lemma {:induction false} ExpectedAppend(a: seq<Observation>, b: seq<Observation>, q: Query, forbidden: TextTest)
    ensures Expected(a + b, q, forbidden) == Expected(a, q, forbidden) + Expected(b, q, forbidden)
  {
    if b == [] {
      assert a + b == a;
    } else {
      assert (a + b)[..|a + b| - 1] == a + b[..|b| - 1];
      ExpectedAppend(a, b[..|b| - 1], q, forbidden);
    }
  }

  lemma RecordReadsBack(o: Observation, q: Query)
    ensures PriorOf(RecordOf(o)) == PriorFrom(o) && (Relevant(RecordOf(o), q) <==> About(o, q))
  {
  }

  /** Reading back a stored batch gives its valid observations and refuses none of its lines. */
  lemma {:induction false} BatchReadsBack(batch: seq<Observation>, q: Query, forbidden: TextTest)
    ensures PriorsIn(LinesOf(StorableAmong(batch, forbidden)), q, forbidden) == Expected(batch, q, forbidden)
    ensures RejectionsIn(LinesOf(StorableAmong(batch, forbidden)), forbidden) == []
  {
    if batch != [] {
      var front, last := batch[..|batch| - 1], batch[|batch| - 1];
      BatchReadsBack(front, q, forbidden);
      RecordReadsBack(last, q);
      LinesSnoc(StorableAmong(front, forbidden), last);
    }
  }

  /** The log of a run of stores, read as priors, is the valid observations about the query; no line is refused. */
  lemma {:induction false} RunReadsBack(batches: seq<seq<Observation>>, q: Query, forbidden: TextTest)
    ensures PriorsIn(LogAfter(batches, forbidden), q, forbidden) == Expected(All(batches), q, forbidden)
    ensures RejectionsIn(LogAfter(batches, forbidden), forbidden) == []
  {
    if batches != [] {
      var front, last := batches[..|batches| - 1], batches[|batches| - 1];
      RunReadsBack(front, q, forbidden);
      BatchReadsBack(last, q, forbidden);
      PriorsAppend(LogAfter(front, forbidden), LinesOf(StorableAmong(last, forbidden)), q, forbidden);
      ExpectedAppend(All(front), last, q, forbidden);
    }
  }

  /** No line a store wrote can make a recall raise. */
  lemma {:induction false} StoredLinesNeverRaise(batches: seq<seq<Observation>>, q: Query, forbidden: TextTest)
    ensures NoneRaises(LogAfter(batches, forbidden), q, forbidden)
  {
    if batches != [] {
      StoredLinesNeverRaise(batches[..|batches| - 1], q, forbidden);
      LinesNeverRaise(StorableAmong(batches[|batches| - 1], forbidden), q, forbidden);
    }
  }

  lemma LinesNeverRaise(batch: seq<Observation>, q: Query, forbidden: TextTest)
    ensures NoneRaises(LinesOf(batch), q, forbidden)
  {
  }

  /** Recall after any run of stores: exactly the valid matching observations, stably sorted, and no rejections. */
  lemma RecallIsExact(batches: seq<seq<Observation>>, q: Query, forbidden: TextTest)
    ensures Recalled(LogAfter(batches, forbidden), q, forbidden) == Sorted(Expected(All(batches), q, forbidden), PriorLeq)
    ensures NoneRaises(LogAfter(batches, forbidden), q, forbidden)
    ensures RejectionsIn(LogAfter(batches, forbidden), forbidden) == []
    ensures SortedBy(Recalled(LogAfter(batches, forbidden), q, forbidden), PriorLeq)
    ensures multiset(Recalled(LogAfter(batches, forbidden), q, forbidden)) == multiset(Expected(All(batches), q, forbidden))
  {
    RunReadsBack(batches, q, forbidden);
    StoredLinesNeverRaise(batches, q, forbidden);
    PriorOrder();
    SortedIsSorted(Expected(All(batches), q, forbidden), PriorLeq);
  }

  lemma PriorOrder()
    ensures TotalPreorder(PriorLeq)
  {
    forall a: Prior, b: Prior ensures PriorLeq(a, b) || PriorLeq(b, a) {
      TupleTotal(PriorKey(a), PriorKey(b));
    }
    forall a: Prior, b: Prior, c: Prior | PriorLeq(a, b) && PriorLeq(b, c) ensures PriorLeq(a, c) {
      TupleTransitive(PriorKey(a), PriorKey(b), PriorKey(c));
    }
  }

  lemma {:induction false} OnlyStorableCount(observations: seq<Observation>, q: Query, forbidden: TextTest)
    ensures Expected(StorableAmong(observations, forbidden), q, forbidden) == Expected(observations, q, forbidden)
  {
    if observations != [] {
      var front, last := observations[..|observations| - 1], observations[|observations| - 1];
      OnlyStorableCount(front, q, forbidden);
      if Storable(last, forbidden) {
        assert (StorableAmong(front, forbidden) + [last])[..|StorableAmong(front, forbidden)|]
            == StorableAmong(front, forbidden);
      }
    }
  }

  /** Runs with the same valid observations in the same order recall the same: refused ones never matter, nor does batching. */
  lemma RefusedObservationsNeverMatter(a: seq<seq<Observation>>, b: seq<seq<Observation>>, q: Query, forbidden: TextTest)
    requires StorableAmong(All(a), forbidden) == StorableAmong(All(b), forbidden)
    ensures Recalled(LogAfter(a, forbidden), q, forbidden) == Recalled(LogAfter(b, forbidden), q, forbidden)
  {
    RecallIsExact(a, q, forbidden);
    RecallIsExact(b, q, forbidden);
    OnlyStorableCount(All(a), q, forbidden);
    OnlyStorableCount(All(b), q, forbidden);
  }

  // ---------- Any log at all ----------

  predicate Clean(p: Prior, q: Query, forbidden: TextTest) {
    && p.kind in KINDS && p.task in TASKS && p.task in q.tasks && p.recommendation in RECOMMENDATIONS
    && (p.family.Some? ==> p.family.value == q.family && !forbidden(q.family))
    && (p.category.Some? ==> p.category.value == q.category && !forbidden(q.category))
    && !forbidden(p.kind) && !forbidden(p.task) && !forbidden(p.recommendation)
    && 0.0 <= p.confidence <= 1.0
  }

  lemma {:induction false} PriorsAreClean(log: seq<Line>, q: Query, forbidden: TextTest)
    ensures forall p :: p in PriorsIn(log, q, forbidden) ==> Clean(p, q, forbidden)
  {
    if log != [] {
      PriorsAreClean(log[..|log| - 1], q, forbidden);
    }
  }

  /** Whatever is in the file, a recall yields only known vocabulary about the query, without forbidden text. */
  lemma RecallIsClean(log: seq<Line>, q: Query, forbidden: TextTest, p: Prior)
    requires p in Recalled(log, q, forbidden)
    ensures Clean(p, q, forbidden)
  {
    SortedMembers(PriorsIn(log, q, forbidden), PriorLeq, p);
    PriorsAreClean(log, q, forbidden);
  }

  /** Storing more never loses a prior. */
  lemma RecallOnlyGrows(log: seq<Line>, more: seq<Line>, q: Query, forbidden: TextTest)
    ensures multiset(Recalled(log, q, forbidden)) <= multiset(Recalled(log + more, q, forbidden))
  {
    PriorsAppend(log, more, q, forbidden);
    SortedPermutes(PriorsIn(log, q, forbidden), PriorLeq);
    SortedPermutes(PriorsIn(log + more, q, forbidden), PriorLeq);
  }

  /** A recall is sorted by task, then kind, family, category (an absent one before any other) and recommendation. */
  lemma RecallIsSorted(log: seq<Line>, q: Query, forbidden: TextTest, i: nat, j: nat)
    requires i < j < |Recalled(log, q, forbidden)|
    ensures var a, b := Recalled(log, q, forbidden)[i], Recalled(log, q, forbidden)[j];
            TupleLeq([a.task, a.kind, Given(a.family), Given(a.category), a.recommendation],
                     [b.task, b.kind, Given(b.family), Given(b.category), b.recommendation])
  {
    PriorOrder();
    SortedIsSorted(PriorsIn(log, q, forbidden), PriorLeq);
  }

  function Given(o: Option<string>): string {
    match o
    case Some(s) => s
    case None => ""
  }

  /** A valid record about the query is recalled field by field; confidence is a number within the unit, or one. */
  lemma RecordIsRecalled(r: Record, q: Query, forbidden: TextTest)
    requires Validate(r, forbidden).None? && Relevant(r, q)
    ensures var p := PriorOf(r);
            && r[Kind] == Str(p.kind) && r[Task] == Str(p.task) && r[Recommendation] == Str(p.recommendation)
            && (p.family.None? || (Family in r && r[Family] == Str(p.family.value)))
            && (p.category.None? || (Category in r && r[Category] == Str(p.category.value)))
            && (Confidence in r && r[Confidence].Num? && 0.0 <= r[Confidence].number <= 1.0 ==> p.confidence == r[Confidence].number)
            && (Confidence !in r ==> p.confidence == 1.0)
    ensures PriorsIn([Entry(r)], q, forbidden) == [PriorOf(r)]
  {
    assert [Entry(r)][..0] == [];
  }
}
