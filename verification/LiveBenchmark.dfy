/** A live benchmark run: every policy answers every example, and what is stored about it. */
module LiveBenchmark {
  import opened Options
  import opened Text
  import opened Arithmetic
  import opened Evaluation

  /** The metadata keys the runner and the table builder read. */
  datatype Field =
    | LiveModelCalls | IsDeterministic | PromptTokens | CompletionTokens | TotalTokens | LatencyMs | CostUsd
    | TraceguardRejected | RepairCount | EvidenceHandles
    | RunMode | PolicyNames | TotalCostUsd | PolicyName | ExampleCount
    | MeanExact | MeanContains | MeanPrecision | MeanRecall | MeanF1 | MeanUnsupported | AbstentionRate
    | Other(name: string)

  /** A decoded JSON value, integers and other numbers apart. */
  datatype Datum = Absent | Flag(b: bool) | Whole(n: int) | Decimal(x: real) | Words(s: string) | Listing(items: seq<Datum>)

  type Meta = map<Field, Datum>

  function Read(m: Meta, f: Field): Datum {
    if f in m then m[f] else Absent
  }

  predicate NonNegativeInt(d: Datum) {
    d.Whole? && d.n >= 0
  }

  predicate NonNegativeNumber(d: Datum) {
    (d.Whole? && d.n >= 0) || (d.Decimal? && d.x >= 0.0)
  }

  function NumberOf(d: Datum): real {
    match d
    case Whole(n) => n as real
    case Decimal(x) => x
    case _ => 0.0
  }

  function IntOf(d: Datum): int {
    if d.Whole? then d.n else 0
  }

  datatype PolicyResult = PolicyResult(answered: Answered, metadata: Meta)

  const HANDLE_PREFIX: string := "child:"

  function Handles(cited: seq<string>): set<string> {
    set c | c in cited :: HANDLE_PREFIX + c
  }

  predicate HandlesMatch(d: Datum, cited: seq<string>) {
    && d.Listing? && d.items != []
    && (forall i :: 0 <= i < |d.items| ==> d.items[i].Words? && HANDLE_PREFIX <= d.items[i].s)
    && (forall i, j :: 0 <= i < j < |d.items| ==> d.items[i] != d.items[j])
    && (set i | i in d.items && i.Words? :: i.s) == Handles(cited)
  }

  predicate ValidLiveResult(r: PolicyResult) {
    var m := r.metadata;
    && Read(m, LiveModelCalls).Whole? && Read(m, LiveModelCalls).n > 0
    && Read(m, IsDeterministic) == Flag(false)
    && NonNegativeInt(Read(m, PromptTokens)) && NonNegativeInt(Read(m, CompletionTokens))
    && NonNegativeInt(Read(m, TotalTokens))
    && Read(m, TotalTokens).n == Read(m, PromptTokens).n + Read(m, CompletionTokens).n
    && NonNegativeNumber(Read(m, LatencyMs)) && NonNegativeNumber(Read(m, CostUsd))
    && Read(m, TraceguardRejected).Flag?
    && NonNegativeInt(Read(m, RepairCount))
    && HandlesMatch(Read(m, EvidenceHandles), r.answered.cited)
  }

  // ---------- The run ----------

  /** What policy `j` answers for example `i`; None when it fails. */
  type Answers = (nat, nat) -> Option<PolicyResult>

  datatype Run = Run(exampleIds: seq<string>, policyNames: seq<string>, results: seq<PolicyResult>,
                     evaluations: seq<Scores>, summaries: seq<PolicySummary>)

  /** One accepted answer with its scores. */
  datatype Scored = Scored(result: PolicyResult, scores: Scores)

  function Score(e: Example, answer: Option<PolicyResult>, fold: Folding): Option<Scored>
    requires ValidExample(e)
  {
    if answer.None? || !ValidLiveResult(answer.value) then None
    else match Evaluate(e, answer.value.answered, fold)
      case Some(scores) => Some(Scored(answer.value, scores))
      case None => None
  }

  /** What a run is given. */
  datatype Setup = Setup(examples: seq<Example>, policyNames: seq<string>, answers: Answers, fold: Folding) {
    ghost predicate Valid() {
      forall i :: 0 <= i < |examples| ==> ValidExample(examples[i])
    }
  }

  /** The `k`-th answer in the order of the nested loops. */
  function ScoreAt(s: Setup, k: nat): Option<Scored>
    requires s.Valid()
  {
    var width := |s.policyNames|;
    if width == 0 || k / width >= |s.examples| then None
    else Score(s.examples[k / width], s.answers(k / width, k % width), s.fold)
  }

  ghost predicate Collected(results: seq<PolicyResult>, evaluations: seq<Scores>, s: Setup)
    requires s.Valid()
  {
    && |results| == |evaluations|
    && forall k :: 0 <= k < |results| ==> ScoreAt(s, k) == Some(Scored(results[k], evaluations[k]))
  }

  lemma CollectedExtend(results: seq<PolicyResult>, evaluations: seq<Scores>, s: Setup, scored: Scored)
    requires s.Valid() && Collected(results, evaluations, s) && ScoreAt(s, |results|) == Some(scored)
    ensures Collected(results + [scored.result], evaluations + [scored.scores], s)
  {
    forall k | 0 <= k <= |results|
      ensures ScoreAt(s, k) == Some(Scored((results + [scored.result])[k], (evaluations + [scored.scores])[k]))
    {
      if k < |results| {
        assert ScoreAt(s, k) == Some(Scored(results[k], evaluations[k]));
      }
    }
  }

  ghost predicate GroupedBy(grouped: map<string, seq<Scores>>, evaluations: seq<Scores>) {
    && (forall p :: p in grouped <==> p in Names(evaluations))
    && (forall p :: p in grouped ==> grouped[p] == Group(evaluations, p))
  }

  function GroupSoFar(grouped: map<string, seq<Scores>>, p: string): seq<Scores> {
    if p in grouped then grouped[p] else []
  }

  lemma GroupedExtend(grouped: map<string, seq<Scores>>, evaluations: seq<Scores>, e: Scores)
    requires GroupedBy(grouped, evaluations)
    ensures GroupedBy(grouped[e.policyName := GroupSoFar(grouped, e.policyName) + [e]], evaluations + [e])
  {
    var all := evaluations + [e];
    assert all[..|evaluations|] == evaluations;
    assert Names(all) == Names(evaluations) + [e.policyName];
    GroupMembers(evaluations, e.policyName);
    forall p ensures Group(all, p) == Group(evaluations, p) + if e.policyName == p then [e] else [] {
    }
  }

  method GroupEvaluations(evaluations: seq<Scores>) returns (grouped: map<string, seq<Scores>>)
    ensures GroupedBy(grouped, evaluations)
  {
    grouped := map[];
    for k := 0 to |evaluations|
      invariant GroupedBy(grouped, evaluations[..k])
    {
      var e := evaluations[k];
      GroupedExtend(grouped, evaluations[..k], e);
      assert evaluations[..k] + [e] == evaluations[..k + 1];
      grouped := grouped[e.policyName := GroupSoFar(grouped, e.policyName) + [e]];
    }
    assert evaluations[..|evaluations|] == evaluations;
  }

  /** Summaries in policy order; None when some policy has no result of its name. */
  method AggregateStable(evaluations: seq<Scores>, policyNames: seq<string>) returns (summaries: Option<seq<PolicySummary>>)
    ensures summaries.Some? <==> forall p :: p in policyNames ==> p in Names(evaluations)
    ensures summaries.Some? ==> SummariesOf(summaries.value, evaluations, policyNames)
  {
    var grouped := GroupEvaluations(evaluations);
    var listed: seq<PolicySummary> := [];
    for j := 0 to |policyNames|
      invariant forall i :: 0 <= i < j ==> policyNames[i] in grouped
      invariant SummariesOf(listed, evaluations, policyNames[..j])
    {
      var p := policyNames[j];
      if p !in grouped {
        return None;
      }
      SummariesExtend(listed, evaluations, policyNames[..j], p);
      assert policyNames[..j + 1] == policyNames[..j] + [p];
      listed := listed + [Summary(p, grouped[p])];
    }
    assert policyNames[..|policyNames|] == policyNames;
    return Some(listed);
  }

  lemma SummariesExtend(listed: seq<PolicySummary>, evaluations: seq<Scores>, names: seq<string>, p: string)
    requires SummariesOf(listed, evaluations, names) && p in Names(evaluations)
    ensures Group(evaluations, p) != []
    ensures SummariesOf(listed + [Summary(p, Group(evaluations, p))], evaluations, names + [p])
  {
    GroupMembers(evaluations, p);
  }

  ghost predicate SummariesOf(summaries: seq<PolicySummary>, evaluations: seq<Scores>, policyNames: seq<string>) {
    && |summaries| == |policyNames|
    && forall j :: 0 <= j < |policyNames| ==>
         && Group(evaluations, policyNames[j]) != []
         && summaries[j] == Summary(policyNames[j], Group(evaluations, policyNames[j]))
  }

  /** Every answer is there and valid, and every policy has a result of its name. */
  ghost predicate Completes(s: Setup)
    requires s.Valid()
  {
    && s.policyNames != [] && "" !in s.policyNames && s.examples != []
    && (forall k :: 0 <= k < |s.examples| * |s.policyNames| ==> ScoreAt(s, k).Some?)
    && forall p :: p in s.policyNames ==>
         exists k :: 0 <= k < |s.examples| * |s.policyNames| && ScoreAt(s, k).value.scores.policyName == p
  }

  /** What a finished run holds, whatever the policies answered. */
  ghost predicate WellMade(run: Run) {
    && run.policyNames != [] && "" !in run.policyNames
    && run.results != [] && |run.evaluations| == |run.results|
    && (forall k :: 0 <= k < |run.results| ==>
          && ValidLiveResult(run.results[k])
          && run.evaluations[k].policyName == run.results[k].answered.policyName != ""
          && Sound(run.evaluations[k]))
    && SummariesOf(run.summaries, run.evaluations, run.policyNames)
  }

  lemma ScoreIsSound(s: Setup, k: nat)
    requires s.Valid() && ScoreAt(s, k).Some?
    ensures var r := ScoreAt(s, k).value;
            ValidLiveResult(r.result) && Sound(r.scores) && r.scores.policyName == r.result.answered.policyName != ""
  {
    EvaluateIsSound(s.examples[k / |s.policyNames|], ScoreAt(s, k).value.result.answered, s.fold);
  }

  /** An answer comes from the example and the policy at its place, and is scored under its own name. */
  lemma ScoreSource(s: Setup, k: nat)
    requires s.Valid() && ScoreAt(s, k).Some?
    ensures var width, r := |s.policyNames|, ScoreAt(s, k).value;
            && width > 0 && k / width < |s.examples|
            && r.scores.exampleId == s.examples[k / width].id
            && s.answers(k / width, k % width) == Some(r.result)
            && r.scores.policyName == r.result.answered.policyName
  {
  }

  /** One step of the nested loops. */
  method RunPolicy(s: Setup, i: nat, j: nat, ghost k: nat) returns (scored: Option<Scored>)
    requires s.Valid() && i < |s.examples| && j < |s.policyNames| && k == i * |s.policyNames| + j
    ensures scored == ScoreAt(s, k)
  {
    DivModUnique(k, |s.policyNames|, i, j);
    var answer := s.answers(i, j);
    if answer.None? || !ValidLiveResult(answer.value) {
      return None;
    }
    var scores := Evaluate(s.examples[i], answer.value.answered, s.fold);
    if scores.None? {
      return None;
    }
    return Some(Scored(answer.value, scores.value));
  }

  /** The nested loops: every policy on every example, stopping at the first answer that is missing or invalid. */
  method CollectResults(s: Setup) returns (failed: bool, results: seq<PolicyResult>, evaluations: seq<Scores>)
    requires s.Valid()
    ensures Collected(results, evaluations, s)
    ensures !failed ==> |results| == |s.examples| * |s.policyNames|
    ensures failed ==> |results| < |s.examples| * |s.policyNames| && ScoreAt(s, |results|).None?
  {
    failed, results, evaluations := false, [], [];
    for i := 0 to |s.examples|
      invariant |results| == i * |s.policyNames| && Collected(results, evaluations, s)
    {
      MulStep(i, |s.examples|, |s.policyNames|);
      for j := 0 to |s.policyNames|
        invariant |results| == i * |s.policyNames| + j && Collected(results, evaluations, s)
      {
        var scored := RunPolicy(s, i, j, |results|);
        if scored.None? {
          failed := true;
          return;
        }
        CollectedExtend(results, evaluations, s, scored.value);
        results := results + [scored.value.result];
        evaluations := evaluations + [scored.value.scores];
      }
    }
  }

  /** Results and scores are those of the nested loops, in their order. */
  ghost predicate IsRunOf(run: Run, s: Setup)
    requires s.Valid()
  {
    && run.policyNames == s.policyNames && run.exampleIds == ExampleIds(s.examples)
    && |run.results| == |s.examples| * |s.policyNames|
    && Collected(run.results, run.evaluations, s)
  }

  lemma RunIsWellMade(run: Run, s: Setup)
    requires s.Valid() && s.examples != [] && s.policyNames != [] && "" !in s.policyNames
    requires IsRunOf(run, s) && SummariesOf(run.summaries, run.evaluations, run.policyNames)
    ensures WellMade(run)
  {
    MulStep(0, |s.examples|, |s.policyNames|);
    forall k | 0 <= k < |run.results|
      ensures ValidLiveResult(run.results[k]) && Sound(run.evaluations[k])
      ensures run.evaluations[k].policyName == run.results[k].answered.policyName != ""
    {
      assert ScoreAt(s, k) == Some(Scored(run.results[k], run.evaluations[k]));
      ScoreIsSound(s, k);
    }
  }

  lemma NamedIffScored(results: seq<PolicyResult>, evaluations: seq<Scores>, s: Setup)
    requires s.Valid() && s.policyNames != [] && "" !in s.policyNames && s.examples != []
    requires Collected(results, evaluations, s) && |results| == |s.examples| * |s.policyNames|
    ensures Completes(s) <==> forall p :: p in s.policyNames ==> p in Names(evaluations)
  {
    forall k | 0 <= k < |results|
      ensures ScoreAt(s, k) == Some(Scored(results[k], evaluations[k]))
      ensures Names(evaluations)[k] == evaluations[k].policyName
    {
    }
  }

  function ExampleIds(examples: seq<Example>): seq<string> {
    seq(|examples|, i requires 0 <= i < |examples| => examples[i].id)
  }

  // ---------- What is stored ----------

  datatype Row = Row(exampleId: string, result: PolicyResult)

  /** The files of a run as records. */
  datatype Stored = Stored(metadata: Meta, summaries: seq<Meta>, rows: seq<Row>)

  function RowAt(results: seq<PolicyResult>, exampleIds: seq<string>, width: nat, k: nat): Row
    requires k < |results|
  {
    Row(if width > 0 && k / width < |exampleIds| then exampleIds[k / width] else "", results[k])
  }

  function RowsOf(results: seq<PolicyResult>, exampleIds: seq<string>, width: nat): seq<Row> {
    seq(|results|, k requires 0 <= k < |results| => RowAt(results, exampleIds, width, k))
  }

  method PolicyResultRows(results: seq<PolicyResult>, exampleIds: seq<string>, width: nat) returns (rows: seq<Row>)
    requires |results| == |exampleIds| * width
    ensures rows == RowsOf(results, exampleIds, width)
  {
    rows := [];
    for k := 0 to |results|
      invariant rows == RowsOf(results, exampleIds, width)[..k]
    {
      WithinWidth(k, |exampleIds|, width);
      rows := rows + [Row(exampleIds[k / width], results[k])];
    }
  }

  lemma WithinWidth(k: nat, count: nat, width: nat)
    requires k < count * width
    ensures width > 0 && k / width < count
  {
  }

  function SumInt(results: seq<PolicyResult>, f: Field): int {
    if results == [] then 0
    else SumInt(results[..|results| - 1], f) + IntOf(Read(results[|results| - 1].metadata, f))
  }

  function SumNumber(results: seq<PolicyResult>, f: Field): real {
    if results == [] then 0.0
    else SumNumber(results[..|results| - 1], f) + NumberOf(Read(results[|results| - 1].metadata, f))
  }

  function NamesListing(names: seq<string>): Datum {
    Listing(seq(|names|, i requires 0 <= i < |names| => Words(names[i])))
  }

  function SummaryRecord(p: PolicySummary): Meta {
    map[PolicyName := Words(p.policyName), ExampleCount := Whole(p.exampleCount), MeanExact := Decimal(p.exact),
        MeanContains := Decimal(p.contains), MeanPrecision := Decimal(p.precision), MeanRecall := Decimal(p.recall),
        MeanF1 := Decimal(p.f1), MeanUnsupported := Decimal(p.unsupported), AbstentionRate := Decimal(p.abstention)]
  }

  function SummaryRecords(summaries: seq<PolicySummary>): seq<Meta> {
    seq(|summaries|, i requires 0 <= i < |summaries| => SummaryRecord(summaries[i]))
  }

  function RunRecord(run: Run): Meta {
    map[ExampleCount := Whole(|run.exampleIds|), PolicyNames := NamesListing(run.policyNames), RunMode := Words("live"),
        IsDeterministic := Flag(false), LiveModelCalls := Whole(SumInt(run.results, LiveModelCalls)),
        TotalTokens := Whole(SumInt(run.results, TotalTokens)), TotalCostUsd := Decimal(SumNumber(run.results, CostUsd))]
  }

  function StoredOf(run: Run): Stored {
    Stored(RunRecord(run), SummaryRecords(run.summaries), RowsOf(run.results, run.exampleIds, |run.policyNames|))
  }

  method WriteLiveOutputs(run: Run) returns (stored: Stored)
    requires |run.results| == |run.exampleIds| * |run.policyNames|
    ensures stored == StoredOf(run)
  {
    var rows := PolicyResultRows(run.results, run.exampleIds, |run.policyNames|);
    stored := Stored(RunRecord(run), SummaryRecords(run.summaries), rows);
  }

  /** Runs the benchmark and stores it; None when an answer is missing or invalid, or a policy has no result of its name. */
  method RunLiveBenchmark(s: Setup) returns (run: Option<Run>, stored: Option<Stored>)
    requires s.Valid()
    ensures run.Some? <==> Completes(s)
    ensures run.Some? ==> IsRunOf(run.value, s) && WellMade(run.value) && stored == Some(StoredOf(run.value))
  {
    run, stored := None, None;
    if s.policyNames == [] || "" in s.policyNames || s.examples == [] {
      return;
    }
    var failed, results, evaluations := CollectResults(s);
    if failed {
      return;
    }
    var summaries := AggregateStable(evaluations, s.policyNames);
    NamedIffScored(results, evaluations, s);
    if summaries.None? {
      return;
    }
    run := Some(Run(ExampleIds(s.examples), s.policyNames, results, evaluations, summaries.value));
    RunIsWellMade(run.value, s);
    var written := WriteLiveOutputs(run.value);
    stored := Some(written);
  }

  lemma RowAtIs(results: seq<PolicyResult>, examples: seq<Example>, width: nat, k: nat)
    requires k < |results| && width > 0 && k / width < |examples|
    ensures RowAt(results, ExampleIds(examples), width, k) == Row(examples[k / width].id, results[k])
  {
  }

  lemma EntryIsScored(results: seq<PolicyResult>, evaluations: seq<Scores>, s: Setup, k: nat)
    requires s.Valid() && Collected(results, evaluations, s) && k < |results|
    ensures ScoreAt(s, k) == Some(Scored(results[k], evaluations[k]))
  {
  }

  /** The stored row `k` names the example whose answer it holds, and whose scores the `k`-th evaluation holds. */
  lemma RowsNameTheirExample(run: Run, s: Setup, k: nat)
    requires s.Valid() && IsRunOf(run, s) && k < |run.results|
    ensures var width, row := |s.policyNames|, RowAt(run.results, run.exampleIds, |run.policyNames|, k);
            && width > 0 && k / width < |s.examples|
            && row.exampleId == s.examples[k / width].id == run.evaluations[k].exampleId
            && s.answers(k / width, k % width) == Some(row.result)
            && run.evaluations[k].policyName == row.result.answered.policyName
  {
    EntryIsScored(run.results, run.evaluations, s, k);
    ScoreSource(s, k);
    RowAtIs(run.results, s.examples, |s.policyNames|, k);
  }
}
