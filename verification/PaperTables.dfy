/** The table builder's checks on a stored live run, and which runs they accept. */
module PaperTables {
  import opened Options
  import opened Text
  import opened Evaluation
  import opened Arithmetic
  import opened LiveBenchmark

  // ---------- Usage per policy ----------

  datatype Usage = Usage(examples: nat, calls: int, tokens: int, cost: real, rejects: nat, repairs: int)

  const NO_USAGE := Usage(0, 0, 0, 0.0, 0, 0)

  function Plus(a: Usage, b: Usage): Usage {
    Usage(a.examples + b.examples, a.calls + b.calls, a.tokens + b.tokens, a.cost + b.cost, a.rejects + b.rejects,
          a.repairs + b.repairs)
  }

  function NameOf(row: Row): string {
    row.result.answered.policyName
  }

  predicate ValidRow(row: Row) {
    var m := row.result.metadata;
    && NameOf(row) != ""
    && NonNegativeInt(Read(m, LiveModelCalls)) && NonNegativeInt(Read(m, TotalTokens))
    && NonNegativeNumber(Read(m, CostUsd))
    && Read(m, TraceguardRejected).Flag? && NonNegativeInt(Read(m, RepairCount))
  }

  function RowUsage(row: Row): Usage {
    var m := row.result.metadata;
    Usage(1, IntOf(Read(m, LiveModelCalls)), IntOf(Read(m, TotalTokens)), NumberOf(Read(m, CostUsd)),
          if Read(m, TraceguardRejected) == Flag(true) then 1 else 0, IntOf(Read(m, RepairCount)))
  }

  function UsageFor(rows: seq<Row>, name: string): Usage {
    if rows == [] then NO_USAGE
    else
      var last, before := rows[|rows| - 1], UsageFor(rows[..|rows| - 1], name);
      if NameOf(last) == name then Plus(before, RowUsage(last)) else before
  }

  function TotalUsage(rows: seq<Row>): Usage {
    if rows == [] then NO_USAGE else Plus(TotalUsage(rows[..|rows| - 1]), RowUsage(rows[|rows| - 1]))
  }

  function RowNames(rows: seq<Row>): seq<string> {
    seq(|rows|, i requires 0 <= i < |rows| => NameOf(rows[i]))
  }

  /** The dictionary of a run's usage, its keys in the order they were first met. */
  datatype UsageTable = UsageTable(order: seq<string>, usage: map<string, Usage>)

  ghost predicate Tabulates(t: UsageTable, rows: seq<Row>) {
    && t.order == Dedup(RowNames(rows))
    && (forall n :: n in t.usage <==> n in RowNames(rows))
    && (forall n :: n in t.usage ==> t.usage[n] == UsageFor(rows, n))
  }

  function Tallied(t: UsageTable, row: Row): UsageTable {
    var n := NameOf(row);
    if n in t.usage then t.(usage := t.usage[n := Plus(t.usage[n], RowUsage(row))])
    else UsageTable(t.order + [n], t.usage[n := RowUsage(row)])
  }

  lemma UsageForAbsent(rows: seq<Row>, n: string)
    requires n !in RowNames(rows)
    ensures UsageFor(rows, n) == NO_USAGE
  {
    if rows != [] {
      var front := rows[..|rows| - 1];
      assert RowNames(rows) == RowNames(front) + [NameOf(rows[|rows| - 1])];
      UsageForAbsent(front, n);
    }
  }

  lemma RowNamesSnoc(rows: seq<Row>, row: Row)
    ensures RowNames(rows + [row]) == RowNames(rows) + [NameOf(row)]
    ensures Dedup(RowNames(rows + [row]))
            == Dedup(RowNames(rows)) + if NameOf(row) in RowNames(rows) then [] else [NameOf(row)]
  {
    var names := RowNames(rows + [row]);
    assert names == RowNames(rows) + [NameOf(row)];
    assert names[..|names| - 1] == RowNames(rows);
  }

  lemma UsageForSnoc(rows: seq<Row>, row: Row, n: string)
    ensures UsageFor(rows + [row], n)
            == if NameOf(row) == n then Plus(UsageFor(rows, n), RowUsage(row)) else UsageFor(rows, n)
  {
    assert (rows + [row])[..|rows|] == rows;
  }

  lemma TalliedTabulates(t: UsageTable, rows: seq<Row>, row: Row)
    requires Tabulates(t, rows)
    ensures Tabulates(Tallied(t, row), rows + [row])
  {
    TalliedOrder(t, rows, row);
    forall n ensures TalliedAt(Tallied(t, row), rows + [row], n) {
      TalliedKeeps(t, rows, row, n);
    }
    TabulatesIff(Tallied(t, row), rows + [row]);
  }

  ghost predicate TalliedAt(t: UsageTable, rows: seq<Row>, n: string) {
    (n in t.usage <==> n in RowNames(rows)) && (n in t.usage ==> t.usage[n] == UsageFor(rows, n))
  }

  lemma TabulatesIff(t: UsageTable, rows: seq<Row>)
    requires t.order == Dedup(RowNames(rows)) && forall n :: TalliedAt(t, rows, n)
    ensures Tabulates(t, rows)
  {
    forall n ensures (n in t.usage <==> n in RowNames(rows)) && (n in t.usage ==> t.usage[n] == UsageFor(rows, n)) {
      assert TalliedAt(t, rows, n);
    }
  }

  lemma TalliedOrder(t: UsageTable, rows: seq<Row>, row: Row)
    requires Tabulates(t, rows)
    ensures Tallied(t, row).order == Dedup(RowNames(rows + [row]))
  {
    RowNamesSnoc(rows, row);
  }

  lemma TalliedKeeps(t: UsageTable, rows: seq<Row>, row: Row, n: string)
    requires Tabulates(t, rows)
    ensures TalliedAt(Tallied(t, row), rows + [row], n)
  {
    assert TalliedAt(t, rows, n) && TalliedAt(t, rows, NameOf(row));
    RowNamesSnoc(rows, row);
    UsageForSnoc(rows, row, n);
    if NameOf(row) !in RowNames(rows) {
      UsageForAbsent(rows, NameOf(row));
      PlusNothing(RowUsage(row));
    }
  }

  lemma PlusNothing(u: Usage)
    ensures Plus(NO_USAGE, u) == u
  {
  }

  ghost predicate AllValid(rows: seq<Row>) {
    forall r :: r in rows ==> ValidRow(r)
  }

  function Tabulate(rows: seq<Row>): UsageTable {
    if rows == [] then UsageTable([], map[]) else Tallied(Tabulate(rows[..|rows| - 1]), rows[|rows| - 1])
  }

  /** The dictionary built row by row holds each policy's own sum. */
  lemma {:induction false} TabulateTabulates(rows: seq<Row>)
    ensures Tabulates(Tabulate(rows), rows)
  {
    if rows == [] {
      assert RowNames(rows) == [];
    } else {
      var front, last := rows[..|rows| - 1], rows[|rows| - 1];
      assert front + [last] == rows;
      TabulateTabulates(front);
      TalliedTabulates(Tabulate(front), front, last);
    }
  }

  /** Adds up usage per policy; None when a row lacks a field it needs. */
  method UsageByPolicy(rows: seq<Row>) returns (table: Option<UsageTable>)
    ensures table.Some? <==> AllValid(rows)
    ensures table.Some? ==> table.value == Tabulate(rows)
  {
    var t := UsageTable([], map[]);
    for k := 0 to |rows|
      invariant t == Tabulate(rows[..k])
      invariant AllValid(rows[..k])
    {
      if !ValidRow(rows[k]) {
        assert rows[k] in rows;
        return None;
      }
      assert rows[..k + 1][..k] == rows[..k];
      t := Tallied(t, rows[k]);
    }
    assert rows[..|rows|] == rows;
    return Some(t);
  }

  function SumUsage(rows: seq<Row>, names: seq<string>): Usage {
    if names == [] then NO_USAGE else Plus(SumUsage(rows, names[..|names| - 1]), UsageFor(rows, names[|names| - 1]))
  }

  lemma {:induction false} OneMoreRow(rows: seq<Row>, row: Row, names: seq<string>)
    requires Distinct(names)
    ensures SumUsage(rows + [row], names)
            == if NameOf(row) in names then Plus(SumUsage(rows, names), RowUsage(row)) else SumUsage(rows, names)
  {
    assert (rows + [row])[..|rows|] == rows;
    if names != [] {
      var front, last := names[..|names| - 1], names[|names| - 1];
      assert names == front + [last];
      OneMoreRow(rows, row, front);
    }
  }

  lemma {:induction false} NoRows(rows: seq<Row>, names: seq<string>)
    requires rows == []
    ensures SumUsage(rows, names) == NO_USAGE
  {
    if names != [] {
      NoRows(rows, names[..|names| - 1]);
      NoRowsNoUsage(rows, names[|names| - 1]);
      PlusNothing(NO_USAGE);
    }
  }

  lemma NoRowsNoUsage(rows: seq<Row>, name: string)
    requires rows == []
    ensures UsageFor(rows, name) == NO_USAGE
  {
  }

  /** Usage summed policy by policy is usage summed row by row, over any distinct names that cover the rows. */
  lemma {:induction false} UsageIsConserved(rows: seq<Row>, names: seq<string>)
    requires Distinct(names) && forall r :: r in rows ==> NameOf(r) in names
    ensures SumUsage(rows, names) == TotalUsage(rows)
  {
    if rows == [] {
      NoRows(rows, names);
    } else {
      var front, last := rows[..|rows| - 1], rows[|rows| - 1];
      assert rows == front + [last];
      UsageIsConserved(front, names);
      OneMoreRow(front, last, names);
    }
  }

  // ---------- The checks ----------

  predicate LiveMetadataOk(m: Meta) {
    && Read(m, RunMode) == Words("live")
    && Read(m, IsDeterministic) == Flag(false)
    && Read(m, LiveModelCalls).Whole? && Read(m, LiveModelCalls).n > 0
    && NonNegativeNumber(Read(m, TotalTokens)) && NonNegativeNumber(Read(m, TotalCostUsd))
  }

  predicate Named(d: Datum) {
    d.Words? && d.s != ""
  }

  function NameIn(summary: Meta): string {
    match Read(summary, PolicyName)
    case Words(s) => s
    case _ => ""
  }

  function SummaryNames(summaries: seq<Meta>): seq<string> {
    seq(|summaries|, i requires 0 <= i < |summaries| => NameIn(summaries[i]))
  }

  /** The policy names in the metadata are non-empty, distinct, and those of the summaries. */
  predicate MetadataNamesOk(d: Datum, names: seq<string>) {
    && d.Listing?
    && (forall i :: 0 <= i < |d.items| ==> Named(d.items[i]))
    && (forall i, j :: 0 <= i < j < |d.items| ==> d.items[i] != d.items[j])
    && (set i | i in d.items && i.Words? :: i.s) == Members(names)
  }

  predicate CountOk(summary: Meta, t: UsageTable) {
    var count := Read(summary, ExampleCount);
    count.Whole? && count.n > 0 && NameIn(summary) in t.usage && t.usage[NameIn(summary)].examples == count.n
  }

  function TableTotal(t: UsageTable, names: seq<string>): Usage {
    if names == [] then NO_USAGE
    else
      var last, before := names[|names| - 1], TableTotal(t, names[..|names| - 1]);
      if last in t.usage then Plus(before, t.usage[last]) else before
  }

  /** How far the recorded cost may be from the sum over the rows. */
  const COST_TOLERANCE: real := 0.000000000001

  predicate CostAgrees(total: real, recorded: real) {
    -COST_TOLERANCE <= total - recorded <= COST_TOLERANCE
  }

  predicate UsageConsistent(m: Meta, summaries: seq<Meta>, t: UsageTable) {
    var total := TableTotal(t, t.order);
    && (forall i :: 0 <= i < |summaries| ==> Named(Read(summaries[i], PolicyName)))
    && Distinct(SummaryNames(summaries))
    && Members(SummaryNames(summaries)) == t.usage.Keys
    && MetadataNamesOk(Read(m, PolicyNames), SummaryNames(summaries))
    && (forall i :: 0 <= i < |summaries| ==> CountOk(summaries[i], t))
    && total.calls == IntOf(Read(m, LiveModelCalls))
    && total.tokens as real == NumberOf(Read(m, TotalTokens))
    && CostAgrees(total.cost, NumberOf(Read(m, TotalCostUsd)))
  }

  const METRICS: seq<Field> := [MeanExact, MeanContains, MeanPrecision, MeanRecall, MeanF1, MeanUnsupported, AbstentionRate]

  predicate MetricsOk(summary: Meta) {
    forall f :: f in METRICS ==> NonNegativeNumber(Read(summary, f))
  }

  datatype TableRow = TableRow(policyName: string, usage: Usage, rejectRate: real, meanRepairs: real, metrics: seq<Datum>)

  function TableRowOf(summary: Meta, u: Usage): TableRow
    requires u.examples > 0
  {
    TableRow(NameIn(summary), u, u.rejects as real / u.examples as real, u.repairs as real / u.examples as real,
             seq(|METRICS|, i requires 0 <= i < |METRICS| => Read(summary, METRICS[i])))
  }

  /** The rows of a live run, in summary order. */
  ghost predicate RowsFor(table: seq<TableRow>, summaries: seq<Meta>, rows: seq<Row>) {
    && |table| == |summaries|
    && forall i :: 0 <= i < |table| ==> IsRowFor(table[i], summaries[i], rows)
  }

  ghost predicate IsRowFor(row: TableRow, summary: Meta, rows: seq<Row>) {
    var u := UsageFor(rows, NameIn(summary));
    u.examples > 0 && row == TableRowOf(summary, u)
  }

  lemma TableRowIsFor(summary: Meta, rows: seq<Row>, t: UsageTable)
    requires Tabulates(t, rows) && CountOk(summary, t)
    ensures IsRowFor(TableRowOf(summary, t.usage[NameIn(summary)]), summary, rows)
  {
  }

  ghost predicate AllMetricsOk(summaries: seq<Meta>) {
    forall i :: 0 <= i < |summaries| ==> MetricsOk(summaries[i])
  }

  ghost predicate Accepted(stored: Stored) {
    && LiveMetadataOk(stored.metadata) && AllValid(stored.rows)
    && UsageConsistent(stored.metadata, stored.summaries, Tabulate(stored.rows))
    && AllMetricsOk(stored.summaries)
  }

  /** The rows of the paper table for a stored live run; None when a check fails. */
  method RowsFromLiveRun(stored: Stored) returns (table: Option<seq<TableRow>>)
    ensures table.Some? <==> Accepted(stored)
    ensures table.Some? ==> RowsFor(table.value, stored.summaries, stored.rows)
  {
    if !LiveMetadataOk(stored.metadata) {
      return None;
    }
    var tabulated := UsageByPolicy(stored.rows);
    if tabulated.None? || !UsageConsistent(stored.metadata, stored.summaries, tabulated.value) {
      return None;
    }
    TabulateTabulates(stored.rows);
    table := SummaryRows(stored.summaries, stored.rows, tabulated.value);
  }

  method SummaryRows(summaries: seq<Meta>, ghost rows: seq<Row>, t: UsageTable) returns (table: Option<seq<TableRow>>)
    requires Tabulates(t, rows) && forall i :: 0 <= i < |summaries| ==> CountOk(summaries[i], t)
    ensures table.Some? <==> AllMetricsOk(summaries)
    ensures table.Some? ==> RowsFor(table.value, summaries, rows)
  {
    var built: seq<TableRow> := [];
    for k := 0 to |summaries|
      invariant |built| == k
      invariant forall i :: 0 <= i < k ==> MetricsOk(summaries[i]) && IsRowFor(built[i], summaries[i], rows)
    {
      if !MetricsOk(summaries[k]) {
        return None;
      }
      TableRowIsFor(summaries[k], rows, t);
      built := built + [TableRowOf(summaries[k], t.usage[NameIn(summaries[k])])];
    }
    return Some(built);
  }

  // ---------- Runs and tables agree ----------

  lemma {:induction false} UsageCountsGroup(results: seq<PolicyResult>, evaluations: seq<Scores>, rows: seq<Row>, p: string)
    requires |results| == |evaluations| == |rows|
    requires forall k :: 0 <= k < |rows| ==> rows[k].result == results[k] && evaluations[k].policyName == NameOf(rows[k])
    ensures UsageFor(rows, p).examples == |Group(evaluations, p)|
  {
    if rows != [] {
      var n := |rows| - 1;
      UsageCountsGroup(results[..n], evaluations[..n], rows[..n], p);
    }
  }

  lemma {:induction false} TotalIsMetadata(results: seq<PolicyResult>, rows: seq<Row>)
    requires |results| == |rows| && forall k :: 0 <= k < |rows| ==> rows[k].result == results[k]
    ensures TotalUsage(rows).calls == SumInt(results, LiveModelCalls)
    ensures TotalUsage(rows).tokens == SumInt(results, TotalTokens)
    ensures TotalUsage(rows).cost == SumNumber(results, CostUsd)
  {
    if rows != [] {
      var n := |rows| - 1;
      TotalIsMetadata(results[..n], rows[..n]);
    }
  }

  lemma {:induction false} SumsAreNonNegative(results: seq<PolicyResult>)
    requires forall k :: 0 <= k < |results| ==> ValidLiveResult(results[k])
    ensures SumInt(results, LiveModelCalls) >= |results| && SumInt(results, TotalTokens) >= 0
    ensures SumNumber(results, CostUsd) >= 0.0
  {
    if results != [] {
      SumsAreNonNegative(results[..|results| - 1]);
    }
  }

  lemma {:induction false} TableTotalIsSum(t: UsageTable, rows: seq<Row>, names: seq<string>)
    requires Tabulates(t, rows) && forall n :: n in names ==> n in t.usage
    ensures TableTotal(t, names) == SumUsage(rows, names)
  {
    if names != [] {
      assert names[|names| - 1] in names;
      assert forall n :: n in names[..|names| - 1] ==> n in names;
      TableTotalIsSum(t, rows, names[..|names| - 1]);
    }
  }

  /** The dictionary's values add up to the totals over all rows. */
  lemma TableTotalIsTotal(rows: seq<Row>)
    ensures TableTotal(Tabulate(rows), Tabulate(rows).order) == TotalUsage(rows)
  {
    var t := Tabulate(rows);
    TabulateTabulates(rows);
    TableTotalIsSum(t, rows, t.order);
    forall r | r in rows ensures NameOf(r) in t.order {
      var i :| 0 <= i < |rows| && rows[i] == r;
      assert RowNames(rows)[i] == NameOf(r);
    }
    UsageIsConserved(rows, t.order);
  }

  ghost predicate NamedAfterPolicies(run: Run) {
    forall k :: 0 <= k < |run.results| ==> run.results[k].answered.policyName in run.policyNames
  }

  lemma StoredRowsValid(run: Run)
    requires WellMade(run)
    ensures LiveMetadataOk(RunRecord(run))
    ensures AllValid(RowsOf(run.results, run.exampleIds, |run.policyNames|))
  {
    SumsAreNonNegative(run.results);
  }

  lemma SummariesReadBack(run: Run)
    requires WellMade(run)
    ensures SummaryNames(SummaryRecords(run.summaries)) == run.policyNames
    ensures AllMetricsOk(SummaryRecords(run.summaries))
  {
    forall i | 0 <= i < |run.summaries| ensures MetricsOk(SummaryRecord(run.summaries[i])) {
      GroupsAreSound(run.evaluations, run.policyNames[i]);
      SummaryMetricsOk(run.policyNames[i], Group(run.evaluations, run.policyNames[i]));
    }
  }

  lemma GroupsAreSound(evaluations: seq<Scores>, p: string)
    requires forall k :: 0 <= k < |evaluations| ==> Sound(evaluations[k])
    ensures forall s :: s in Group(evaluations, p) ==> Sound(s)
  {
    GroupMembers(evaluations, p);
    forall s | s in Group(evaluations, p) ensures Sound(s) {
      assert s in evaluations;
      var k :| 0 <= k < |evaluations| && evaluations[k] == s;
    }
  }

  lemma SummaryMetricsOk(p: string, group: seq<Scores>)
    requires group != [] && forall s :: s in group ==> Sound(s)
    ensures MetricsOk(SummaryRecord(Summary(p, group)))
  {
    SummaryIsSound(p, group);
    MeanWithin(group, (s: Scores) => s.unsupported);
    MeanWithin(group, (s: Scores) => Indicator(s.abstained));
  }

  /** The rows hold the results in order, each with the name its evaluation has. */
  ghost predicate RowsMatch(run: Run, rows: seq<Row>) {
    && |rows| == |run.results| == |run.evaluations|
    && forall k :: 0 <= k < |rows| ==>
         rows[k].result == run.results[k] && run.evaluations[k].policyName == NameOf(rows[k])
  }

  lemma StoredRowsMatch(run: Run)
    requires WellMade(run)
    ensures RowsMatch(run, StoredOf(run).rows)
  {
  }

  lemma PolicyHasRow(run: Run, rows: seq<Row>, p: string)
    requires RowsMatch(run, rows) && Group(run.evaluations, p) != []
    ensures p in RowNames(rows)
  {
    GroupMembers(run.evaluations, p);
    var k :| 0 <= k < |run.evaluations| && Names(run.evaluations)[k] == p;
    assert RowNames(rows)[k] == p;
  }

  lemma RowNamesListedIff(run: Run, rows: seq<Row>)
    requires RowsMatch(run, rows)
    ensures (forall n :: n in RowNames(rows) ==> n in run.policyNames) <==> NamedAfterPolicies(run)
  {
    if forall n :: n in RowNames(rows) ==> n in run.policyNames {
      forall k | 0 <= k < |run.results| ensures run.results[k].answered.policyName in run.policyNames {
        assert RowNames(rows)[k] in run.policyNames;
      }
    }
    if NamedAfterPolicies(run) {
      forall n | n in RowNames(rows) ensures n in run.policyNames {
        var k :| 0 <= k < |rows| && RowNames(rows)[k] == n;
        assert run.results[k].answered.policyName == n;
      }
    }
  }

  /** The policies with usage are the run's policies exactly when the results are named after them. */
  lemma TableKeys(run: Run, rows: seq<Row>, t: UsageTable)
    requires RowsMatch(run, rows) && Tabulates(t, rows)
    requires SummariesOf(run.summaries, run.evaluations, run.policyNames)
    ensures t.usage.Keys == Members(run.policyNames) <==> NamedAfterPolicies(run)
  {
    forall p | p in run.policyNames ensures p in RowNames(rows) {
      var j :| 0 <= j < |run.policyNames| && run.policyNames[j] == p;
      PolicyHasRow(run, rows, p);
    }
    RowNamesListedIff(run, rows);
    if NamedAfterPolicies(run) {
      assert t.usage.Keys == Members(run.policyNames);
    }
    if t.usage.Keys == Members(run.policyNames) {
      forall n | n in RowNames(rows) ensures n in run.policyNames {
        assert n in t.usage.Keys;
      }
    }
  }

  lemma CountsMatch(run: Run, rows: seq<Row>, t: UsageTable, p: string)
    requires RowsMatch(run, rows) && Tabulates(t, rows) && Group(run.evaluations, p) != []
    ensures p in t.usage && t.usage[p].examples == |Group(run.evaluations, p)|
  {
    PolicyHasRow(run, rows, p);
    UsageCountsGroup(run.results, run.evaluations, rows, p);
  }

  lemma RecordCountOk(p: PolicySummary, t: UsageTable)
    requires p.policyName in t.usage && t.usage[p.policyName].examples == p.exampleCount > 0
    ensures CountOk(SummaryRecord(p), t)
  {
  }

  lemma NamesListingReads(names: seq<string>, of: seq<string>)
    requires "" !in names && Members(names) == Members(of)
    ensures MetadataNamesOk(NamesListing(names), of) <==> Distinct(names)
  {
    var items := NamesListing(names).items;
    forall i | 0 <= i < |items| ensures Named(items[i]) {
      assert names[i] in names;
    }
    var listed := set i | i in items && i.Words? :: i.s;
    forall n | n in listed ensures n in names {
      var k :| 0 <= k < |items| && items[k] == Words(n);
    }
    forall n | n in names ensures n in listed {
      var k :| 0 <= k < |names| && names[k] == n;
      assert items[k] == Words(n) && items[k] in items;
    }
    assert listed == Members(names);
    if Distinct(names) {
      forall i, j | 0 <= i < j < |items| ensures items[i] != items[j] {
        assert names[i] != names[j];
      }
    }
    if MetadataNamesOk(NamesListing(names), of) {
      forall i, j | 0 <= i < j < |names| ensures names[i] != names[j] {
        assert items[i] != items[j];
      }
    }
  }

  lemma TotalsMatch(run: Run, rows: seq<Row>)
    requires RowsMatch(run, rows)
    ensures var total, m := TableTotal(Tabulate(rows), Tabulate(rows).order), RunRecord(run);
            && total.calls == IntOf(Read(m, LiveModelCalls))
            && total.tokens as real == NumberOf(Read(m, TotalTokens))
            && total.cost == NumberOf(Read(m, TotalCostUsd))
  {
    TableTotalIsTotal(rows);
    TotalIsMetadata(run.results, rows);
  }

  lemma SummaryRecordsOk(run: Run, rows: seq<Row>, t: UsageTable, j: nat)
    requires RowsMatch(run, rows) && Tabulates(t, rows) && "" !in run.policyNames && j < |run.summaries|
    requires SummariesOf(run.summaries, run.evaluations, run.policyNames)
    ensures CountOk(SummaryRecords(run.summaries)[j], t) && Named(Read(SummaryRecords(run.summaries)[j], PolicyName))
  {
    CountsMatch(run, rows, t, run.policyNames[j]);
    RecordCountOk(run.summaries[j], t);
    assert run.policyNames[j] in run.policyNames;
  }

  lemma ConsistentIff(run: Run, rows: seq<Row>)
    requires RowsMatch(run, rows) && "" !in run.policyNames
    requires SummariesOf(run.summaries, run.evaluations, run.policyNames)
    requires SummaryNames(SummaryRecords(run.summaries)) == run.policyNames
    ensures UsageConsistent(RunRecord(run), SummaryRecords(run.summaries), Tabulate(rows))
            <==> Distinct(run.policyNames) && NamedAfterPolicies(run)
  {
    var t, records := Tabulate(rows), SummaryRecords(run.summaries);
    TabulateTabulates(rows);
    TableKeys(run, rows, t);
    NamesListingReads(run.policyNames, run.policyNames);
    TotalsMatch(run, rows);
    forall j | 0 <= j < |records| ensures CountOk(records[j], t) && Named(Read(records[j], PolicyName)) {
      SummaryRecordsOk(run, rows, t, j);
    }
  }

  /**
    * What a finished run stores passes every live check of the table builder exactly when its policy names
    * are distinct and every result is named after one of its policies.
    */
  lemma StoredRunAcceptedIff(run: Run)
    requires WellMade(run)
    ensures Accepted(StoredOf(run)) <==> Distinct(run.policyNames) && NamedAfterPolicies(run)
  {
    StoredRowsValid(run);
    StoredRowsMatch(run);
    SummariesReadBack(run);
    ConsistentIff(run, StoredOf(run).rows);
  }

  function TableUsage(table: seq<TableRow>): Usage {
    if table == [] then NO_USAGE else Plus(TableUsage(table[..|table| - 1]), table[|table| - 1].usage)
  }

  /** The rows of an accepted run's table add up to the run's own totals, and there is one row per policy. */
  lemma TableAddsUpToRun(run: Run, table: seq<TableRow>)
    requires WellMade(run) && Accepted(StoredOf(run))
    requires RowsFor(table, StoredOf(run).summaries, StoredOf(run).rows)
    ensures TableNames(table) == run.policyNames
    ensures var total := TableUsage(table);
            && total.examples == |run.results|
            && total.calls == SumInt(run.results, LiveModelCalls)
            && total.tokens == SumInt(run.results, TotalTokens)
            && total.cost == SumNumber(run.results, CostUsd)
  {
    StoredRunAcceptedIff(run);
    StoredRowsMatch(run);
    SummariesReadBack(run);
    RowsAddUp(run, StoredOf(run).rows, SummaryRecords(run.summaries), table);
  }

  function TableNames(table: seq<TableRow>): seq<string> {
    seq(|table|, i requires 0 <= i < |table| => table[i].policyName)
  }

  lemma RowsAddUp(run: Run, rows: seq<Row>, summaries: seq<Meta>, table: seq<TableRow>)
    requires RowsMatch(run, rows) && Distinct(run.policyNames) && NamedAfterPolicies(run)
    requires SummaryNames(summaries) == run.policyNames && RowsFor(table, summaries, rows)
    ensures TableNames(table) == run.policyNames
    ensures TableUsage(table) == TotalUsage(rows)
    ensures TotalUsage(rows).examples == |run.results|
    ensures TotalUsage(rows).calls == SumInt(run.results, LiveModelCalls)
    ensures TotalUsage(rows).tokens == SumInt(run.results, TotalTokens)
    ensures TotalUsage(rows).cost == SumNumber(run.results, CostUsd)
  {
    var names := run.policyNames;
    assert |table| == |summaries| == |names|;
    forall j | 0 <= j < |table| ensures table[j].policyName == names[j] && table[j].usage == UsageFor(rows, names[j]) {
      assert IsRowFor(table[j], summaries[j], rows);
      assert SummaryNames(summaries)[j] == names[j];
    }
    TableUsageIsSum(table, rows, names);
    forall r | r in rows ensures NameOf(r) in names {
      var k :| 0 <= k < |rows| && rows[k] == r;
      assert run.results[k].answered.policyName in names;
    }
    UsageIsConserved(rows, names);
    TotalIsMetadata(run.results, rows);
    TotalCountsRows(rows);
  }

  lemma {:induction false} TableUsageIsSum(table: seq<TableRow>, rows: seq<Row>, names: seq<string>)
    requires |table| == |names| && forall j :: 0 <= j < |table| ==> table[j].usage == UsageFor(rows, names[j])
    ensures TableUsage(table) == SumUsage(rows, names)
  {
    if table != [] {
      var n := |table| - 1;
      TableUsageIsSum(table[..n], rows, names[..n]);
    }
  }

  lemma {:induction false} TotalCountsRows(rows: seq<Row>)
    ensures TotalUsage(rows).examples == |rows|
  {
    if rows != [] {
      TotalCountsRows(rows[..|rows| - 1]);
    }
  }

  // ---------- What a row of the table says ----------

  function ResultsOf(rows: seq<Row>, name: string): seq<PolicyResult> {
    if rows == [] then []
    else ResultsOf(rows[..|rows| - 1], name) + if NameOf(rows[|rows| - 1]) == name then [rows[|rows| - 1].result] else []
  }

  ghost function RejectedAmong(results: seq<PolicyResult>): set<nat> {
    set k: nat | k < |results| && Read(results[k].metadata, TraceguardRejected) == Flag(true)
  }

  lemma {:induction false} UsageMeans(rows: seq<Row>, name: string)
    ensures Totals(UsageFor(rows, name), ResultsOf(rows, name))
  {
    if rows == [] {
      assert RejectedAmong([]) == {};
    } else {
      var front, last := rows[..|rows| - 1], rows[|rows| - 1];
      var mine := ResultsOf(front, name);
      UsageMeans(front, name);
      if NameOf(last) == name {
        OneMoreResult(mine, last.result);
      } else {
        assert mine + [] == mine;
      }
    }
  }

  lemma OneMoreResult(results: seq<PolicyResult>, r: PolicyResult)
    ensures |RejectedAmong(results + [r])|
         == |RejectedAmong(results)| + if Read(r.metadata, TraceguardRejected) == Flag(true) then 1 else 0
    ensures forall f :: SumInt(results + [r], f) == SumInt(results, f) + IntOf(Read(r.metadata, f))
    ensures forall f :: SumNumber(results + [r], f) == SumNumber(results, f) + NumberOf(Read(r.metadata, f))
  {
    var all := results + [r];
    assert all[..|results|] == results;
    var hit: set<nat> := if Read(r.metadata, TraceguardRejected) == Flag(true) then {|results|} else {};
    assert RejectedAmong(all) == RejectedAmong(results) + hit;
  }

  lemma MetricsAre(summary: Meta, u: Usage)
    requires u.examples > 0
    ensures TableRowOf(summary, u).metrics
         == [Read(summary, MeanExact), Read(summary, MeanContains), Read(summary, MeanPrecision), Read(summary, MeanRecall),
             Read(summary, MeanF1), Read(summary, MeanUnsupported), Read(summary, AbstentionRate)]
  {
  }

  lemma RatesAre(summary: Meta, u: Usage)
    requires u.examples > 0
    ensures TableRowOf(summary, u).rejectRate * u.examples as real == u.rejects as real
    ensures TableRowOf(summary, u).meanRepairs * u.examples as real == u.repairs as real
  {
    Quotient(u.rejects as real, u.examples as real);
    Quotient(u.repairs as real, u.examples as real);
  }

  /** The totals over some results. */
  ghost predicate Totals(u: Usage, results: seq<PolicyResult>) {
    && u.examples == |results| && u.rejects == |RejectedAmong(results)|
    && u.calls == SumInt(results, LiveModelCalls) && u.tokens == SumInt(results, TotalTokens)
    && u.cost == SumNumber(results, CostUsd) && u.repairs == SumInt(results, RepairCount)
  }

  lemma NameIs(summary: Meta)
    requires NameIn(summary) != ""
    ensures Read(summary, PolicyName) == Words(NameIn(summary))
  {
  }

  /** A row of the table: totals over its policy's own results, two averages per result, and the stored scores. */
  lemma TableRowMeans(row: TableRow, summary: Meta, rows: seq<Row>)
    requires IsRowFor(row, summary, rows)
    ensures row.policyName != "" ==> Read(summary, PolicyName) == Words(row.policyName)
    ensures row.usage.examples > 0 && Totals(row.usage, ResultsOf(rows, row.policyName))
    ensures row.rejectRate * row.usage.examples as real == row.usage.rejects as real
    ensures row.meanRepairs * row.usage.examples as real == row.usage.repairs as real
    ensures row.metrics
         == [Read(summary, MeanExact), Read(summary, MeanContains), Read(summary, MeanPrecision), Read(summary, MeanRecall),
             Read(summary, MeanF1), Read(summary, MeanUnsupported), Read(summary, AbstentionRate)]
  {
    var u := UsageFor(rows, NameIn(summary));
    if NameIn(summary) != "" {
      NameIs(summary);
    }
    UsageMeans(rows, NameIn(summary));
    MetricsAre(summary, u);
    RatesAre(summary, u);
  }

  /** What the checks ask of the stored metadata and of every stored row. */
  lemma AcceptedMeans(stored: Stored)
    requires Accepted(stored)
    ensures var m := stored.metadata;
            && RunMode in m && m[RunMode] == Words("live")
            && IsDeterministic in m && m[IsDeterministic] == Flag(false)
            && LiveModelCalls in m && m[LiveModelCalls].Whole? && m[LiveModelCalls].n > 0
            && m[LiveModelCalls].n == TotalUsage(stored.rows).calls
    ensures forall r :: r in stored.rows ==>
              && r.result.answered.policyName != ""
              && HasCount(r.result.metadata, LiveModelCalls) && HasCount(r.result.metadata, TotalTokens)
              && HasCount(r.result.metadata, RepairCount)
              && TraceguardRejected in r.result.metadata && r.result.metadata[TraceguardRejected].Flag?
              && CostUsd in r.result.metadata && NumberOf(r.result.metadata[CostUsd]) >= 0.0
    ensures forall i, j :: 0 <= i < j < |stored.summaries| ==>
              Read(stored.summaries[i], PolicyName) != Read(stored.summaries[j], PolicyName)
  {
    TableTotalIsTotal(stored.rows);
    forall i, j | 0 <= i < j < |stored.summaries|
      ensures Read(stored.summaries[i], PolicyName) != Read(stored.summaries[j], PolicyName)
    {
      assert SummaryNames(stored.summaries)[i] != SummaryNames(stored.summaries)[j];
    }
  }

  predicate HasCount(m: Meta, f: Field) {
    f in m && m[f].Whole? && m[f].n >= 0
  }
}
