/** The live matrix: one cell per fixture and family, summarised after every cell. */
module LiveMatrix {
  import opened Options
  import opened Json
  import opened Arithmetic
  import opened RepairReferences
  import opened LiveCell
  import opened CommitSoundness
  import opened CellWitnesses

  /** How a finished cell is classified: contract pass, contract failure, or an infrastructure failure. */
  datatype Status = Passed | Failed | Infra(timeout: bool)

  datatype Cell = Cell(familyId: string, status: Status)

  function StatusOf(o: Outcome): Status {
    match o
    case Raised(timeout, _) => Infra(timeout)
    case Completed(a, _, _) => if a.mandatoryPass then Passed else Failed
  }

  // ---------- Summaries ----------

  datatype FamilyStatus = FamilyPass | NotSupported | ContractFailure | Incomplete

  datatype Summary = Summary(familyId: string, planned: nat, completed: nat, passed: nat, failed: nat, infra: nat,
                             status: FamilyStatus)

  datatype Aggregate = AggregateFail | AggregatePass | Inconclusive

  function Count(cells: seq<Cell>, familyId: string, p: Status -> bool): nat {
    if cells == [] then 0
    else
      var last := cells[|cells| - 1];
      Count(cells[..|cells| - 1], familyId, p) + if last.familyId == familyId && p(last.status) then 1 else 0
  }

  function PassedCells(cells: seq<Cell>, familyId: string): nat {
    Count(cells, familyId, (s: Status) => s.Passed?)
  }

  function FailedCells(cells: seq<Cell>, familyId: string): nat {
    Count(cells, familyId, (s: Status) => s.Failed?)
  }

  function InfraCells(cells: seq<Cell>, familyId: string): nat {
    Count(cells, familyId, (s: Status) => s.Infra?)
  }

  function CompletedCells(cells: seq<Cell>, familyId: string): nat {
    Count(cells, familyId, (s: Status) => !s.Infra?)
  }

  function PlannedCells(cells: seq<Cell>, familyId: string): nat {
    Count(cells, familyId, (s: Status) => true)
  }

  function Summarize(cells: seq<Cell>, familyId: string, fixtureCount: nat): Summary {
    var passed, failed := PassedCells(cells, familyId), FailedCells(cells, familyId);
    var status := if failed >= 2 then NotSupported else if failed > 0 then ContractFailure
                  else if passed < fixtureCount then Incomplete else FamilyPass;
    Summary(familyId, PlannedCells(cells, familyId), CompletedCells(cells, familyId), passed, failed,
            InfraCells(cells, familyId), status)
  }

  function Summaries(cells: seq<Cell>, families: seq<string>, fixtureCount: nat): seq<Summary> {
    seq(|families|, i requires 0 <= i < |families| => Summarize(cells, families[i], fixtureCount))
  }

  function AggregateOf(summaries: seq<Summary>, required: nat): Aggregate {
    if exists s :: s in summaries && s.status == NotSupported then AggregateFail
    else if forall s :: s in summaries ==> s.passed >= required && s.failed == 0 then AggregatePass
    else Inconclusive
  }

  function Verdict(cells: seq<Cell>, families: seq<string>, fixtureCount: nat): Aggregate {
    AggregateOf(Summaries(cells, families, fixtureCount), fixtureCount)
  }

  // ---------- The matrix ----------

  /** The first `n` cells, fixture by fixture and within a fixture family by family. */
  function Cells(families: seq<string>, results: nat -> Status, n: nat): seq<Cell>
    requires n > 0 ==> families != []
  {
    seq(n, k requires 0 <= k < n => Cell(families[k % |families|], results(k)))
  }

  /** Each cell builds its own runtime, hence a script per fixture and family. */
  type Scripts = (nat, nat) -> Script

  function ResultAt(fixtures: seq<Fixture>, families: seq<string>, scripts: Scripts, str: Rendering, k: nat): Status {
    if families == [] || k / |families| >= |fixtures| then Infra(false)
    else
      var i, j := k / |families|, k % |families|;
      StatusOf(RunCell(fixtures[i], families[j], scripts(i, j), str))
  }

  lemma CellsExtend(families: seq<string>, results: nat -> Status, n: nat)
    requires families != []
    ensures Cells(families, results, n + 1) == Cells(families, results, n) + [Cell(families[n % |families|], results(n))]
  {
  }

  ghost predicate Reported(checkpoints: seq<Aggregate>, cells: seq<Cell>, families: seq<string>, fixtureCount: nat) {
    && |checkpoints| == |cells|
    && forall n :: 0 <= n < |cells| ==> checkpoints[n] == Verdict(cells[..n + 1], families, fixtureCount)
  }

  lemma ReportedExtend(checkpoints: seq<Aggregate>, cells: seq<Cell>, cell: Cell, families: seq<string>, fixtureCount: nat)
    requires Reported(checkpoints, cells, families, fixtureCount)
    ensures Reported(checkpoints + [Verdict(cells + [cell], families, fixtureCount)], cells + [cell], families, fixtureCount)
  {
    var checkpoints' := checkpoints + [Verdict(cells + [cell], families, fixtureCount)];
    forall n | 0 <= n < |cells| + 1
      ensures checkpoints'[n] == Verdict((cells + [cell])[..n + 1], families, fixtureCount)
    {
      assert n < |cells| ==> (cells + [cell])[..n + 1] == cells[..n + 1];
      assert n == |cells| ==> (cells + [cell])[..n + 1] == cells + [cell];
    }
  }

  /** One cell of the nested loops: run it, append it, and report. */
  method RunNextCell(fixtures: seq<Fixture>, families: seq<string>, scripts: Scripts, str: Rendering, i: nat, j: nat,
                     cells: seq<Cell>, checkpoints: seq<Aggregate>)
    returns (cells': seq<Cell>, checkpoints': seq<Aggregate>)
    requires i < |fixtures| && j < |families| && |cells| == i * |families| + j
    requires Reported(checkpoints, cells, families, |fixtures|)
    ensures cells' == cells + [Cell(families[|cells| % |families|], ResultAt(fixtures, families, scripts, str, |cells|))]
    ensures Reported(checkpoints', cells', families, |fixtures|)
  {
    DivModUnique(|cells|, |families|, i, j);
    var runtime := new Runtime(scripts(i, j));
    var outcome := RunLiveRlmTraceguardCell(fixtures[i], families[j], runtime, str);
    var cell := Cell(families[j], StatusOf(outcome));
    ReportedExtend(checkpoints, cells, cell, families, |fixtures|);
    cells' := cells + [cell];
    checkpoints' := checkpoints + [Verdict(cells', families, |fixtures|)];
  }

  /** The source's nested loops; `checkpoints` holds the aggregate reported after each cell. */
  method RunLivePrimary(fixtures: seq<Fixture>, families: seq<string>, scripts: Scripts, str: Rendering)
    returns (cells: seq<Cell>, checkpoints: seq<Aggregate>, final: Aggregate)
    ensures cells == Cells(families, (k: nat) => ResultAt(fixtures, families, scripts, str, k), |fixtures| * |families|)
    ensures final == Verdict(cells, families, |fixtures|)
    ensures Reported(checkpoints, cells, families, |fixtures|)
  {
    ghost var results := (k: nat) => ResultAt(fixtures, families, scripts, str, k);
    cells, checkpoints := [], [];
    for i := 0 to |fixtures|
      invariant |cells| == i * |families| && cells == Cells(families, results, |cells|)
      invariant Reported(checkpoints, cells, families, |fixtures|)
    {
      for j := 0 to |families|
        invariant |cells| == i * |families| + j && cells == Cells(families, results, |cells|)
        invariant Reported(checkpoints, cells, families, |fixtures|)
      {
        CellsExtend(families, results, |cells|);
        cells, checkpoints := RunNextCell(fixtures, families, scripts, str, i, j, cells, checkpoints);
      }
    }
    final := Verdict(cells, families, |fixtures|);
  }

  // ---------- Counting ----------

  /** Every planned cell of a family is counted exactly once. */
  lemma {:induction false} CellsAreConserved(cells: seq<Cell>, familyId: string)
    ensures PlannedCells(cells, familyId)
         == PassedCells(cells, familyId) + FailedCells(cells, familyId) + InfraCells(cells, familyId)
    ensures CompletedCells(cells, familyId) == PassedCells(cells, familyId) + FailedCells(cells, familyId)
  {
    if cells != [] {
      CellsAreConserved(cells[..|cells| - 1], familyId);
    }
  }

  lemma {:induction false} CountGrows(cells: seq<Cell>, n: nat, familyId: string, p: Status -> bool)
    requires n <= |cells|
    ensures Count(cells[..n], familyId, p) <= Count(cells, familyId, p)
  {
    if n == |cells| {
      assert cells[..n] == cells;
    } else {
      assert cells[..|cells| - 1][..n] == cells[..n];
      CountGrows(cells[..|cells| - 1], n, familyId, p);
    }
  }

  /** Once reported, an aggregate failure is reported at every later checkpoint. */
  lemma FailIsPermanent(cells: seq<Cell>, n: nat, families: seq<string>, fixtureCount: nat)
    requires n <= |cells| && Verdict(cells[..n], families, fixtureCount) == AggregateFail
    ensures Verdict(cells, families, fixtureCount) == AggregateFail
  {
    var before, after := Summaries(cells[..n], families, fixtureCount), Summaries(cells, families, fixtureCount);
    var s :| s in before && s.status == NotSupported;
    var i :| 0 <= i < |before| && before[i] == s;
    CountGrows(cells, n, families[i], (s: Status) => s.Failed?);
    assert after[i].failed >= before[i].failed;
    assert after[i] in after && after[i].status == NotSupported;
  }

  /** The aggregate passes exactly when every family passes. */
  lemma PassIffFamiliesPass(cells: seq<Cell>, families: seq<string>, fixtureCount: nat)
    ensures Verdict(cells, families, fixtureCount) == AggregatePass
      <==> forall f :: f in families ==> Summarize(cells, f, fixtureCount).status == FamilyPass
  {
    var summaries := Summaries(cells, families, fixtureCount);
    forall f | f in families ensures Summarize(cells, f, fixtureCount) in summaries {
      var i :| 0 <= i < |families| && families[i] == f;
      assert summaries[i] == Summarize(cells, f, fixtureCount);
    }
    forall s | s in summaries ensures exists f :: f in families && s == Summarize(cells, f, fixtureCount) {
      var i :| 0 <= i < |summaries| && summaries[i] == s;
      assert families[i] in families;
    }
  }

  // ---------- When a pass means the whole matrix passed ----------

  ghost predicate DistinctFamilies(families: seq<string>) {
    forall i, j :: 0 <= i < j < |families| ==> families[i] != families[j]
  }

  /** A family met at one position per fixture has as many planned cells among the first `n` as fixtures reached it. */
  lemma {:induction false} PlannedAtPosition(families: seq<string>, results: nat -> Status, j: nat, n: nat)
    requires DistinctFamilies(families) && j < |families|
    ensures PlannedCells(Cells(families, results, n), families[j]) == (n + |families| - 1 - j) / |families|
  {
    var width := |families|;
    if n == 0 {
      DivModUnique(width - 1 - j, width, 0, width - 1 - j);
    } else {
      PlannedAtPosition(families, results, j, n - 1);
      CellsExtend(families, results, n - 1);
      var cells := Cells(families, results, n);
      assert cells[..n - 1] == Cells(families, results, n - 1);
      StepDivision(n - 1, j, width);
    }
  }

  lemma StepDivision(k: nat, j: nat, width: nat)
    requires j < width
    ensures (k + 1 + width - 1 - j) / width == (k + width - 1 - j) / width + if k % width == j then 1 else 0
  {
    var q, r := k / width, k % width;
    CeilingAt(k, j, width, q, r);
    if r + 1 < width {
      CeilingAt(k + 1, j, width, q, r + 1);
    } else {
      MulStep(q, q + 1, width);
      CeilingAt(k + 1, j, width, q + 1, 0);
    }
  }

  lemma CeilingAt(k: nat, j: nat, width: nat, q: nat, r: nat)
    requires j < width && r < width && k == q * width + r
    ensures (k + width - 1 - j) / width == if j < r then q + 1 else q
  {
    if j < r {
      assert (q + 1) * width == q * width + width;
      DivModUnique(k + width - 1 - j, width, q + 1, r - 1 - j);
    } else {
      DivModUnique(k + width - 1 - j, width, q, r + width - 1 - j);
    }
  }

  lemma {:induction false} PassedWithinPlanned(cells: seq<Cell>, familyId: string)
    ensures PassedCells(cells, familyId) <= PlannedCells(cells, familyId)
    ensures PassedCells(cells, familyId) == PlannedCells(cells, familyId) ==>
      forall c :: c in cells && c.familyId == familyId ==> c.status.Passed?
  {
    if cells != [] {
      PassedWithinPlanned(cells[..|cells| - 1], familyId);
      assert cells == cells[..|cells| - 1] + [cells[|cells| - 1]];
    }
  }

  /** A pass needs the last family to have a passed cell for every fixture. */
  lemma PassMeansComplete(families: seq<string>, results: nat -> Status, fixtureCount: nat, n: nat)
    requires DistinctFamilies(families) && families != [] && n <= fixtureCount * |families|
    requires Verdict(Cells(families, results, n), families, fixtureCount) == AggregatePass
    ensures n == fixtureCount * |families|
  {
    var cells, width := Cells(families, results, n), |families|;
    PassIffFamiliesPass(cells, families, fixtureCount);
    assert families[width - 1] in families;
    PlannedAtPosition(families, results, width - 1, n);
    PassedWithinPlanned(cells, families[width - 1]);
    QuotientBound(n, width, fixtureCount);
  }

  lemma QuotientBound(n: nat, width: nat, q: nat)
    requires width > 0 && n / width >= q
    ensures n >= q * width
  {
    var p := n / width;
    assert n == p * width + n % width;
    assert p * width >= q * width;
  }

  /** With distinct families, the matrix can pass only after every cell ran, and then every cell passed. */
  lemma PassMeansEveryCellPassed(families: seq<string>, results: nat -> Status, fixtureCount: nat, n: nat)
    requires DistinctFamilies(families) && families != [] && n <= fixtureCount * |families|
    requires Verdict(Cells(families, results, n), families, fixtureCount) == AggregatePass
    ensures n == fixtureCount * |families|
    ensures forall k :: 0 <= k < n ==> results(k).Passed?
  {
    var cells, width := Cells(families, results, n), |families|;
    PassMeansComplete(families, results, fixtureCount, n);
    PassIffFamiliesPass(cells, families, fixtureCount);
    forall k | 0 <= k < n ensures results(k).Passed? {
      var j := k % width;
      assert families[j] in families;
      PlannedAtPosition(families, results, j, n);
      DivModUnique(n + width - 1 - j, width, fixtureCount, width - 1 - j);
      PassedWithinPlanned(cells, families[j]);
      assert cells[k] in cells && cells[k].familyId == families[j];
    }
  }

  /** Conversely, a complete matrix of passed cells passes. */
  lemma EveryCellPassedMeansPass(families: seq<string>, results: nat -> Status, fixtureCount: nat)
    requires DistinctFamilies(families) && families != []
    requires forall k :: 0 <= k < fixtureCount * |families| ==> results(k).Passed?
    ensures Verdict(Cells(families, results, fixtureCount * |families|), families, fixtureCount) == AggregatePass
  {
    var n, width := fixtureCount * |families|, |families|;
    var cells := Cells(families, results, n);
    PassIffFamiliesPass(cells, families, fixtureCount);
    forall f | f in families ensures Summarize(cells, f, fixtureCount).status == FamilyPass {
      var j :| 0 <= j < width && families[j] == f;
      PlannedAtPosition(families, results, j, n);
      DivModUnique(n + width - 1 - j, width, fixtureCount, width - 1 - j);
      AllPassedCounts(cells, f);
      CellsAreConserved(cells, f);
    }
  }

  lemma {:induction false} AllPassedCounts(cells: seq<Cell>, familyId: string)
    requires forall c :: c in cells ==> c.status.Passed?
    ensures PassedCells(cells, familyId) == PlannedCells(cells, familyId)
  {
    if cells != [] {
      assert cells[|cells| - 1] in cells;
      AllPassedCounts(cells[..|cells| - 1], familyId);
    }
  }

  /** Whether ids are shared or not: a pass is never reported over a cell that failed its contract. */
  lemma PassHidesNoContractFailure(families: seq<string>, results: nat -> Status, fixtureCount: nat, n: nat)
    requires families != []
    requires Verdict(Cells(families, results, n), families, fixtureCount) == AggregatePass
    ensures forall k :: 0 <= k < n ==> !results(k).Failed?
  {
    var cells := Cells(families, results, n);
    PassIffFamiliesPass(cells, families, fixtureCount);
    forall k | 0 <= k < n ensures !results(k).Failed? {
      var f := families[k % |families|];
      assert f in families && cells[k] == Cell(f, results(k)) && cells[k] in cells;
      NoneFailed(cells, f);
    }
  }

  lemma {:induction false} NoneFailed(cells: seq<Cell>, familyId: string)
    requires FailedCells(cells, familyId) == 0
    ensures forall c :: c in cells && c.familyId == familyId ==> !c.status.Failed?
  {
    if cells != [] {
      NoneFailed(cells[..|cells| - 1], familyId);
      assert cells == cells[..|cells| - 1] + [cells[|cells| - 1]];
    }
  }

  function TimeoutScript(): Script {
    (call: nat) => Error(true)
  }

  function PassingScript(): Script {
    (call: nat) => PassingAnswer("f", "c", "t", call)
  }

  function ScriptAt(j: nat, row: nat, column: nat): Script {
    if row == 0 && column == j then TimeoutScript() else PassingScript()
  }

  /** The scripts of a run in which the first fixture's cell at one position times out and all others pass. */
  function OneTimeout(j: nat): Scripts {
    (row: nat, column: nat) => ScriptAt(j, row, column)
  }

  function PassingFixtures(count: nat): seq<Fixture> {
    seq(count, i requires 0 <= i < count => PassingFixture("c", "f", "t"))
  }

  lemma PassingStatus(familyId: string, str: Rendering)
    ensures StatusOf(RunCell(PassingFixture("c", "f", "t"), familyId, PassingScript(), str)) == Passed
  {
    OneWordIsNotBlank("t");
    PassingCell("c", familyId, "f", "t", PassingScript(), str);
  }

  lemma TimeoutStatus(familyId: string, str: Rendering)
    ensures StatusOf(RunCell(PassingFixture("c", "f", "t"), familyId, TimeoutScript(), str)) == Infra(true)
  {
    OneSelected(PassingFixture("c", "f", "t").chunkIds);
    assert Uninterrupted(TimeoutScript(), 0) == 0 && Uninterrupted(TimeoutScript(), 1) == 0;
  }

  lemma OneTimeoutResults(families: seq<string>, count: nat, j: nat, str: Rendering, k: nat)
    requires j < |families| && k < count * |families|
    ensures ResultAt(PassingFixtures(count), families, OneTimeout(j), str, k) == if k == j then Infra(true) else Passed
  {
    var width := |families|;
    WithinRows(k, count, width);
    var row, column := k / width, k % width;
    FirstRow(k, width, j);
    assert OneTimeout(j)(row, column) == ScriptAt(j, row, column);
    TimeoutStatus(families[column], str);
    PassingStatus(families[column], str);
  }

  lemma FirstRow(k: nat, width: nat, j: nat)
    requires j < width
    ensures k / width == 0 && k % width == j <==> k == j
  {
    assert k == (k / width) * width + k % width;
    DivModUnique(j, width, 0, j);
  }

  lemma WithinRows(k: nat, count: nat, width: nat)
    requires k < count * width
    ensures width > 0 && k / width < count
  {
  }

  function OneTimeoutRun(families: seq<string>, count: nat, j: nat, str: Rendering): nat -> Status {
    (k: nat) => ResultAt(PassingFixtures(count), families, OneTimeout(j), str, k)
  }

  lemma OneTimeoutRunIs(families: seq<string>, count: nat, j: nat, str: Rendering)
    requires j < |families|
    ensures forall k :: 0 <= k < count * |families| ==>
              OneTimeoutRun(families, count, j, str)(k) == if k == j then Infra(true) else Passed
  {
    forall k | 0 <= k < count * |families|
      ensures OneTimeoutRun(families, count, j, str)(k) == if k == j then Infra(true) else Passed
    {
      OneTimeoutResults(families, count, j, str, k);
    }
  }

  /** Families sharing an id can hide a cell that never completed: a run with a timeout still passes. */
  lemma SharedFamilyIdHidesATimeout(families: seq<string>, i: nat, j: nat, count: nat, str: Rendering)
    requires i < j < |families| && families[i] == families[j] && count > 0
    ensures OneTimeoutRun(families, count, j, str)(j) == Infra(true)
    ensures Verdict(Cells(families, OneTimeoutRun(families, count, j, str), count * |families|), families, count)
         == AggregatePass
  {
    MulStep(0, count, |families|);
    OneTimeoutRunIs(families, count, j, str);
    OneMissingStillPasses(families, OneTimeoutRun(families, count, j, str), i, j, count);
  }

  lemma OneMissingStillPasses(families: seq<string>, results: nat -> Status, i: nat, j: nat, fixtureCount: nat)
    requires i < j < |families| && families[i] == families[j]
    requires forall k :: 0 <= k < fixtureCount * |families| ==> results(k) == if k == j then Infra(true) else Passed
    ensures Verdict(Cells(families, results, fixtureCount * |families|), families, fixtureCount) == AggregatePass
  {
    var cells := Cells(families, results, fixtureCount * |families|);
    PassIffFamiliesPass(cells, families, fixtureCount);
    forall f | f in families ensures Summarize(cells, f, fixtureCount).status == FamilyPass {
      var at := if f == families[j] then i else Position(families, f);
      PassedRows(families, results, at, j, fixtureCount, f);
      NoFailures(cells, f);
    }
  }

  function Position(families: seq<string>, f: string): (p: nat)
    requires f in families
    ensures p < |families| && families[p] == f
  {
    if families[0] == f then 0 else 1 + Position(families[1..], f)
  }

  lemma {:induction false} NoFailures(cells: seq<Cell>, familyId: string)
    requires forall c :: c in cells ==> !c.status.Failed?
    ensures FailedCells(cells, familyId) == 0
  {
    if cells != [] {
      assert cells[|cells| - 1] in cells;
      NoFailures(cells[..|cells| - 1], familyId);
    }
  }

  lemma PassedCellCounts(cells: seq<Cell>, m: nat, k: nat, f: string)
    requires m <= k < |cells| && cells[k] == Cell(f, Passed)
    ensures PassedCells(cells, f) >= PassedCells(cells[..m], f) + 1
  {
    assert cells[..k][..m] == cells[..m];
    CountGrows(cells[..k], m, f, (s: Status) => s.Passed?);
    assert cells[..k + 1][..k] == cells[..k];
    CountGrows(cells, k + 1, f, (s: Status) => s.Passed?);
  }

  /** A position whose cells all pass contributes one passed cell per completed row. */
  lemma {:induction false} PassedRows(families: seq<string>, results: nat -> Status, at: nat, except: nat, rows: nat, f: string)
    requires at < |families| && families[at] == f && at != except
    requires forall k :: 0 <= k < rows * |families| && k != except ==> results(k).Passed?
    requires except < |families|
    ensures PassedCells(Cells(families, results, rows * |families|), f) >= rows
  {
    if rows > 0 {
      var width := |families|;
      var m, n := (rows - 1) * width, rows * width;
      MulStep(rows - 1, rows, width);
      PassedRows(families, results, at, except, rows - 1, f);
      DivModUnique(m + at, width, rows - 1, at);
      assert n == m + width;
      if rows > 1 {
        MulStep(0, rows - 1, width);
      } else {
        assert m == 0;
      }
      var cells := Cells(families, results, n);
      assert cells[..m] == Cells(families, results, m);
      assert cells[m + at] == Cell(f, results(m + at));
      PassedCellCounts(cells, m, m + at, f);
    }
  }

  // ---------- What a passing matrix guarantees ----------

  /** A passing live run: every fixture ran on every family, and each of those cells is sound. */
  lemma MatrixPassIsSound(fixtures: seq<Fixture>, families: seq<string>, scripts: Scripts, str: Rendering, i: nat, j: nat)
    requires DistinctFamilies(families) && i < |fixtures| && j < |families|
    requires Verdict(Cells(families, (k: nat) => ResultAt(fixtures, families, scripts, str, k), |fixtures| * |families|),
                     families, |fixtures|) == AggregatePass
    ensures var o := RunCell(fixtures[i], families[j], scripts(i, j), str);
            o.Completed? && o.artifact.mandatoryPass && SoundPass(o.artifact, fixtures[i], o.repairs)
  {
    var results := (k: nat) => ResultAt(fixtures, families, scripts, str, k);
    var k := i * |families| + j;
    PassMeansEveryCellPassed(families, results, |fixtures|, |fixtures| * |families|);
    MulStep(i, |fixtures|, |families|);
    DivModUnique(k, |families|, i, j);
    assert results(k).Passed?;
    CommitIsSound(fixtures[i], families[j], scripts(i, j), str);
  }

  // ---------- What the counts count ----------

  ghost function Which(cells: seq<Cell>, familyId: string, p: Status -> bool): set<nat> {
    set k: nat | k < |cells| && cells[k].familyId == familyId && p(cells[k].status)
  }

  lemma {:induction false} CountIsCardinality(cells: seq<Cell>, familyId: string, p: Status -> bool)
    ensures Count(cells, familyId, p) == |Which(cells, familyId, p)|
  {
    if cells == [] {
      assert Which(cells, familyId, p) == {};
    } else {
      var n := |cells| - 1;
      CountIsCardinality(cells[..n], familyId, p);
      var hit := if cells[n].familyId == familyId && p(cells[n].status) then {n} else {};
      assert Which(cells, familyId, p) == Which(cells[..n], familyId, p) + hit;
    }
  }

  /** The cells of a family with this status. */
  ghost function Having(cells: seq<Cell>, familyId: string, status: Status): set<nat> {
    set k: nat | k < |cells| && cells[k] == Cell(familyId, status)
  }

  lemma PassedAndFailed(cells: seq<Cell>, familyId: string)
    ensures PassedCells(cells, familyId) == |Having(cells, familyId, Passed)|
    ensures FailedCells(cells, familyId) == |Having(cells, familyId, Failed)|
  {
    var passed, failed := (s: Status) => s.Passed?, (s: Status) => s.Failed?;
    CountIsCardinality(cells, familyId, passed);
    CountIsCardinality(cells, familyId, failed);
    assert Which(cells, familyId, passed) == Having(cells, familyId, Passed);
    assert Which(cells, familyId, failed) == Having(cells, familyId, Failed);
  }

  /** The aggregate from the cells: a failure when some family failed twice, a pass when every family passed often enough
      and never failed, and inconclusive otherwise. */
  lemma VerdictMeans(cells: seq<Cell>, families: seq<string>, fixtureCount: nat)
    ensures Verdict(cells, families, fixtureCount) == AggregateFail
       <==> exists f :: f in families && |Having(cells, f, Failed)| >= 2
    ensures Verdict(cells, families, fixtureCount) == AggregatePass
       <==> forall f :: f in families ==> Having(cells, f, Failed) == {} && |Having(cells, f, Passed)| >= fixtureCount
  {
    var summaries := Summaries(cells, families, fixtureCount);
    forall f ensures PassedCells(cells, f) == |Having(cells, f, Passed)| && FailedCells(cells, f) == |Having(cells, f, Failed)| {
      PassedAndFailed(cells, f);
    }
    PassIffFamiliesPass(cells, families, fixtureCount);
    if f :| f in families && |Having(cells, f, Failed)| >= 2 {
      var i :| 0 <= i < |families| && families[i] == f;
      assert summaries[i] in summaries && summaries[i].status == NotSupported;
    }
    if s :| s in summaries && s.status == NotSupported {
      var i :| 0 <= i < |summaries| && summaries[i] == s;
      assert families[i] in families;
    }
  }

  /** The status of a family, by how many of its cells failed and passed. */
  lemma FamilyStatusMeans(cells: seq<Cell>, familyId: string, fixtureCount: nat)
    ensures Summarize(cells, familyId, fixtureCount).status ==
            if |Having(cells, familyId, Failed)| >= 2 then NotSupported
            else if |Having(cells, familyId, Failed)| == 1 then ContractFailure
            else if |Having(cells, familyId, Passed)| < fixtureCount then Incomplete else FamilyPass
  {
    PassedAndFailed(cells, familyId);
  }
}
