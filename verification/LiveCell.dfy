/** One cell of the live matrix: child calls, parent synthesis, gated repair and gated retry, and the verdict. */
module LiveCell {
  import opened Options
  import opened Json
  import opened Text
  import opened TraceGuard
  import opened ParentPaths
  import opened RepairReferences
  import opened RepairPatch
  import opened RepairSafety
  import opened RepairFidelity
  import opened RepairCompleteness
  import opened RepairBlocks
  import opened FreshEvidence

  // ---------- The runtime ----------

  /** What a runtime call yields: a JSON object, or an exception (a timeout or any other). */
  datatype Answer = Output(fields: Fields) | Error(timeout: bool)

  /** The n-th call's answer; nothing is assumed about it. */
  type Script = nat -> Answer

  class Runtime {
    const script: Script
    var calls: nat

    constructor (script: Script)
      ensures this.script == script && calls == 0
    {
      this.script := script;
      calls := 0;
    }

    method ExecuteJsonTask() returns (answer: Answer)
      modifies this
      ensures calls == old(calls) + 1 && answer == script(old(calls))
    {
      answer := script(calls);
      calls := calls + 1;
    }
  }

  // ---------- Repair attempts per cell ----------

  class ParentSynthesisRetryState {
    const maxAttemptsPerCell: nat
    var attempts: map<string, nat>

    ghost predicate Valid()
      reads this
    {
      forall c :: c in attempts ==> attempts[c] <= maxAttemptsPerCell
    }

    constructor (maxAttemptsPerCell: nat)
      ensures Valid() && attempts == map[] && this.maxAttemptsPerCell == maxAttemptsPerCell
    {
      this.maxAttemptsPerCell := maxAttemptsPerCell;
      attempts := map[];
    }

    method EnsureCell(cell: string)
      requires Valid()
      modifies this
      ensures Valid()
      ensures attempts == if cell in old(attempts) then old(attempts) else old(attempts)[cell := 0]
    {
      if cell !in attempts {
        attempts := attempts[cell := 0];
      }
    }

    method CanAttemptRepair(cell: string) returns (can: bool)
      requires Valid()
      modifies this
      ensures Valid()
      ensures attempts == if cell in old(attempts) then old(attempts) else old(attempts)[cell := 0]
      ensures can <==> attempts[cell] < maxAttemptsPerCell
    {
      EnsureCell(cell);
      can := attempts[cell] < maxAttemptsPerCell;
    }

    /** Counts one attempt unless the cell has used its allowance; other cells are untouched. */
    method RecordRepairAttempt(cell: string) returns (recorded: bool)
      requires Valid()
      modifies this
      ensures Valid()
      ensures var used := if cell in old(attempts) then old(attempts)[cell] else 0;
              && (recorded <==> used < maxAttemptsPerCell)
              && attempts == old(attempts)[cell := if recorded then used + 1 else used]
    {
      var can := CanAttemptRepair(cell);
      if !can {
        return false;
      }
      attempts := attempts[cell := attempts[cell] + 1];
      return true;
    }
  }

  // ---------- Fixtures ----------

  datatype Fixture = Fixture(fixtureId: string, selectedChunkIds: seq<string>, chunkIds: seq<string>,
                             expectedFacts: seq<Value>)

  /** `f"{n:04d}"` */
  function FourDigits(n: nat): string {
    var d := Decimal(n);
    if |d| == 1 then "000" + d else if |d| == 2 then "00" + d else if |d| == 3 then "0" + d else d
  }

  /** The evidence of the first `n` expected facts that state id, chunk and text as strings. */
  function EvidenceOfFacts(facts: seq<Value>, n: nat): seq<Evidence>
    requires n <= |facts|
  {
    if n == 0 then []
    else
      var fact := facts[n - 1];
      EvidenceOfFacts(facts, n - 1)
      + if fact.Obj? && Get(fact.fields, "fact_id").Str? && Get(fact.fields, "chunk_id").Str? && Get(fact.fields, "text").Str?
        then [Evidence(fact.fields["fact_id"].text, fact.fields["chunk_id"].text, fact.fields["text"].text,
                       Some("child_" + FourDigits(n)))]
        else []
  }

  function FixtureManifest(fixture: Fixture): seq<Evidence> {
    EvidenceOfFacts(fixture.expectedFacts, |fixture.expectedFacts|)
  }

  method BuildManifestFromFixture(fixture: Fixture) returns (manifest: seq<Evidence>)
    ensures manifest == FixtureManifest(fixture)
  {
    manifest := [];
    for n := 0 to |fixture.expectedFacts|
      invariant manifest == EvidenceOfFacts(fixture.expectedFacts, n)
    {
      var fact := fixture.expectedFacts[n];
      if !fact.Obj? {
        continue;
      }
      var factId, chunkId, text := Get(fact.fields, "fact_id"), Get(fact.fields, "chunk_id"), Get(fact.fields, "text");
      if factId.Str? && chunkId.Str? && text.Str? {
        manifest := manifest + [Evidence(factId.text, chunkId.text, text.text, Some("child_" + FourDigits(n + 1)))];
      }
    }
  }

  function SelectedAmong(chunkIds: seq<string>, selected: seq<string>): seq<string> {
    if chunkIds == [] then []
    else
      var last := chunkIds[|chunkIds| - 1];
      SelectedAmong(chunkIds[..|chunkIds| - 1], selected) + if last in selected then [last] else []
  }

  function SelectedChunks(fixture: Fixture): seq<string> {
    SelectedAmong(fixture.chunkIds, fixture.selectedChunkIds)
  }

  // ---------- The cell as a function of the script ----------

  datatype Artifact = Artifact(
    mandatoryPass: bool,
    records: seq<ChildRecord>,
    coveragePass: bool,
    freshPass: bool,
    manifest: seq<Evidence>,
    parent: Fields,
    initialValidation: Verdict,
    effectiveParent: Fields,
    effectiveValidation: Verdict,
    repaired: Option<Fields>,
    retried: Option<Fields>,
    block: Block)

  /** A cell either raises to its caller or completes; `calls` counts runtime calls, `repairs` is the number of attempts
      that the retry state holds for the cell in the end. */
  datatype Outcome =
    | Raised(timeout: bool, calls: nat)
    | Completed(artifact: Artifact, calls: nat, repairs: nat)

  function CallId(fixtureId: string, familyId: string, n: nat): string {
    fixtureId + "::" + familyId + "::child::" + Decimal(n)
  }

  /** Number of leading calls, among the first `n`, that answer with a JSON object. */
  function Uninterrupted(script: Script, n: nat): (k: nat)
    ensures k <= n
    ensures forall i :: 0 <= i < k ==> script(i).Output?
    ensures k < n ==> script(k).Error?
  {
    if n == 0 then 0
    else
      var k := Uninterrupted(script, n - 1);
      if k == n - 1 && script(n - 1).Output? then n else k
  }

  function Records(fixture: Fixture, familyId: string, script: Script, n: nat): seq<ChildRecord>
    requires n <= |SelectedChunks(fixture)|
    requires forall i :: 0 <= i < n ==> script(i).Output?
  {
    seq(n, i requires 0 <= i < n => ChildRecord(CallId(fixture.fixtureId, familyId, i + 1),
                                                 SelectedChunks(fixture)[i], script(i).fields))
  }

  function Coverage(fixture: Fixture, records: seq<ChildRecord>): bool {
    (set c | c in fixture.selectedChunkIds) == (set r | r in records :: r.chunkId)
  }

  /** The effective parent, patch, retry and block of a repair, and how many runtime calls it took. */
  datatype Ending = Ending(effective: Fields, repaired: Option<Fields>, retried: Option<Fields>, block: Block, calls: nat)

  /** The part of a cell fixed once parent and children have answered. */
  datatype Evidenced = Evidenced(records: seq<ChildRecord>, parent: Fields, manifest: seq<Evidence>, handles: ChildHandles,
                                 coverage: bool, observed: bool)
  {
    function Refs(): seq<Reference> {
      References(parent, manifest, handles)
    }

    function Initial(): Block {
      InitialBlock(Validate(manifest, parent), coverage, Refs())
    }

    function Patched(response: Fields): Fields {
      ApplyAll(parent, response, Refs())
    }

    function FidelityOf(other: Fields): Report {
      Fidelity(parent, other, RulesFor(manifest, handles, Refs()))
    }

    function Attempted(response: Fields): Block {
      AttemptedBlock(Initial(), Validate(manifest, Patched(response)), ResponseErrors(response, Refs()),
                     FidelityOf(Patched(response)))
    }

    function Retried(response: Fields, retry: Fields): Block {
      RetryBlock(Attempted(response), Validate(manifest, retry), FidelityOf(retry))
    }

    function Finish(effective: Fields, repaired: Option<Fields>, retried: Option<Fields>, block: Block): Artifact {
      var validation := Validate(manifest, effective);
      Artifact(validation.accepted && coverage && observed && BlockPass(block),
               records, coverage, observed, manifest, parent, Validate(manifest, parent), effective, validation,
               repaired, retried, block)
    }

    /** How a scheduled repair ends, given the answers that it and its retry would receive. */
    function RepairEnding(repair: Answer, retry: Answer): Ending {
      match repair
      case Error(_) => Ending(parent, None, None, RepairErrorBlock(Initial()), 1)
      case Output(response) =>
        if Attempted(response).repairAccept != Some(true) then
          Ending(Patched(response), Some(Patched(response)), None, Attempted(response), 1)
        else match retry
          case Error(_) => Ending(Patched(response), Some(Patched(response)), None, RetryErrorBlock(Attempted(response)), 2)
          case Output(again) => Ending(again, Some(Patched(response)), Some(again), Retried(response, again), 2)
    }

    /** A cell that ends like this, after `n` calls before the repair. */
    function Concluded(end: Ending, n: nat, repairs: nat): Outcome {
      Completed(Finish(end.effective, end.repaired, end.retried, end.block), n + end.calls, repairs)
    }

    /** Repair and retry, given the answers those two calls would receive; `n` calls were made before. */
    function Conclude(repair: Answer, retry: Answer, n: nat): Outcome {
      if !Initial().eligible then Concluded(Ending(parent, None, None, Initial(), 0), n, 0)
      else Concluded(RepairEnding(repair, retry), n, 1)
    }
  }

  function Gather(fixture: Fixture, records: seq<ChildRecord>, parent: Fields, str: Rendering): Evidenced {
    var expected := FixtureManifest(fixture);
    Evidenced(records, parent, FreshManifest(expected, records), HandlesOfChildren(records, str),
              Coverage(fixture, records), FreshPass(expected, records))
  }

  function RunCell(fixture: Fixture, familyId: string, script: Script, str: Rendering): Outcome {
    var n := |SelectedChunks(fixture)|;
    var k := Uninterrupted(script, n);
    if k < n then Raised(script(k).timeout, k + 1)
    else match script(n)
      case Error(timeout) => Raised(timeout, n + 1)
      case Output(parent) =>
        ConcludedBy(Gather(fixture, Records(fixture, familyId, script, n), parent, str), script, n + 1)
  }

  function ConcludedBy(e: Evidenced, script: Script, n: nat): Outcome {
    e.Conclude(script(n), script(n + 1), n)
  }

  // ---------- The cell as the source runs it ----------

  method SelectChunks(fixture: Fixture) returns (selected: seq<string>)
    ensures selected == SelectedChunks(fixture)
  {
    selected := [];
    for n := 0 to |fixture.chunkIds|
      invariant selected == SelectedAmong(fixture.chunkIds[..n], fixture.selectedChunkIds)
    {
      assert fixture.chunkIds[..n + 1][..n] == fixture.chunkIds[..n];
      if fixture.chunkIds[n] in fixture.selectedChunkIds {
        selected := selected + [fixture.chunkIds[n]];
      }
    }
    assert fixture.chunkIds[..|fixture.chunkIds|] == fixture.chunkIds;
  }

  lemma RecordsExtend(fixture: Fixture, familyId: string, script: Script, n: nat)
    requires n < |SelectedChunks(fixture)| && forall i :: 0 <= i <= n ==> script(i).Output?
    ensures Records(fixture, familyId, script, n + 1)
         == Records(fixture, familyId, script, n)
            + [ChildRecord(CallId(fixture.fixtureId, familyId, n + 1), SelectedChunks(fixture)[n], script(n).fields)]
  {
  }

  /** Calls one child per selected chunk, stopping at the first that raises. */
  method CallChildren(fixture: Fixture, familyId: string, runtime: Runtime)
    returns (records: seq<ChildRecord>, raised: Option<Answer>)
    requires runtime.calls == 0
    modifies runtime
    ensures var n := |SelectedChunks(fixture)|;
            var k := Uninterrupted(runtime.script, n);
            if k < n then raised == Some(runtime.script(k)) && runtime.calls == k + 1
            else raised.None? && runtime.calls == n && records == Records(fixture, familyId, runtime.script, n)
  {
    records, raised := [], None;
    var chunks := SelectChunks(fixture);
    for n := 0 to |chunks|
      invariant runtime.calls == n == Uninterrupted(runtime.script, n)
      invariant records == Records(fixture, familyId, runtime.script, n)
    {
      var answer := runtime.ExecuteJsonTask();
      if answer.Error? {
        raised := Some(answer);
        UninterruptedStops(runtime.script, n, |chunks|);
        return;
      }
      records := records + [ChildRecord(CallId(fixture.fixtureId, familyId, |records| + 1), chunks[n], answer.fields)];
      RecordsExtend(fixture, familyId, runtime.script, n);
    }
  }

  lemma {:induction false} UninterruptedStops(script: Script, k: nat, n: nat)
    requires Uninterrupted(script, k) == k && k < n && script(k).Error?
    ensures Uninterrupted(script, n) == k
  {
    if n - 1 > k {
      UninterruptedStops(script, k, n - 1);
    }
  }

  method AttemptRepair(e: Evidenced, initial: Block, response: Fields, records: seq<ChildRecord>, str: Rendering)
    returns (patched: Fields, validation: Verdict, block: Block)
    requires e.handles == HandlesOfChildren(records, str) && initial == e.Initial()
    ensures patched == e.Patched(response)
    ensures validation == Validate(e.manifest, patched)
    ensures block == e.Attempted(response)
  {
    var refs := initial.references;
    patched := ApplyRepairedEvidenceChunkIds(e.parent, response, refs);
    validation := ValidateParentSynthesis(e.manifest, patched);
    var responseErrors := RepairResponseHandleErrors(response, refs);
    var report := MissingHandleRepairFidelityErrors(e.parent, patched, e.manifest, records, refs, str);
    block := AttemptedBlock(initial, validation, responseErrors, report);
  }

  method AttemptRetry(e: Evidenced, attempted: Block, again: Fields, records: seq<ChildRecord>, str: Rendering,
                      ghost response: Fields)
    returns (validation: Verdict, block: Block)
    requires e.handles == HandlesOfChildren(records, str) && attempted == e.Attempted(response)
    ensures validation == Validate(e.manifest, again)
    ensures block == e.Retried(response, again)
  {
    validation := ValidateParentSynthesis(e.manifest, again);
    var report := MissingHandleRepairFidelityErrors(e.parent, again, e.manifest, records, attempted.references, str);
    block := RetryBlock(attempted, validation, report);
  }

  /** Manifest, validation and repair eligibility, once the parent has answered. */
  method GatherEvidence(fixture: Fixture, records: seq<ChildRecord>, parent: Fields, str: Rendering)
    returns (e: Evidenced, validation: Verdict, block: Block)
    ensures e == Gather(fixture, records, parent, str)
    ensures validation == Validate(e.manifest, parent)
    ensures block == e.Initial()
  {
    var expected := BuildManifestFromFixture(fixture);
    var manifest := BuildFreshChildEvidenceManifest(expected, records);
    var observed := manifest != [] && |manifest| == |expected|;
    validation := ValidateParentSynthesis(manifest, parent);
    var coverage := Coverage(fixture, records);
    var refs := IdentifyMissingEvidenceHandleReferences(parent, validation, manifest, records, str);
    var handles := ChildEvidenceHandlesByFact(records, str);
    block := InitialBlock(validation, coverage, refs);
    e := Evidenced(records, parent, manifest, handles, coverage, observed);
  }

  /** The mandatory verdict and the artifact that records it. */
  method AssembleArtifact(e: Evidenced, initialValidation: Verdict, effective: Fields, validation: Verdict,
                          repaired: Option<Fields>, retried: Option<Fields>, block: Block)
    returns (artifact: Artifact)
    requires initialValidation == Validate(e.manifest, e.parent) && validation == Validate(e.manifest, effective)
    ensures artifact == e.Finish(effective, repaired, retried, block)
  {
    var retryPass := if block.repairAccept == Some(true) then block.retryAccept == Some(true)
                     else block.retryAccept != Some(false);
    var mandatoryPass :=
      validation.accepted && e.coverage && e.observed && block.repairAccept != Some(false) && retryPass;
    artifact := Artifact(mandatoryPass, e.records, e.coverage, e.observed, e.manifest, e.parent, initialValidation,
                         effective, validation, repaired, retried, block);
  }

  /** The gated retry call, after a patch was accepted. */
  method Retry(e: Evidenced, attempted: Block, patched: Fields, records: seq<ChildRecord>, runtime: Runtime, str: Rendering,
               ghost response: Fields)
    returns (end: Ending)
    requires e.handles == HandlesOfChildren(records, str)
    requires patched == e.Patched(response) && attempted == e.Attempted(response) && attempted.repairAccept == Some(true)
    modifies runtime
    ensures runtime.calls == old(runtime.calls) + 1
    ensures end == e.RepairEnding(Output(response), runtime.script(old(runtime.calls)))
  {
    var retryAnswer := runtime.ExecuteJsonTask();
    if retryAnswer.Error? {
      return Ending(patched, Some(patched), None, RetryErrorBlock(attempted), 2);
    }
    var validation, block := AttemptRetry(e, attempted, retryAnswer.fields, records, str, response);
    end := Ending(retryAnswer.fields, Some(patched), Some(retryAnswer.fields), block, 2);
  }

  /** The gated repair call and, if its patch is accepted, the gated retry call. */
  method RepairAndRetry(e: Evidenced, initial: Block, records: seq<ChildRecord>, runtime: Runtime, str: Rendering)
    returns (end: Ending)
    requires e.handles == HandlesOfChildren(records, str) && initial == e.Initial()
    modifies runtime
    ensures end == e.RepairEnding(runtime.script(old(runtime.calls)), runtime.script(old(runtime.calls) + 1))
    ensures runtime.calls == old(runtime.calls) + end.calls
  {
    var repairAnswer := runtime.ExecuteJsonTask();
    if repairAnswer.Error? {
      return Ending(e.parent, None, None, RepairErrorBlock(initial), 1);
    }
    var patched, validation, block := AttemptRepair(e, initial, repairAnswer.fields, records, str);
    if block.repairAccept == Some(true) {
      end := Retry(e, block, patched, records, runtime, str, repairAnswer.fields);
    } else {
      end := Ending(patched, Some(patched), None, block, 1);
    }
  }

  /** The same, said about the cell. */
  method RepairTo(e: Evidenced, initial: Block, records: seq<ChildRecord>, runtime: Runtime, str: Rendering)
    returns (end: Ending)
    requires e.handles == HandlesOfChildren(records, str) && initial == e.Initial() && initial.eligible
    modifies runtime
    ensures ConcludedBy(e, runtime.script, old(runtime.calls)) == e.Concluded(end, old(runtime.calls), 1)
    ensures runtime.calls == old(runtime.calls) + end.calls
  {
    end := RepairAndRetry(e, initial, records, runtime, str);
    ConcludedByRepair(e, runtime.script, old(runtime.calls));
  }

  /** Gates one automatic repair attempt, and counts it before any runtime call. */
  method ScheduleTraceguardRepairAttempt(block: Block, retryState: ParentSynthesisRetryState, cell: string)
    returns (scheduled: bool)
    requires retryState.Valid() && cell in retryState.attempts
    modifies retryState
    ensures scheduled
      <==> block.eligible && !block.attempted && old(retryState.attempts)[cell] < retryState.maxAttemptsPerCell
    ensures retryState.attempts
         == old(retryState.attempts)[cell := old(retryState.attempts)[cell] + if scheduled then 1 else 0]
  {
    if !block.eligible || block.attempted {
      return false;
    }
    scheduled := retryState.RecordRepairAttempt(cell);
  }

  lemma InitialBlockUnattempted(e: Evidenced)
    ensures !e.Initial().attempted
  {
  }

  /** The rest of a cell once its evidence is gathered: the gated repair and retry, or the verdict at once. */
  method Conclude(e: Evidenced, validation: Verdict, block: Block, records: seq<ChildRecord>, runtime: Runtime, str: Rendering,
                  retryState: ParentSynthesisRetryState, cell: string)
    returns (outcome: Outcome)
    requires validation == Validate(e.manifest, e.parent) && block == e.Initial()
    requires e.handles == HandlesOfChildren(records, str)
    requires retryState.Valid() && retryState.maxAttemptsPerCell == 1
    requires cell in retryState.attempts && retryState.attempts[cell] == 0
    modifies runtime, retryState
    ensures outcome == ConcludedBy(e, runtime.script, old(runtime.calls))
    ensures outcome.calls == runtime.calls
    ensures outcome.Completed? && cell in retryState.attempts && outcome.repairs == retryState.attempts[cell]
  {
    InitialBlockUnattempted(e);
    var scheduled := ScheduleTraceguardRepairAttempt(block, retryState, cell);
    if scheduled {
      outcome := FinishAfterRepair(e, validation, block, records, runtime, str, retryState.attempts[cell]);
    } else {
      outcome := FinishAtOnce(e, validation, block, runtime.calls, retryState.attempts[cell], runtime.script);
    }
  }

  method FinishAfterRepair(e: Evidenced, validation: Verdict, block: Block, records: seq<ChildRecord>, runtime: Runtime,
                           str: Rendering, repairs: nat)
    returns (outcome: Outcome)
    requires validation == Validate(e.manifest, e.parent) && block == e.Initial() && block.eligible && repairs == 1
    requires e.handles == HandlesOfChildren(records, str)
    modifies runtime
    ensures outcome == ConcludedBy(e, runtime.script, old(runtime.calls))
    ensures outcome.Completed? && outcome.calls == runtime.calls && outcome.repairs == repairs
  {
    ghost var before := runtime.calls;
    var end := RepairTo(e, block, records, runtime, str);
    outcome := Assemble(e, validation, end, runtime.calls, repairs);
    assert runtime.calls - end.calls == before;
  }

  method FinishAtOnce(e: Evidenced, validation: Verdict, block: Block, calls: nat, repairs: nat, ghost script: Script)
    returns (outcome: Outcome)
    requires validation == Validate(e.manifest, e.parent) && block == e.Initial() && !block.eligible && repairs == 0
    ensures outcome == ConcludedBy(e, script, calls)
    ensures outcome.Completed? && outcome.calls == calls && outcome.repairs == repairs
  {
    ConcludedAtOnce(e, script, calls);
    outcome := Assemble(e, validation, Ending(e.parent, None, None, block, 0), calls, repairs);
  }

  lemma ConcludedByRepair(e: Evidenced, script: Script, n: nat)
    requires e.Initial().eligible
    ensures ConcludedBy(e, script, n) == e.Concluded(e.RepairEnding(script(n), script(n + 1)), n, 1)
  {
  }

  lemma ConcludedAtOnce(e: Evidenced, script: Script, n: nat)
    requires !e.Initial().eligible
    ensures ConcludedBy(e, script, n) == e.Concluded(Ending(e.parent, None, None, e.Initial(), 0), n, 0)
  {
  }

  method Assemble(e: Evidenced, initialValidation: Verdict, end: Ending, calls: nat, repairs: nat) returns (outcome: Outcome)
    requires initialValidation == Validate(e.manifest, e.parent) && end.calls <= calls
    ensures outcome == e.Concluded(end, calls - end.calls, repairs) && outcome.Completed?
    ensures outcome.calls == calls && outcome.repairs == repairs
  {
    var validation := ValidateParentSynthesis(e.manifest, end.effective);
    var artifact := AssembleArtifact(e, initialValidation, end.effective, validation, end.repaired, end.retried, end.block);
    outcome := Completed(artifact, calls, repairs);
  }

  method RunLiveRlmTraceguardCell(fixture: Fixture, familyId: string, runtime: Runtime, str: Rendering)
    returns (outcome: Outcome)
    requires runtime.calls == 0
    modifies runtime
    ensures outcome == RunCell(fixture, familyId, runtime.script, str)
    ensures runtime.calls == outcome.calls
  {
    var cell := fixture.fixtureId + "::" + familyId + "::egri_traceguard::parent_synthesis";
    var retryState := new ParentSynthesisRetryState(1);
    retryState.EnsureCell(cell);
    var records, raised := CallChildren(fixture, familyId, runtime);
    if raised.Some? {
      return Raised(raised.value.timeout, runtime.calls);
    }
    var parentAnswer := runtime.ExecuteJsonTask();
    if parentAnswer.Error? {
      return Raised(parentAnswer.timeout, runtime.calls);
    }
    var e, validation, block := GatherEvidence(fixture, records, parentAnswer.fields, str);
    outcome := Conclude(e, validation, block, records, runtime, str, retryState, cell);
  }
}
