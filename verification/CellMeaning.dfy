/** What a cell is given, calls, records and reports, in terms of its fixture and its script of answers. */
module CellMeaning {
  import opened Options
  import opened Json
  import opened Text
  import opened TraceGuard
  import opened RepairReferences
  import opened RepairPatch
  import opened RepairResolution
  import opened RepairFidelity
  import opened RepairSafety
  import opened RepairCompleteness
  import opened RepairBlocks
  import opened FreshEvidence
  import opened LiveCell

  // ---------- The fixture ----------

  /** The fact states id, chunk and text as strings. */
  predicate Expects(fact: Value, f: string, chunk: string, text: string) {
    && fact.Obj?
    && "fact_id" in fact.fields && fact.fields["fact_id"] == Str(f)
    && "chunk_id" in fact.fields && fact.fields["chunk_id"] == Str(chunk)
    && "text" in fact.fields && fact.fields["text"] == Str(text)
  }

  /** The entry is made from the fact at this position, counted from one in its call id. */
  predicate EntryFor(facts: seq<Value>, k: nat, e: Evidence) {
    && k < |facts| && Expects(facts[k], e.factId, e.chunkId, e.text)
    && e.childCallId == Some("child_" + FourDigits(k + 1))
  }

  lemma {:induction false} EvidenceOfFactsMeans(facts: seq<Value>, n: nat, e: Evidence)
    requires n <= |facts|
    ensures e in EvidenceOfFacts(facts, n) <==> EntryAmong(facts, n, e)
  {
    if n > 0 {
      EvidenceOfFactsMeans(facts, n - 1, e);
      LastFact(facts, n, e);
      OneMoreEntry(facts, n, e);
    }
  }

  ghost predicate EntryAmong(facts: seq<Value>, n: nat, e: Evidence) {
    exists k: nat :: k < n && EntryFor(facts, k, e)
  }

  lemma OneMoreEntry(facts: seq<Value>, n: nat, e: Evidence)
    requires n > 0
    ensures EntryAmong(facts, n, e) <==> EntryAmong(facts, n - 1, e) || EntryFor(facts, n - 1, e)
  {
  }

  lemma LastFact(facts: seq<Value>, n: nat, e: Evidence)
    requires 0 < n <= |facts|
    ensures e in EvidenceOfFacts(facts, n) <==> e in EvidenceOfFacts(facts, n - 1) || EntryFor(facts, n - 1, e)
  {
  }

  /** The manifest has one entry per expected fact that states its three fields, numbered by its position. */
  lemma FixtureManifestMeans(fixture: Fixture, e: Evidence)
    ensures e in FixtureManifest(fixture) <==> exists k: nat :: EntryFor(fixture.expectedFacts, k, e)
  {
    EvidenceOfFactsMeans(fixture.expectedFacts, |fixture.expectedFacts|, e);
    assert forall k: nat :: EntryFor(fixture.expectedFacts, k, e) ==> k < |fixture.expectedFacts|;
  }

  predicate AllZeros(s: string) {
    forall i :: 0 <= i < |s| ==> s[i] == '0'
  }

  /** Zeros, then the number's decimal digits: four characters, or as many as there are digits. */
  lemma FourDigitsMean(n: nat) returns (zeros: string)
    ensures FourDigits(n) == zeros + Decimal(n) && AllZeros(zeros)
    ensures |zeros| == if |Decimal(n)| < 4 then 4 - |Decimal(n)| else 0
  {
    var d := Decimal(n);
    zeros := if |d| == 1 then "000" else if |d| == 2 then "00" else if |d| == 3 then "0" else "";
    assert |d| >= 4 ==> "" + d == d;
  }

  /** Some positions in order: all those of selected chunks and no others, and the chunks there. */
  ghost predicate PositionsOf(positions: seq<nat>, chunkIds: seq<string>, selected: seq<string>, chunks: seq<string>) {
    && |positions| == |chunks|
    && (forall i, j :: 0 <= i < j < |positions| ==> positions[i] < positions[j])
    && (forall i :: 0 <= i < |positions| ==> positions[i] < |chunkIds| && chunks[i] == chunkIds[positions[i]])
    && (forall k: nat :: k in positions <==> k < |chunkIds| && chunkIds[k] in selected)
  }

  lemma OneMorePosition(positions: seq<nat>, chunkIds: seq<string>, selected: seq<string>, chunks: seq<string>, c: string)
    requires PositionsOf(positions, chunkIds, selected, chunks)
    ensures c in selected ==> PositionsOf(positions + [|chunkIds|], chunkIds + [c], selected, chunks + [c])
    ensures c !in selected ==> PositionsOf(positions, chunkIds + [c], selected, chunks)
  {
    forall k: nat ensures k in positions + [|chunkIds|] <==> k in positions || k == |chunkIds| {
    }
  }

  /** The chunks that are called, in the order of the fixture. */
  lemma {:induction false} SelectedPositions(chunkIds: seq<string>, selected: seq<string>) returns (positions: seq<nat>)
    ensures PositionsOf(positions, chunkIds, selected, SelectedAmong(chunkIds, selected))
  {
    if chunkIds == [] {
      positions := [];
    } else {
      var front, last := chunkIds[..|chunkIds| - 1], chunkIds[|chunkIds| - 1];
      positions := SelectedPositions(front, selected);
      OneMorePosition(positions, front, selected, SelectedAmong(front, selected), last);
      assert front + [last] == chunkIds;
      if last in selected {
        positions := positions + [|front|];
      } else {
        assert SelectedAmong(chunkIds, selected) == SelectedAmong(front, selected);
      }
    }
  }

  lemma SelectedMeans(fixture: Fixture, c: string)
    ensures c in SelectedChunks(fixture) <==> c in fixture.chunkIds && c in fixture.selectedChunkIds
  {
    var positions := SelectedPositions(fixture.chunkIds, fixture.selectedChunkIds);
    if c in fixture.chunkIds && c in fixture.selectedChunkIds {
      var k :| 0 <= k < |fixture.chunkIds| && fixture.chunkIds[k] == c;
      var i :| 0 <= i < |positions| && positions[i] == k;
      assert SelectedChunks(fixture)[i] == c;
    }
  }

  /** Coverage: the selected chunk ids and the chunks of the records are the same. */
  lemma CoverageIff(fixture: Fixture, records: seq<ChildRecord>)
    ensures Coverage(fixture, records)
       <==> && (forall c :: c in fixture.selectedChunkIds ==> exists r :: r in records && r.chunkId == c)
            && (forall r :: r in records ==> r.chunkId in fixture.selectedChunkIds)
  {
    var wanted, met := (set c | c in fixture.selectedChunkIds), (set r | r in records :: r.chunkId);
    forall r | r in records ensures r.chunkId in met {
    }
    if Coverage(fixture, records) {
      forall c | c in fixture.selectedChunkIds ensures exists r :: r in records && r.chunkId == c {
        assert c in wanted && c in met;
      }
      forall r | r in records ensures r.chunkId in fixture.selectedChunkIds {
        assert r.chunkId in wanted;
      }
    }
  }

  /** Coverage of a cell whose children all answered fails exactly when a selected chunk is not in the fixture. */
  lemma CoverageOfCell(fixture: Fixture, familyId: string, script: Script)
    requires forall i :: 0 <= i < |SelectedChunks(fixture)| ==> script(i).Output?
    ensures Coverage(fixture, Records(fixture, familyId, script, |SelectedChunks(fixture)|))
       <==> forall c :: c in fixture.selectedChunkIds ==> c in fixture.chunkIds
  {
    var chunks, records := SelectedChunks(fixture), Records(fixture, familyId, script, |SelectedChunks(fixture)|);
    CoverageIff(fixture, records);
    forall c ensures (exists r :: r in records && r.chunkId == c) <==> c in chunks {
      if c in chunks {
        var i :| 0 <= i < |chunks| && chunks[i] == c;
        assert records[i] in records;
      }
    }
    forall c ensures c in chunks <==> c in fixture.chunkIds && c in fixture.selectedChunkIds {
      SelectedMeans(fixture, c);
    }
    forall r | r in records ensures r.chunkId in fixture.selectedChunkIds {
      assert r.chunkId in chunks;
    }
  }

  // ---------- The calls ----------

  /** The first call that raises, among one per selected chunk and one for the parent. */
  ghost predicate FirstRaise(script: Script, n: nat, k: nat) {
    k <= n && script(k).Error? && forall i :: 0 <= i < k ==> script(i).Output?
  }

  lemma {:induction false} UninterruptedMeans(script: Script, n: nat, k: nat)
    requires forall i :: 0 <= i < k ==> script(i).Output?
    ensures k <= n && (k < n ==> script(k).Error?) ==> Uninterrupted(script, n) == k
  {
  }

  /** A cell raises at its first failing call. */
  lemma CellRaises(fixture: Fixture, familyId: string, script: Script, str: Rendering, k: nat)
    requires FirstRaise(script, |SelectedChunks(fixture)|, k)
    ensures RunCell(fixture, familyId, script, str) == Raised(script(k).timeout, k + 1)
  {
    UninterruptedMeans(script, |SelectedChunks(fixture)|, k);
  }

  /** The record that the answer of a child becomes. */
  function RecordOf(fixture: Fixture, familyId: string, script: Script, i: nat): ChildRecord
    requires i < |SelectedChunks(fixture)| && script(i).Output?
  {
    ChildRecord(fixture.fixtureId + "::" + familyId + "::child::" + Decimal(i + 1), SelectedChunks(fixture)[i], script(i).fields)
  }

  /** Without a failing call it completes, with a record per selected chunk, and the parent that the next call answered. */
  lemma CellCompletes(fixture: Fixture, familyId: string, script: Script, str: Rendering)
    requires forall i :: 0 <= i <= |SelectedChunks(fixture)| ==> script(i).Output?
    ensures var n, o := |SelectedChunks(fixture)|, RunCell(fixture, familyId, script, str);
            && o.Completed? && o.artifact.parent == script(n).fields && |o.artifact.records| == n
            && forall i :: 0 <= i < n ==> o.artifact.records[i] == RecordOf(fixture, familyId, script, i)
  {
    var n := |SelectedChunks(fixture)|;
    UninterruptedMeans(script, n, n);
    var e := Gather(fixture, Records(fixture, familyId, script, n), script(n).fields, str);
    assert RunCell(fixture, familyId, script, str) == e.Conclude(script(n + 1), script(n + 2), n + 1);
    ConcludedKeeps(e, script(n + 1), script(n + 2), n + 1);
    RecordsAre(fixture, familyId, script);
  }

  lemma RecordsAre(fixture: Fixture, familyId: string, script: Script)
    requires forall i :: 0 <= i < |SelectedChunks(fixture)| ==> script(i).Output?
    ensures var records := Records(fixture, familyId, script, |SelectedChunks(fixture)|);
            && |records| == |SelectedChunks(fixture)|
            && forall i :: 0 <= i < |records| ==> records[i] == RecordOf(fixture, familyId, script, i)
  {
  }

  lemma FinishKeeps(e: Evidenced, effective: Fields, repaired: Option<Fields>, retried: Option<Fields>, block: Block)
    ensures var a := e.Finish(effective, repaired, retried, block);
            && a.parent == e.parent && a.records == e.records && a.manifest == e.manifest
            && a.coveragePass == e.coverage && a.freshPass == e.observed
            && a.effectiveParent == effective && a.repaired == repaired && a.retried == retried && a.block == block
  {
  }

  lemma ConcludedKeeps(e: Evidenced, repair: Answer, retry: Answer, n: nat)
    ensures var o := e.Conclude(repair, retry, n);
            && o.Completed? && o.artifact.parent == e.parent && o.artifact.records == e.records
            && o.artifact.manifest == e.manifest && o.artifact.coveragePass == e.coverage && o.artifact.freshPass == e.observed
  {
    var end := if e.Initial().eligible then e.RepairEnding(repair, retry) else Ending(e.parent, None, None, e.Initial(), 0);
    FinishKeeps(e, end.effective, end.repaired, end.retried, end.block);
  }

  // ---------- Why a parent was not accepted ----------

  ghost predicate RejectedFor(v: Verdict, reason: Reason) {
    exists r :: r in v.rejectedClaims && r.reason == reason
  }

  ghost predicate OnlyRejectedFor(v: Verdict, reason: Reason) {
    v.rejectedClaims != [] && forall r :: r in v.rejectedClaims ==> r.reason == reason
  }

  lemma ReasonsMean(v: Verdict, reason: Reason)
    ensures reason in Reasons(v) <==> RejectedFor(v, reason)
    ensures Reasons(v) == [reason] <==> OnlyRejectedFor(v, reason)
    ensures Reasons(v) == [] <==> v.rejectedClaims == []
  {
    ReasonsAre(v);
    var all := seq(|v.rejectedClaims|, i requires 0 <= i < |v.rejectedClaims| => v.rejectedClaims[i].reason);
    if OnlyRejectedFor(v, reason) {
      DedupConstant(all, reason);
    }
    if Reasons(v) == [reason] {
      assert Reasons(v)[0] in Reasons(v);
      forall r | r in v.rejectedClaims ensures r.reason == reason {
        assert r.reason in Reasons(v);
      }
    }
    if v.rejectedClaims != [] {
      assert v.rejectedClaims[0] in v.rejectedClaims;
      assert v.rejectedClaims[0].reason in Reasons(v);
    }
  }

  lemma {:induction false} FirstOfDedup<T(!new)>(s: seq<T>)
    requires s != []
    ensures Dedup(s) != [] && Dedup(s)[0] == s[0]
  {
    if |s| > 1 {
      FirstOfDedup(s[..|s| - 1]);
    } else {
      assert s[..0] == [];
    }
  }

  lemma FirstReason(v: Verdict)
    requires v.rejectedClaims != []
    ensures Reasons(v) != [] && Reasons(v)[0] == v.rejectedClaims[0].reason
  {
    FirstOfDedup(seq(|v.rejectedClaims|, i requires 0 <= i < |v.rejectedClaims| => v.rejectedClaims[i].reason));
  }

  /** The reason the block records before any repair. */
  lemma InitialFailureMeans(v: Verdict, coverage: bool, refs: seq<Reference>)
    requires v.accepted <==> v.rejectedClaims == []
    ensures var b := InitialBlock(v, coverage, refs);
            b.initialFailure ==
            if v.accepted then None
            else if !coverage then Some(CoverageFailed)
            else if OnlyRejectedFor(v, MissingEvidenceHandle) then
              Some(if b.eligible then HandleMissing else HandleUnresolved)
            else if RejectedFor(v, MissingEvidenceHandle) then Some(MixedReasons)
            else Some(Because(v.rejectedClaims[0].reason))
    ensures var b := InitialBlock(v, coverage, refs);
            b.strategy == (if b.eligible then PatchHandles else if b.initialFailure == None then SkipAccepted
                           else if b.initialFailure == Some(MixedReasons) then SkipNonExclusive else SkipNonRepairable)
  {
    ReasonsMean(v, MissingEvidenceHandle);
    OnlyMissingIffSingleton(v);
    if !v.accepted {
      FirstReason(v);
    }
  }

  /** The reason a repaired or retried parent is refused for, when its fidelity is in order. */
  lemma AfterRepairFailureMeans(v: Verdict)
    ensures AfterRepairFailure(v) ==
            if v.rejectedClaims == [] then RepairRejected
            else if OnlyRejectedFor(v, MissingEvidenceHandle) then HandleMissing
            else if RejectedFor(v, MissingEvidenceHandle) then MixedReasonsAfterRepair
            else Because(v.rejectedClaims[0].reason)
  {
    ReasonsMean(v, MissingEvidenceHandle);
    if v.rejectedClaims != [] {
      FirstReason(v);
    }
  }

  /** A repair call that raises leaves the parent as it was. */
  lemma RepairRaises(e: Evidenced, repair: Answer, retry: Answer, n: nat)
    requires e.Initial().eligible && repair.Error?
    ensures var o := e.Conclude(repair, retry, n); var a := o.artifact;
            && o.repairs == 1 && o.calls == n + 1
            && a.effectiveParent == e.parent && a.repaired == None && a.retried == None
            && a.block.attempted && a.block.repairAccept == Some(false) && a.block.failure == Some(RepairRuntimeError)
  {
  }

  /** A patched parent counts when the gate accepts it, the response answers well, and fidelity is in order. */
  ghost predicate RepairHolds(e: Evidenced, response: Fields) {
    var patched := ApplyAll(e.parent, response, e.Refs());
    Validate(e.manifest, patched).accepted && ResponseErrors(response, e.Refs()) == [] && e.FidelityOf(patched).Clean()
  }

  lemma AttemptedMeans(initial: Block, v: Verdict, errors: seq<Reference>, report: Report)
    ensures var b := AttemptedBlock(initial, v, errors, report);
            && b.attempted && b.retryAttempted == initial.retryAttempted
            && b.repairAccept == Some(v.accepted && errors == [] && report.Clean())
            && (b.repairAccept == Some(false) ==>
                  b.failure == Some(if errors == [] && report.Clean() then AfterRepairFailure(v) else PatchFidelityFailed))
            && (b.repairAccept == Some(true) ==> b.failure == None)
  {
  }

  lemma NotRetriedYet(e: Evidenced)
    ensures !e.Initial().retryAttempted
  {
  }

  lemma RefusedEnding(e: Evidenced, response: Fields, retry: Answer)
    requires e.Attempted(response).repairAccept != Some(true)
    ensures e.RepairEnding(Output(response), retry)
         == Ending(e.Patched(response), Some(e.Patched(response)), None, e.Attempted(response), 1)
  {
  }

  /** A repair that does not hold ends the cell with its patched parent. */
  lemma RepairRefused(e: Evidenced, repair: Answer, retry: Answer, n: nat)
    requires e.Initial().eligible && repair.Output? && !RepairHolds(e, repair.fields)
    ensures var o := e.Conclude(repair, retry, n); var a := o.artifact;
            && o.repairs == 1 && o.calls == n + 1
            && a.effectiveParent == ApplyAll(e.parent, repair.fields, e.Refs())
            && a.repaired == Some(a.effectiveParent) && a.retried == None
            && a.block.attempted && a.block.repairAccept == Some(false) && !a.block.retryAttempted
            && a.block.failure == Some(
                 if ResponseErrors(repair.fields, e.Refs()) == [] && e.FidelityOf(a.effectiveParent).Clean()
                 then AfterRepairFailure(Validate(e.manifest, a.effectiveParent)) else PatchFidelityFailed)
  {
    var patched := e.Patched(repair.fields);
    AttemptedMeans(e.Initial(), Validate(e.manifest, patched), ResponseErrors(repair.fields, e.Refs()), e.FidelityOf(patched));
    NotRetriedYet(e);
    RefusedEnding(e, repair.fields, retry);
    FinishKeeps(e, patched, Some(patched), None, e.Attempted(repair.fields));
  }

  /** A repair that holds is retried once; what the retry answers is what counts. */
  lemma RepairRetried(e: Evidenced, repair: Answer, retry: Answer, n: nat)
    requires e.Initial().eligible && repair.Output? && RepairHolds(e, repair.fields)
    ensures var o := e.Conclude(repair, retry, n); var a := o.artifact;
            && o.repairs == 1 && o.calls == n + 2
            && a.repaired == Some(ApplyAll(e.parent, repair.fields, e.Refs()))
            && a.block.repairAccept == Some(true) && a.block.failure == None && a.block.retryAttempted
    ensures var a := e.Conclude(repair, retry, n).artifact;
            if retry.Error? then
              && a.effectiveParent == a.repaired.value && a.retried == None
              && a.block.retryAccept == Some(false) && a.block.retryFailure == Some(RetryRuntimeError)
            else
              && a.effectiveParent == retry.fields && a.retried == Some(retry.fields)
              && a.block.retryAccept
                 == Some(Validate(e.manifest, retry.fields).accepted && e.FidelityOf(retry.fields).Clean())
  {
  }
}
