/** The repair block a cell carries: eligibility, then the outcome of the repair and of the retry. */
module RepairBlocks {
  import opened Options
  import opened Json
  import opened Text
  import opened TraceGuard
  import opened RepairReferences
  import opened RepairResolution
  import opened RepairFidelity
  import opened RepairSafety
  import opened RepairCompleteness

  datatype Failure =
    | CoverageFailed
    | HandleUnresolved
    | HandleMissing
    | MixedReasons
    | MixedReasonsAfterRepair
    | Because(reason: Reason)
    | Rejected
    | RepairRejected
    | PatchFidelityFailed
    | RepairRuntimeError
    | RetryFidelityFailed
    | RetryRuntimeError

  datatype Strategy = PatchHandles | SkipNonExclusive | SkipAccepted | SkipNonRepairable

  datatype Block = Block(
    initialAccept: bool,
    eligible: bool,
    attempted: bool,
    initialFailure: Option<Failure>,
    failure: Option<Failure>,
    strategy: Strategy,
    repairAccept: Option<bool>,
    retryAttempted: bool,
    retryAccept: Option<bool>,
    retryFailure: Option<Failure>,
    references: seq<Reference>)

  function Reasons(v: Verdict): seq<Reason> {
    Dedup(seq(|v.rejectedClaims|, i requires 0 <= i < |v.rejectedClaims| => v.rejectedClaims[i].reason))
  }

  function InitialFailure(v: Verdict, coverage: bool, resolved: bool): Option<Failure> {
    if v.accepted then None
    else if !coverage then Some(CoverageFailed)
    else if Reasons(v) == [MissingEvidenceHandle] then Some(if resolved then HandleMissing else HandleUnresolved)
    else if MissingEvidenceHandle in Reasons(v) then Some(MixedReasons)
    else if Reasons(v) != [] then Some(Because(Reasons(v)[0]))
    else Some(Rejected)
  }

  function StrategyFor(eligible: bool, failure: Option<Failure>): Strategy {
    if eligible then PatchHandles
    else if failure == Some(MixedReasons) then SkipNonExclusive
    else if failure == None then SkipAccepted
    else SkipNonRepairable
  }

  function InitialBlock(v: Verdict, coverage: bool, refs: seq<Reference>): Block {
    var resolved := ResolutionPass(|MissingClaims(v.rejectedClaims)|, refs);
    var eligible := coverage && OnlyMissingHandles(v) && resolved;
    var failure := InitialFailure(v, coverage, resolved);
    Block(v.accepted, eligible, false, failure, failure, StrategyFor(eligible, failure), None, false, None, None, refs)
  }

  function AfterRepairFailure(v: Verdict): Failure {
    if Reasons(v) == [] then RepairRejected
    else if Reasons(v) == [MissingEvidenceHandle] then HandleMissing
    else if MissingEvidenceHandle in Reasons(v) then MixedReasonsAfterRepair
    else Because(Reasons(v)[0])
  }

  function AttemptedBlock(initial: Block, repaired: Verdict, errors: seq<Reference>, report: Report): Block {
    var clean := errors == [] && report.Clean();
    var accept := repaired.accepted && clean;
    initial.(attempted := true,
             repairAccept := Some(accept),
             failure := if accept then None else Some(if clean then AfterRepairFailure(repaired) else PatchFidelityFailed))
  }

  function RepairErrorBlock(initial: Block): Block {
    initial.(attempted := true, repairAccept := Some(false), failure := Some(RepairRuntimeError))
  }

  function RetryBlock(attempted: Block, retried: Verdict, report: Report): Block {
    var accept := retried.accepted && report.Clean();
    attempted.(retryAttempted := true,
               retryAccept := Some(accept),
               retryFailure :=
                 if accept then None
                 else Some(if report.Clean() then AfterRepairFailure(retried) else RetryFidelityFailed))
  }

  function RetryErrorBlock(attempted: Block): Block {
    attempted.(retryAttempted := true, retryAccept := Some(false), retryFailure := Some(RetryRuntimeError))
  }

  /** The block's own share of the mandatory verdict. */
  predicate BlockPass(b: Block) {
    && b.repairAccept != Some(false)
    && (if b.repairAccept == Some(true) then b.retryAccept == Some(true) else b.retryAccept != Some(false))
  }

  lemma ReasonsAre(v: Verdict)
    ensures forall r :: r in Reasons(v) <==> exists j :: j in v.rejectedClaims && j.reason == r
  {
    var all := seq(|v.rejectedClaims|, i requires 0 <= i < |v.rejectedClaims| => v.rejectedClaims[i].reason);
    forall r ensures r in all <==> exists j :: j in v.rejectedClaims && j.reason == r {
      if r in all {
        var i :| 0 <= i < |all| && all[i] == r;
        assert v.rejectedClaims[i] in v.rejectedClaims;
      }
      if j :| j in v.rejectedClaims && j.reason == r {
        var i :| 0 <= i < |v.rejectedClaims| && v.rejectedClaims[i] == j;
        assert all[i] == r;
      }
    }
  }

  lemma OnlyMissingIffSingleton(v: Verdict)
    requires v.accepted <==> v.rejectedClaims == []
    ensures OnlyMissingHandles(v) <==> Reasons(v) == [MissingEvidenceHandle]
  {
    ReasonsAre(v);
    if OnlyMissingHandles(v) {
      SingletonReasons(v);
    }
    if Reasons(v) == [MissingEvidenceHandle] {
      assert Reasons(v)[0] in Reasons(v);
      forall r | r in v.rejectedClaims ensures r.reason == MissingEvidenceHandle {
        assert r.reason in Reasons(v);
      }
    }
  }

  /** The recorded reason tells eligibility exactly: a block is eligible iff it failed for a missing handle. */
  lemma EligibleIffHandleMissing(v: Verdict, coverage: bool, refs: seq<Reference>)
    requires v.accepted <==> v.rejectedClaims == []
    ensures var b := InitialBlock(v, coverage, refs);
            && (b.eligible <==> b.initialFailure == Some(HandleMissing))
            && (b.eligible <==> b.strategy == PatchHandles)
            && (b.initialAccept <==> b.initialFailure.None?)
  {
    OnlyMissingIffSingleton(v);
  }

  lemma {:induction false} DedupConstant(s: seq<Reason>, r: Reason)
    requires s != [] && forall i :: 0 <= i < |s| ==> s[i] == r
    ensures Dedup(s) == [r]
  {
    if |s| > 1 {
      DedupConstant(s[..|s| - 1], r);
    } else {
      assert s[..0] == [];
    }
  }

  lemma SingletonReasons(v: Verdict)
    requires OnlyMissingHandles(v)
    ensures Reasons(v) == [MissingEvidenceHandle]
  {
    DedupConstant(seq(|v.rejectedClaims|, i requires 0 <= i < |v.rejectedClaims| => v.rejectedClaims[i].reason),
                  MissingEvidenceHandle);
  }
}
