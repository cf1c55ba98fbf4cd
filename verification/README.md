# Verified model of the evidence-gated recursive inference core

This project models, in Dafny, the parts of the repository that decide whether a model's answer may be trusted, and
proves what those decisions mean for every model answer and every run.

* **TraceGuard** (`TraceGuard`, `ClaimMeaning`, `ParentPaths`): the gate that compares an arbitrary JSON parent synthesis with a manifest
  of child evidence, and the printed paths under which the repair protocol finds the same claims again.
* **The missing-handle repair protocol** (`RepairReferences`, `HandleMeaning`, `RepairResolution`, `RepairPatch`,
  `PatchMeaning`, `RepairSafety`, `PatchComparison`, `RepairFidelity`, `FidelityMeaning`, `ProtocolFidelity`, `FindingMeaning`,
  `RepairCompleteness`, `RepairOutcome`, `RepairBlocks`, `SynthesisDiff`): which rejected claims a patch could repair, what
  applying any response does, exactly what the fidelity comparison permits, and when a repair succeeds.
* **The repair prompt** (`CanonicalJson`, `ChildRecords`, `RepairPrompt`, `PromptMeaning`, `Variants`, `PromptInvariance`,
  `PromptLaw`): what it is given, and exactly when it ignores order and run-specific data.
* **Live cells and the live matrix** (`FreshEvidence`, `EvidenceText`, `LiveCell`, `CellMeaning`, `CommitSoundness`,
  `CellWitnesses`, `LiveMatrix`): one cell as a state machine over an arbitrary script of runtime answers and errors, cells that pass and fail, and the checkpointed
  matrix of cells.
* **The scaffold adapter** (`ScaffoldGate`, `ScaffoldMeaning`): child results turned into a manifest and cited child ids into claims.
* **Interviews** (`Interview`, `InterviewPrompt`, `InterviewTranscript`, `Ambiguity`): the session life cycle, the nested character budgets of a
  request, and the scoring loop.
* **JSONC stripping** (`Jsonc`), **benchmark runs and their tables** (`Evaluation`, `LiveBenchmark`, `PaperTables`), and
  **the operational memory log** (`MemoryLog`).

`Options`, `Text`, `Json`, `Ordering`, `Arithmetic` and `ErasedClaims` hold what these share. `dfyconfig.toml` lists all
files, so `dafny verify dfyconfig.toml` checks the whole project.

## How the source is represented

* JSON values are a datatype with structural equality; objects are maps. Everything that goes into a repair prompt keeps
  the key order of its objects. Model calls, policies and completions are arbitrary scripts of answers and errors.
* Loops that append to lists or fill dictionaries are methods with loops, each proved equal to a specification function;
  the theorems are about those functions. The modules named after a meaning (`ClaimMeaning`, `HandleMeaning`, and so on) say
  what these functions compute in terms of the fields, keys and texts they read, without using them. Objects updated in place are classes: `LiveCell.Runtime`,
  `LiveCell.ParentSynthesisRetryState`, `Interview.InterviewState`, `MemoryLog.LocalJsonMemoryBackend`.
* Functions the source takes from its libraries are parameters: `str()` of a non-string JSON value (`TreeRendering`; on
  unordered values `Rendering`), the JSON text used as a sort key (`Dump`, assumed injective where two outputs must be told
  apart), answer normalisation (`Folding`) and the table of forbidden memory texts (`TextTest`). Where prompts are compared
  `str()` is `Legible`: never empty, and showing keys, key order, strings and nesting. The table of run-specific keys
  (`KeyTest`) is a parameter too, and holds no key that is read from a child record (`KeepsReadKeys`).

## Where the code falls short of its documentation, or needs a condition

* Two manifest entries for one fact can offer a repair handle that the gate then rejects. A repair passes all its checks
  exactly when every reference is answered and its handle is the gate's (`RepairOutcome.RepairAcceptedIff`); one entry per
  fact is enough for the second, and `CellWitnesses.ConflictingCellFails` is a cell that fails for want of it.
* Runtime families that share an id share a summary, so a cell that never completed can go unnoticed: a pass means that
  every cell passed when ids are distinct (`LiveMatrix.PassMeansEveryCellPassed`), and
  `LiveMatrix.SharedFamilyIdHidesATimeout` runs any two families that share one to a pass over a timeout. A cell that
  completed and failed its contract is never hidden (`LiveMatrix.PassHidesNoContractFailure`).
* The prompt is meant to ignore the order of object keys and run-specific keys. Claim, manifest and parent do. A child's
  chunk id, gaps and fallback fields go through `str()` first, which shows both. The prompt ignores them exactly when no
  child record hands an object to `str()` (`PromptLaw.PromptFixedIff`); the gap `{"a": 1, "b": 2}` with its keys swapped
  and `{"timestamp": "1"}` with another time give other prompts (`PromptLaw.ReorderedGapShows`,
  `PromptLaw.ChangedTimestampShows`). For key order alone a record is safe exactly when it hands over no object with two
  keys (`PromptLaw.OneRecordOrderIff`). A list of records can be safe in spite of one that is not, when the others already
  hold each of its readings as plain text (`PromptLaw.BothReadingsFixed`); `PromptLaw.ChildrenFixedIff` is exact for lists.
* `normalize_child_records` keeps a trace of the input order for records that differ only by a missing against an empty
  parent call id, and for no others (`RepairPrompt.FullRecordsForgetOrderIff`); the prompt's records never do.
* A comment counts as no separator: two words that only a comment separates become one after stripping. Tokens are
  preserved exactly when no two words touch once comments are gone (`Jsonc.StripJsoncKeepsTokens`).
* A finished benchmark run is accepted by the table checks exactly when policy names are distinct and every result carries
  one of them (`PaperTables.StoredRunAcceptedIff`); the runner itself checks neither.
* A user summary that is literally the "summary required" marker leaves the interview asking for a summary again
  (`Interview.ContextMissingIff`).
* The comment in `_build_system_prompt` says that the header with the initial context is preserved first. With a full
  history the budget is 1200 characters and the header itself is cut, context included. Whether a request holds the
  context's part whole is decided exactly (`InterviewPrompt.RequestKeepsContextIff`), and `InterviewPrompt.ContextCanBeCut`
  is a session that loses some of it; only the overflow beyond 1800 characters is safe.
* `get_next_milestone` documents "the most advanced" milestone below the score; the code returns the nearest one. The two
  agree exactly up to a score of 0.3 (`Ambiguity.NextIsMostAdvancedIff`).
* A score of at most 0.2 counts as ready even when a brownfield breakdown lacks its context; completion is refused all the
  same (`Ambiguity.MissingContextNeverCompletes`).

## Model

| member | source | states |
|---|---|---|
| `TraceGuard.ByFact` | src/egri/traceguard.py:190 | a fact maps to an entry of the manifest with that fact, every entry is found, and a later entry of a fact replaces an earlier one |
| `TraceGuard.Objection` | src/egri/traceguard.py:217-266 | a claim has no objection exactly when it names a manifest fact and cites that fact's chunk |
| `TraceGuard.CollectSupportedFactIds` | src/egri/traceguard.py:338-348 | the non-empty fact ids of a mapping, scalars before lists, each once, in order of appearance |
| `TraceGuard.ExtractParentClaims` | src/egri/traceguard.py:279-299 | the claims of every claim-bearing surface, in the order the surfaces are read |
| `TraceGuard.ValidateParentSynthesis` | src/egri/traceguard.py:184-276 | the verdict: accepted and rejected claims in order, acceptance exactly without rejection, and a rejection when nothing is claimed |
| `TraceGuard.RejectedIffObjected` | src/egri/traceguard.py:217-266 | a rejection is listed exactly when its claim is made and its reason is that claim's objection |
| `TraceGuard.PartitionOfClaims` | src/egri/traceguard.py:217-276 | every claim is accepted or rejected, never both, and none is rejected exactly when all are supported |
| `TraceGuard.AcceptanceIsSupport` | src/egri/traceguard.py:184-276 | a parent is accepted exactly when it makes a claim and every claim cites its fact's own chunk |
| `ClaimMeaning.MappingClaims` | src/egri/traceguard.py:314-365 | a mapping makes one claim per fact it names under any of the five fact keys; each carries the chunk under `chunk_id`, failing that `evidence_chunk_id`, failing that `source_chunk_id`, or none, and the non-empty texts line by line; without a fact it makes one claim if it states a chunk |
| `ClaimMeaning.FactsInOrder` | src/egri/traceguard.py:338-348 | the facts of a mapping, each once, in the order of the places that first name them: single strings, then list items, key by key |
| `ClaimMeaning.ParentClaimsByPlace` | src/egri/traceguard.py:279-311 | the claims of a parent are those of its claim-bearing places: five surfaces of the result, the result itself if it has a `fact_id`, and the evidence references, list items in order |
| `ClaimMeaning.ParentClaimIff` | src/egri/traceguard.py:279-365 | a claim is made exactly when some place of the parent says so |
| `ClaimMeaning.VerdictMeans` | src/egri/traceguard.py:184-276 | the verdict from the fields: accepted exactly when something is claimed and every claim cites the chunk of its fact's last manifest entry; a claim is rejected for exactly the reason that applies to it |
| `ClaimMeaning.OtherChunkIsRejected` | src/egri/traceguard.py:351-356 | a mapping that names a known fact and states another chunk under `chunk_id` is rejected as a mismatch, whatever its other chunk fields hold |
| `ClaimMeaning.SilentParentIsRefused` | src/egri/traceguard.py:203-216 | a parent that claims nothing is refused with that one rejection |
| `ClaimMeaning.AcceptedClaimsMean` | src/egri/traceguard.py:217-276 | the accepted claims are those made that cite their fact's entry |
| `ClaimMeaning.RateMeans` | src/egri/traceguard.py:144-148 | the unsupported rate is the share of rejected claims |
| `ParentPaths.IterParentClaimReferenceMappings` | src/egri/live_portability.py:2211-2268 | the claim-bearing mappings with their locations, in the order the surfaces are read |
| `ParentPaths.ClaimsComeFromCandidates` | src/egri/live_portability.py:2211-2268 | the gate's claims are those of the located mappings, in the same order: the two traversals never drift apart |
| `ParentPaths.PrintedPathRoundTrip` | src/egri/live_portability.py:2152-2192 | for every tree, looking up the printed text of a structured path gives what the structured path gives, for indices of any length |
| `ParentPaths.CandidatePathsRoundTrip` | src/egri/live_portability.py:2152-2268 | a located mapping is found again under its printed path, and distinct mappings have distinct printed paths |
| `ParentPaths.CandidateIsSound` | src/egri/live_portability.py:2211-2268 | each location leads to its mapping in the parent and never passes through a handle field |
| `RepairReferences.ChildEvidenceHandlesByFact` | src/egri/live_portability.py:2271-2297 | the (fact, chunk) pairs that children cite, a fact without a chunk of its own inheriting its record's |
| `RepairReferences.RepairHandle` | src/egri/live_portability.py:2300-2325 | the repair handle of a fact is the chunk of a manifest entry for it that some child also cites, and there is one exactly when such an entry exists |
| `HandleMeaning.HandlesMean` | src/egri/live_portability.py:2271-2297 | a fact and a chunk are among the children's handles exactly when some child lists an observed fact that reads as that fact and has, or inherits, that chunk |
| `HandleMeaning.RepairHandleMeans` | src/egri/live_portability.py:2300-2325 | the handle on offer for a fact is the chunk of the last manifest entry of the fact that some child cites |
| `RepairReferences.IdentifyMissingEvidenceHandleReferences` | src/egri/live_portability.py:1937-2003 | one reference per fact of each located mapping whose handle is absent or null and whose claim was rejected for it, in order |
| `HandleMeaning.ReferencesMean` | src/egri/live_portability.py:1937-2003 | the references are, field by field, one for every fact the manifest knows that a located mapping names without stating a chunk, its handle being absent or null |
| `RepairResolution.ReferencesMatchRejections` | src/egri/live_portability.py:1937-2003 | in order, the references are one to one with those missing-handle rejections whose mapping has its handle absent or null |
| `RepairResolution.CountCheckExact` | src/egri/live_portability.py:2195-2208 | the count check passes exactly when no missing-handle rejection comes from a mapping whose handle field holds something invalid |
| `RepairResolution.ReferenceDescribesCandidate` | src/egri/live_portability.py:1955-2003 | every reference describes a located mapping of the parent: place, surface, fact, text and state |
| `RepairResolution.CandidateHasReference` | src/egri/live_portability.py:1955-2003 | conversely every repairable located mapping has a reference for each fact the manifest knows |
| `RepairPatch.ApplyRepairedEvidenceChunkIds` | src/egri/live_portability.py:2006-2044 | the patched parent is the fold, in reference order, of writing each correctly answered handle |
| `RepairPatch.ApplyIsFill` | src/egri/live_portability.py:2006-2044 | writing handles one after the other is the original with exactly the correctly answered paths filled, all at once |
| `RepairPatch.SetHandleFill` | src/egri/live_portability.py:2033-2042 | one more write into a tree with filled paths is one more filled path; writes at different paths do not disturb each other |
| `PatchMeaning.PatchMeans` | src/egri/live_portability.py:2006-2044 | a patched parent is built as before; a mapping at which a reference points gets the handle that the response has there, if it is the reference's, and every other mapping keeps what it had |
| `PatchMeaning.EligibleMeans` | src/egri/live_portability.py:1810-1896 | a parent can be repaired exactly when some claim lacks only a handle, every other claim is supported, and each mapping behind such a claim has its handle absent or null and a chunk on offer for the fact |
| `ErasedClaims.FillingKeepsSupport` | src/egri/live_portability.py:2006-2044 | claim lists that differ only by handles added where there was none: no accepted claim is dropped and no rejected one added |
| `RepairSafety.RepairIsSafe` | src/egri/live_portability.py:1937-2044 | for every response: only reference paths are filled, each by one of its own handles; claims keep number, order, surface, fact and text; accepted claims stay accepted; rejections and the unsupported rate never rise |
| `PatchComparison.CompareMissingHandlePatch` | src/egri/live_portability.py:2959-3032 | the loops over keys and items report exactly the findings of the recursive definition |
| `PatchComparison.CompareEvidenceChunkIdPatch` | src/egri/live_portability.py:3035-3077 | the findings for one handle field: removal, change, an addition that is not permitted |
| `PatchComparison.ComparisonIsExact` | src/egri/live_portability.py:2959-3077 | the comparison is silent exactly when the two trees differ only by handles filled where a rule allows it (absent or null before, permitted for every fact of the mapping) and by added null handles |
| `RepairFidelity.RetainedFactFidelityErrors` | src/egri/live_portability.py:2849-2945 | the findings on retained facts: count, identity and text |
| `RepairFidelity.ParentClaimTextFidelityErrors` | src/egri/live_portability.py:2810-2846 | the findings on claim texts: count, order and text |
| `RepairFidelity.MissingHandleRepairFidelityErrors` | src/egri/live_portability.py:2754-2791 | the whole fidelity report under the rules computed from manifest, child handles and references |
| `FidelityMeaning.FidelityIsExact` | src/egri/live_portability.py:2754-2791 | the report is clean exactly when the repaired tree is the original up to permitted handles and retained texts are kept; the other checks are then implied |
| `ProtocolFidelity.ProtocolFidelityIsExact` | src/egri/live_portability.py:2754-3077 | the report of a repair is clean exactly when the tree is built as before, every handle is kept or filled where a reference points with a chunk on offer for every fact of its mapping, and retained texts are kept |
| `ProtocolFidelity.CleanFillsReferences` | src/egri/live_portability.py:2794-2807 | under a clean report a handle that went from absent or null to a string is at the printed path of a reference |
| `ProtocolFidelity.ErasedIffBuiltAlike` | src/egri/live_portability.py:2959-3032 | trees that agree once handles are erased have the same keys, lengths and scalars at every path that enters no handle |
| `FindingMeaning.RetainedFindingIff` | src/egri/live_portability.py:2849-2945 | which findings on retained facts are reported: identity and text position by position, and how often each fact was dropped or duplicated |
| `FindingMeaning.ClaimFindingIff` | src/egri/live_portability.py:2810-2846 | which findings on claims are reported, position by position |
| `FindingMeaning.TreeFindingIff` | src/egri/live_portability.py:2959-3077 | which findings the comparison reports: those of the places it reaches, under their printed paths, each with the reason that comes first |
| `FidelityMeaning.RepairsKeepClaimTexts` | src/egri/live_portability.py:2810-2846 | a tree that differs only by permitted handles has the same claim texts in the same order |
| `FidelityMeaning.PrintStepsOfRefPath` | src/egri/live_portability.py:2794-2807 | the comparator's path text of a located mapping is its reference path under the root |
| `RepairCompleteness.RepairResponseHandleErrors` | src/egri/live_portability.py:2116-2149 | the references for which a response proposes a non-empty handle other than their own, in order; references it leaves unanswered are not among them |
| `RepairCompleteness.AgreementIsAccepted` | src/egri/live_portability.py:1810-1896 | an eligible parent, fully answered with agreeing handles, is accepted by the gate after patching |
| `RepairOutcome.AnsweredRepairOutcome` | src/egri/live_portability.py:2006-2149 | a full answer to an eligible block leaves no response error, and gate and fidelity checks accept the patched parent exactly when the handles agree with the gate |
| `RepairOutcome.AcceptedIffAnswered` | src/egri/live_portability.py:2006-2044 | for every eligible parent and every response, the patched parent is accepted exactly when the patch writes, where each reference points, the handle the gate demands; where the handles agree that means that every reference is answered |
| `RepairOutcome.RepairAcceptedIff` | src/egri/live_portability.py:2620-2650 | for every eligible parent and every response, gate, response check and fidelity checks all pass exactly when every reference is answered and its handle is the one the gate demands |
| `RepairOutcome.FilledFidelity` | src/egri/live_portability.py:2754-2791 | filling reference paths passes the fidelity checks exactly when each handle is permitted where it was filled |
| `RepairOutcome.UniqueFactsAgree` | src/egri/live_portability.py:2300-2325 | one manifest entry per fact is enough for the handles to agree |
| `RepairOutcome.ConflictingEntriesDefeatRepair` | src/egri/live_portability.py:2300-2325 | with two entries for a fact, of which a child cites only the earlier, an eligible and fully answered repair is still rejected |
| `CellWitnesses.ConflictingCellFails` | src/egri/live_portability.py:1498-1631 | a cell in which this happens, from its inputs: the fixture lists two chunks for a fact and the child files both under one; evidence is complete, the repair is fully answered, and the cell fails whatever the retry |
| `RepairBlocks.EligibleIffHandleMissing` | src/egri/live_portability.py:2584-2603 | the recorded failure reason tells eligibility exactly |
| `CellMeaning.InitialFailureMeans` | src/egri/live_portability.py:2584-2617 | the recorded reason and strategy before a repair, for every verdict and coverage |
| `CellMeaning.AfterRepairFailureMeans` | src/egri/live_portability.py:2620-2700 | the recorded reason of a repaired or retried parent whose fidelity is in order |
| `CellMeaning.RepairRaises` | src/egri/live_portability.py:1506-1636 | a repair call that raises leaves the parent as it was |
| `CellMeaning.RepairRefused` | src/egri/live_portability.py:1506-1636 | a repair that does not hold ends the cell after one call, with its patched parent and the reason |
| `CellMeaning.RepairRetried` | src/egri/live_portability.py:1506-1636 | a repair that holds is retried once; what the retry answers is what counts, and what is recorded of it |
| `CanonicalJson.StableKeepsMeaning` | src/egri/live_portability.py:3372-3408 | the stable form is sorted, free of run-specific keys at every depth, and says what the tree said without them |
| `CanonicalJson.StableIffSameMeaning` | src/egri/live_portability.py:3372-3408 | two trees have one stable form exactly when they differ only by key order and by run-specific keys |
| `CanonicalJson.StableIdempotent` | src/egri/live_portability.py:3372-3408 | the stable form is its own stable form |
| `PromptMeaning.StableKeysAscend` | src/egri/live_portability.py:3372-3408 | the keys of a canonical object ascend and none is run-specific |
| `ChildRecords.NormalizeChildObservedFacts` | src/egri/live_portability.py:2451-2478 | the canonical facts of a child output, sorted; items that are not objects are dropped |
| `PromptMeaning.ChunkIdMeans` | src/egri/live_portability.py:2527-2532 | the chunk of an observed fact: the first of `chunk_id`, `evidence_chunk_id` and `source_chunk_id` that reads as something |
| `PromptMeaning.FactIdMeans` | src/egri/live_portability.py:2508-2524 | the fact of an observed fact: the first it names by a string; without one, the first fact field that reads as something |
| `PromptMeaning.TextMeans` | src/egri/live_portability.py:2535-2543 | the text of an observed fact: its stated texts line by line; without any, the first text field that reads as something |
| `PromptMeaning.ChildIsSorted` | src/egri/live_portability.py:2438-2489 | a child's facts are sorted by id, chunk and text, its gaps by text |
| `PromptMeaning.ChildrenAreSorted` | src/egri/live_portability.py:2369-2409 | the children of the prompt are those of the records, sorted by chunk and output text, none twice |
| `PromptMeaning.RecordsAreSorted` | src/egri/live_portability.py:2412-2497 | the full records are sorted by chunk, call, parent call and output text |
| `RepairPrompt.PromptManifestIff` | src/egri/live_portability.py:2328-2349 | two manifests give one prompt part exactly when they have the same (fact, chunk, text) entries, in any order and number |
| `PromptMeaning.ManifestIsSorted` | src/egri/live_portability.py:2328-2349 | the manifest of the prompt holds the (fact, chunk, text) entries, sorted by them, none twice |
| `RepairPrompt.PromptChildrenIff` | src/egri/live_portability.py:2369-2409 | two lists of child records give one prompt part exactly when the same chunks, facts and gaps are read from them, `str()` of objects included, whatever order, repetition and call ids |
| `ChildRecords.RearrangedLists` | src/egri/live_portability.py:2451-2489 | reordering the observed facts and the gaps of a child reorders what is read from them |
| `PromptInvariance.RecordFixedIff` | src/egri/live_portability.py:2420-2556 | for every table of run-specific keys: whatever states a record with other key orders and run-specific keys is read the same exactly when the record hands `str()` no object, or, if no key is run-specific, no object with two keys |
| `PromptLaw.ChildrenFixedIffNoObject` | src/egri/live_portability.py:2369-2556 | as soon as some key is run-specific, the child part is the same for all lists that state the same records exactly when none of them hands an object to `str()`; it makes no difference whether records are only changed in place |
| `PromptLaw.ChildrenFixedIff` | src/egri/live_portability.py:2369-2556 | for any table of keys: exactly when each form of each record already reads like some record of the list that cannot vary |
| `PromptLaw.PromptFixedIff` | src/egri/live_portability.py:3264-3408 | the prompt input is unchanged by order and repetition of manifest entries and child records, order of facts and gaps, key order and run-specific keys, for exactly the repairs whose child records hand no object to `str()` |
| `PromptLaw.OneRecordOrderIff` | src/egri/live_portability.py:2420-2556 | under key order alone, one record is safe exactly when it hands `str()` no object with two keys |
| `PromptLaw.BothReadingsFixed` | src/egri/live_portability.py:2369-2409 | three records that key order cannot change although one of them hands an object with two keys to `str()` |
| `PromptLaw.ReorderedGapShows` | src/egri/live_portability.py:2481-2505 | a gap with its two keys swapped gives another child part |
| `PromptLaw.ChangedTimestampShows` | src/egri/live_portability.py:2481-2505 | a gap with another time stamp gives another child part |
| `PromptLaw.CellReadsTheSame` | src/egri/live_portability.py:2508-2532 | fact and chunk of an observed fact are read alike by the prompt and by the cell, for every rendering that ignores key order |
| `RepairPrompt.PromptInputIff` | src/egri/live_portability.py:3264-3346 | two repairs get one prompt input exactly when claim, manifest, parent and children say the same |
| `RepairPrompt.PromptInputIsFixed` | src/egri/live_portability.py:3331-3346 | canonicalising a prompt input again is the identity |
| `RepairPrompt.TraceguardRepairPromptPayload` | src/egri/live_portability.py:3264-3346 | the input built in two canonicalising passes is the input of one pass |
| `RepairPrompt.FullRecordsForgetOrderIff` | src/egri/live_portability.py:2412-2497 | the full records are the same for every rearrangement of the input exactly when no two of them differ only by a missing against an empty parent call id |
| `Ordering.UniqueSortedEntries` | src/egri/live_portability.py:2395-2409 | sorted by key, each entry once |
| `Ordering.UniqueSortedIff` | src/egri/live_portability.py:2395-2409 | two lists become equal exactly when they have the same members |
| `Ordering.LexLeqIff` | src/egri/live_portability.py:2466-2489 | texts are compared by a prefix or by the first character that differs |
| `Ordering.TupleLeqIff` | src/egri/live_portability.py:2466-2497 | keys of several texts are compared by the first that differs |
| `SynthesisDiff.BeforeAfterDiff` | src/egri/live_portability.py:2050-2105 | the recursive diff with the path passed down equals the path-free definition with the path prefixed |
| `SynthesisDiff.DiffRoundTrip` | src/egri/live_portability.py:2050-2105 | applying the diff of a and b to a gives b |
| `SynthesisDiff.EmptyIffEqual` | src/egri/live_portability.py:2050-2105 | the diff is empty exactly for equal values |
| `SynthesisDiff.PathsAreIndependent` | src/egri/live_portability.py:2050-2105 | no entry's path is a prefix of another's |
| `SynthesisDiff.SwapExchangesSides` | src/egri/live_portability.py:2050-2105 | swapping the arguments swaps before and after in every entry |
| `FreshEvidence.BuildFreshChildEvidenceManifest` | src/egri/live_portability.py:1701-1755 | the manifest the loops build is that of the definition, sorted |
| `FreshEvidence.FreshManifestExact` | src/egri/live_portability.py:1701-1773 | sorted, without duplicate keys, contained in the fixture, and holding exactly the keys some child showed with matching text |
| `FreshEvidence.FreshPassExact` | src/egri/live_portability.py:1502 | the freshness check alone means a non-empty fixture with distinct (fact, chunk) keys, every one shown by a child of this run |
| `EvidenceText.TextMatchesIff` | src/egri/live_portability.py:1758-1773 | a child's text matches exactly when it has a word and agrees with the fixture's up to white space, with or without the fact's label |
| `EvidenceText.ManifestEntryMeans` | src/egri/live_portability.py:1701-1755 | an entry of the rebuilt manifest is the last fixture entry of its fact and chunk, with the call of the first child that states it in the fixture's words |
| `EvidenceText.StatedEntryIsThere` | src/egri/live_portability.py:1701-1755 | conversely every last fixture entry that some child states is there |
| `CellWitnesses.ShownTextDecides` | src/egri/live_portability.py:1701-1773 | a cell whose one child shows the fixture's one fact with some text, and whose parent cites it, passes exactly when that text states the fixture's |
| `LiveCell.ParentSynthesisRetryState.RecordRepairAttempt` | src/egri/live_portability.py:206-210 | counts an attempt unless the cell's allowance is used up; other cells are untouched |
| `LiveCell.ParentSynthesisRetryState.CanAttemptRepair` | src/egri/live_portability.py:199-204 | registers the cell and answers whether its count is below the allowance |
| `LiveCell.BuildManifestFromFixture` | src/egri/traceguard.py:163-181 | the manifest entries of the retained facts of a fixture |
| `CellMeaning.FixtureManifestMeans` | src/egri/traceguard.py:163-181 | the manifest entries: one per expected fact that states id, chunk and text, numbered by its position |
| `LiveCell.SelectChunks` | src/egri/live_portability.py:3125-3127 | the fixture's selected chunks in order |
| `CellMeaning.SelectedPositions` | src/egri/live_portability.py:3125-3127 | the chunks called are those at all positions of the fixture that are selected, in order |
| `CellMeaning.CoverageOfCell` | src/egri/live_portability.py:3466-3480 | coverage of a cell whose children all answered fails exactly when a selected chunk is not in the fixture |
| `LiveCell.CallChildren` | src/egri/live_portability.py:1453-1481 | one call per selected chunk, stopping at the first that raises |
| `LiveCell.ScheduleTraceguardRepairAttempt` | src/egri/live_portability.py:1899-1910 | a repair is scheduled, and counted, exactly for an eligible block whose cell has not used its attempt |
| `LiveCell.Conclude` | src/egri/live_portability.py:1506-1636 | the part of a cell after its parent answered: the outcome of the definition, with as many repairs as the retry state holds for the cell in the end |
| `LiveCell.RunLiveRlmTraceguardCell` | src/egri/live_portability.py:1440-1698 | the cell run over its runtime and retry state equals the outcome defined from its script of answers |
| `CellMeaning.CellRaises` | src/egri/live_portability.py:1453-1500 | a cell raises at its first failing call |
| `CellMeaning.CellCompletes` | src/egri/live_portability.py:1453-1698 | without a failing call a cell completes, with a record per selected chunk made from its own answer and the parent that the next call answered |
| `CommitSoundness.CommitIsSound` | src/egri/live_portability.py:1440-1698 | for every script: at most selected chunks + 3 calls, at most one repair, and a passing cell is sound: each claim cites a retained fixture fact with its chunk, whose text a child of this run stated, and after a repair the parent is the first output up to handles added where a reference points, with repaired and retried claims identical |
| `CommitSoundness.PassExact` | src/egri/live_portability.py:1502-1650 | the verdict exactly, without a condition: complete evidence, and either the first parent is accepted or an eligible repair offers the handles the gate demands, is fully answered, and is retried with nothing changed but handles filled where references point |
| `CommitSoundness.OneChunkPerFactAgrees` | src/egri/live_portability.py:2300-2325 | with one chunk per fact in the fixture, the handles on offer are always those the gate demands, so the exact verdict needs no such clause |
| `CommitSoundness.RetriedPassIsSound` | src/egri/live_portability.py:2673-2700 | an accepted retry equals the first output once handles are erased, changes no handle that was there, fills one only where a reference points, and claims what the repaired parent claims |
| `LiveMatrix.RunLivePrimary` | src/egri/live_portability.py:763-856 | the nested loops run every fixture on every family in order and report the aggregate after each cell |
| `LiveMatrix.CellsAreConserved` | src/egri/live_portability.py:1303-1349 | per family, planned cells are passed plus failed plus infrastructure failures |
| `LiveMatrix.FailIsPermanent` | src/egri/live_portability.py:1383-1405 | an aggregate failure, once reported, is reported at every later checkpoint |
| `LiveMatrix.PassIffFamiliesPass` | src/egri/live_portability.py:1383-1405 | the aggregate passes exactly when every family passes |
| `LiveMatrix.VerdictMeans` | src/egri/live_portability.py:1303-1405 | the aggregate from the cells: a failure when some family failed twice, a pass when every family passed often enough and never failed |
| `LiveMatrix.FamilyStatusMeans` | src/egri/live_portability.py:1303-1349 | the status of a family by how many of its cells failed and passed |
| `LiveMatrix.PassMeansEveryCellPassed` | src/egri/live_portability.py:763-856 | with distinct family ids a pass is reported only after every cell ran and passed |
| `LiveMatrix.EveryCellPassedMeansPass` | src/egri/live_portability.py:1303-1405 | a complete matrix of passed cells passes |
| `LiveMatrix.PassHidesNoContractFailure` | src/egri/live_portability.py:1303-1405 | whether family ids are shared or not, no pass is reported over a cell that failed its contract |
| `LiveMatrix.SharedFamilyIdHidesATimeout` | src/egri/live_portability.py:1303-1349 | families that share an id: fixtures and scripts of a run in which one cell times out and the matrix is still reported as a pass |
| `CellWitnesses.PassingCell` | src/egri/live_portability.py:1440-1698 | a cell that passes, from its inputs: the child shows the fixture's fact and the parent cites it with its chunk |
| `LiveMatrix.MatrixPassIsSound` | src/egri/live_portability.py:763-856 | a passing run: every fixture ran on every family and each of those cells is sound |
| `ScaffoldGate.PaddedInjective` | src/egri/runtime_scaffold_traceguard.py:234-239 | the zero-padded order determines the order, for any size and sign |
| `ScaffoldGate.ChildIdsDistinct` | src/egri/runtime_scaffold_traceguard.py:234-239 | children with different orders have different ids |
| `ScaffoldGate.ManifestFromParentState` | src/egri/runtime_scaffold_traceguard.py:209-224 | the evidence of the children that have an id and a chunk, in order |
| `ScaffoldGate.ChildRecordsById` | src/egri/runtime_scaffold_traceguard.py:200-206 | the last child of each id |
| `ScaffoldGate.ManifestIsChildren` | src/egri/runtime_scaffold_traceguard.py:209-224 | an entry is in the manifest exactly when a child of the run has that id, chunk, text and call id |
| `ScaffoldGate.NormalizeParentSynthesis` | src/egri/runtime_scaffold_traceguard.py:258-298 | the direct facts, the references written for each cited child id, and the number of claims |
| `ScaffoldGate.ValidateRuntimeScaffoldResult` | src/egri/runtime_scaffold_traceguard.py:61-97 | the gate for every kind of result: not applicable without an execution, a parent state or a claim; rejected early without an object or evidence; otherwise the verdict on the normalised parent |
| `ScaffoldGate.AcceptedIffPartsSupported` | src/egri/runtime_scaffold_traceguard.py:61-97 | the gate accepts exactly when there is evidence and a claim, and every direct fact and every written reference is supported |
| `ScaffoldGate.AcceptedClaimsCiteChildren` | src/egri/runtime_scaffold_traceguard.py:306-324 | in an accepted run every child id a claim cites names a child of the run, at the chunk the claim is held to, which is the chunk the manifest keeps for that id |
| `ScaffoldGate.AcceptedReferencesCiteChildren` | src/egri/runtime_scaffold_traceguard.py:327-344 | the same for evidence references, and a chunk a reference states is the chunk of the child it names and of the manifest's entry for it |
| `ScaffoldMeaning.NormalizedMeans` | src/egri/runtime_scaffold_traceguard.py:258-378 | the direct facts and the references of the normalised parent, from the fields of the output and the last child of each cited id |
| `ScaffoldMeaning.ManifestInOrder` | src/egri/runtime_scaffold_traceguard.py:209-239 | the manifest lists the children with an id and a chunk, in their order |
| `ScaffoldMeaning.GateOutcome` | src/egri/runtime_scaffold_traceguard.py:61-97 | when the gate refuses early, does not apply, or judges, in terms of children and output |
| `ScaffoldMeaning.GateAcceptsIff` | src/egri/runtime_scaffold_traceguard.py:61-97 | the gate accepts exactly when some child has a chunk, something is claimed, and every claim of a direct fact or written reference cites its child's entry |
| `Interview.PromptSafeContextIsSafe` | src/egri/_vendor/runtime_scaffold_branch/src/ouroboros/bigbang/interview.py:223-243 | the context sent is at most 3500 characters, whatever was stored |
| `Interview.ContextMissingIff` | src/egri/_vendor/runtime_scaffold_branch/src/ouroboros/bigbang/interview.py:171-179 | a context is missing exactly when a summary is needed or the user's own text is the marker for that |
| `Interview.PromptSafeContextMeans` | src/egri/_vendor/runtime_scaffold_branch/src/ouroboros/bigbang/interview.py:223-243 | the context sent: the user's own up to 3500 characters, else the newest summary, cut to 3500 with a notice |
| `Interview.CanReopenMeans` | src/egri/_vendor/runtime_scaffold_branch/src/ouroboros/bigbang/interview.py:182-196 | a finished session may reopen exactly when it needs a summary or its score is above 0.2 |
| `Interview.InterviewState.RecordResponse` | src/egri/_vendor/runtime_scaffold_branch/src/ouroboros/bigbang/interview.py:452-507 | a valid response is appended with the next number and reopens a session finished too early; a refusal changes nothing |
| `Interview.ValidResponseIff` | src/egri/_vendor/runtime_scaffold_branch/src/ouroboros/bigbang/interview.py:452-507 | a response is valid exactly when what is left without surrounding white space is not empty and has at most 10000 characters |
| `Interview.InterviewState.CompleteInterview` | src/egri/_vendor/runtime_scaffold_branch/src/ouroboros/bigbang/interview.py:994-1017 | the session is completed and nothing else changes |
| `Interview.InterviewState.StoreAmbiguity` | src/egri/_vendor/runtime_scaffold_branch/src/ouroboros/bigbang/interview.py:202-211 | score and breakdown are stored and nothing else changes |
| `Interview.InterviewState.ClearStoredAmbiguity` | src/egri/_vendor/runtime_scaffold_branch/src/ouroboros/bigbang/interview.py:213-220 | score and breakdown are cleared, whichever of them was stored, and nothing else changes |
| `Interview.RunOnlyAppends` | src/egri/_vendor/runtime_scaffold_branch/src/ouroboros/bigbang/interview.py:482-489 | over every run earlier rounds and the initial context never change and numbering stays 1, 2, 3 |
| `Interview.SummaryIsPermanent` | src/egri/_vendor/runtime_scaffold_branch/src/ouroboros/bigbang/interview.py:171-179 | no run loses a recorded summary |
| `Interview.ClosedStaysClosed` | src/egri/_vendor/runtime_scaffold_branch/src/ouroboros/bigbang/interview.py:182-196 | a finished session that may not reopen keeps its rounds and stays finished over every run that stores no new score |
| `Interview.SummaryUnblocks` | src/egri/_vendor/runtime_scaffold_branch/src/ouroboros/bigbang/interview.py:223-243 | answering the summary question with anything but the marker reopens the session and supplies its context |
| `InterviewPrompt.TrimMessagesToBudget` | src/egri/_vendor/runtime_scaffold_branch/src/ouroboros/bigbang/interview.py:949-992 | the two loops keep the preserved front and the newest messages, the message at the cut shortened |
| `InterviewPrompt.KeepLastKeepsMessages` | src/egri/_vendor/runtime_scaffold_branch/src/ouroboros/bigbang/interview.py:980-992 | all retained messages but the oldest are whole, and that one keeps its role and its end |
| `InterviewPrompt.TrimIsExact` | src/egri/_vendor/runtime_scaffold_branch/src/ouroboros/bigbang/interview.py:949-992 | total length is exactly the smaller of the old total and the budget; the result says the preserved front, then the newest characters of the rest, with their roles |
| `InterviewPrompt.HardTruncationFires` | src/egri/_vendor/runtime_scaffold_branch/src/ouroboros/bigbang/interview.py:679-702 | the final truncation cuts something exactly for a non-zero limit below 20 with a header over 17 characters, or a limit below 3 |
| `InterviewPrompt.SystemPromptFits` | src/egri/_vendor/runtime_scaffold_branch/src/ouroboros/bigbang/interview.py:679-702 | within any limit of 20 or more the prompt fits and leads with the header as far as it fits |
| `InterviewPrompt.ContextKeptOrCut` | src/egri/_vendor/runtime_scaffold_branch/src/ouroboros/bigbang/interview.py:681-686 | exactly when the initial context's part of the system prompt arrives whole, and what is sent otherwise |
| `InterviewPrompt.RequestKeepsContextIff` | src/egri/_vendor/runtime_scaffold_branch/src/ouroboros/bigbang/interview.py:383-415 | for every request: its system prompt holds the initial context's part whole exactly when that part fits the budget the history leaves |
| `InterviewPrompt.FullHistoryCutsContext` | src/egri/_vendor/runtime_scaffold_branch/src/ouroboros/bigbang/interview.py:390-408 | once the rounds fill their 3600 characters, the system prompt has 1200 and a longer initial context is cut |
| `InterviewPrompt.ContextCanBeCut` | src/egri/_vendor/runtime_scaffold_branch/src/ouroboros/bigbang/interview.py:390-408 | a session whose one long question pushes the end of its initial context out of the request |
| `InterviewPrompt.BuildConversationHistory` | src/egri/_vendor/runtime_scaffold_branch/src/ouroboros/bigbang/interview.py:910-947 | the overflow message, then question and capped answer of each round but the summary rounds |
| `InterviewTranscript.RequestTellsRounds` | src/egri/_vendor/runtime_scaffold_branch/src/ouroboros/bigbang/interview.py:383-398 | after system prompt and overflow a request tells the rounds, question by the assistant and answer by the user, answers beyond 800 characters cut and marked, summary rounds left out: all of them if they fit, else the newest characters that do |
| `InterviewTranscript.RequestSystemPrompt` | src/egri/_vendor/runtime_scaffold_branch/src/ouroboros/bigbang/interview.py:390-415 | the system prompt of a request: header, as much of the base prompt as fits, and the panel, within what 4800 characters leave beside the history, at most 3500 |
| `InterviewTranscript.OneRoundTold` | src/egri/_vendor/runtime_scaffold_branch/src/ouroboros/bigbang/interview.py:937-945 | one answered round: the question is the assistant's, the answer the user's |
| `InterviewPrompt.AskNextQuestion` | src/egri/_vendor/runtime_scaffold_branch/src/ouroboros/bigbang/interview.py:361-415 | the request, or the summary question, or the refusal, for every session state |
| `InterviewPrompt.PromptWithinBudget` | src/egri/_vendor/runtime_scaffold_branch/src/ouroboros/bigbang/interview.py:383-415 | every request is at most 4800 characters and the final truncation never had anything to cut |
| `InterviewPrompt.HistoryKeepsOverflowAndNewest` | src/egri/_vendor/runtime_scaffold_branch/src/ouroboros/bigbang/interview.py:383-398 | the overflow message is sent whole and first, then the newest characters of the rounds that the budget leaves |
| `InterviewPrompt.ContextSplitsLosslessly` | src/egri/_vendor/runtime_scaffold_branch/src/ouroboros/bigbang/interview.py:704-718 | the part for the system prompt and the overflow message together are the whole context |
| `InterviewPrompt.SummaryLeadsToQuestion` | src/egri/_vendor/runtime_scaffold_branch/src/ouroboros/bigbang/interview.py:372-384 | a session asked for its summary can always answer, after which the next question goes out |
| `Ambiguity.Score` | src/egri/_vendor/runtime_scaffold_branch/src/ouroboros/bigbang/ambiguity.py:353-468 | the k-th call's token limit is the initial limit doubled once per truncated reply before it; the loop stops at the first point it must and its result is the outcome there |
| `Ambiguity.StopIsUnique` | src/egri/_vendor/runtime_scaffold_branch/src/ouroboros/bigbang/ambiguity.py:358-453 | the number of calls is determined by the answers up to the end; later answers change nothing |
| `Ambiguity.FormatErrorsStayBelow` | src/egri/_vendor/runtime_scaffold_branch/src/ouroboros/bigbang/ambiguity.py:434-445 | while the loop goes on the format errors stay below their limit, also without a retry limit |
| `Ambiguity.OverallWithinUnit` | src/egri/_vendor/runtime_scaffold_branch/src/ouroboros/bigbang/ambiguity.py:687-703 | the score is a fraction for every reading, and zero exactly for full clarity in all required components |
| `Ambiguity.GetCompletionFloorFailures` | src/egri/_vendor/runtime_scaffold_branch/src/ouroboros/bigbang/ambiguity.py:211-236 | a floor is reported exactly when it is unmet and required |
| `Ambiguity.QualifiesForSeedCompletion` | src/egri/_vendor/runtime_scaffold_branch/src/ouroboros/bigbang/ambiguity.py:239-248 | completion exactly for a ready score with all required floors met |
| `Ambiguity.CompletionMeans` | src/egri/_vendor/runtime_scaffold_branch/src/ouroboros/bigbang/ambiguity.py:40-43 | completion component by component: a score of at most 0.2 and each clarity at its floor |
| `Ambiguity.MissingContextNeverCompletes` | src/egri/_vendor/runtime_scaffold_branch/src/ouroboros/bigbang/ambiguity.py:211-248 | a brownfield breakdown without context scores at least 0.15 and never completes, with the exact condition under which it still looks ready |
| `Ambiguity.ClarityOnlyHelps` | src/egri/_vendor/runtime_scaffold_branch/src/ouroboros/bigbang/ambiguity.py:619-703 | raising any clarity never raises the score and never loses completion |
| `Ambiguity.NextFollowsCurrent` | src/egri/_vendor/runtime_scaffold_branch/src/ouroboros/bigbang/ambiguity.py:110-141 | the next milestone is the successor of the current one, and there is none exactly when the score is ready |
| `Ambiguity.NextIsMostAdvancedIff` | src/egri/_vendor/runtime_scaffold_branch/src/ouroboros/bigbang/ambiguity.py:129-141 | the code gives the documented milestone, the most advanced one below the score, exactly for scores of at most 0.3 |
| `Ambiguity.NextMilestoneDiffers` | src/egri/_vendor/runtime_scaffold_branch/src/ouroboros/bigbang/ambiguity.py:129-141 | at a score of 0.35 the documented milestone is the last one and the code gives the one before |
| `Jsonc.StripJsoncRenders` | src/egri/_vendor/runtime_scaffold_branch/src/ouroboros/cli/jsonc.py:61-75 | a document with comments and white space anywhere comes out as the same pieces without comments and trailing commas |
| `Jsonc.StripJsoncKeepsTokens` | src/egri/_vendor/runtime_scaffold_branch/src/ouroboros/cli/jsonc.py:41-75 | the output has the same tokens, strings verbatim, minus exactly the commas before a closing mark, if and only if no two words touch once comments are gone |
| `Jsonc.StripJsoncIdentity` | src/egri/_vendor/runtime_scaffold_branch/src/ouroboros/cli/jsonc.py:41-75 | text without comments and trailing commas is returned unchanged |
| `Jsonc.QuotedIffLiteral` | src/egri/_vendor/runtime_scaffold_branch/src/ouroboros/cli/jsonc.py:23-34 | a string token is a quote, items that are one character other than quote and backslash or a backslash with any character, and a quote |
| `Jsonc.LiteralStays` | src/egri/_vendor/runtime_scaffold_branch/src/ouroboros/cli/jsonc.py:61-75 | a text that is one string literal comes out unchanged, whatever it holds |
| `Jsonc.UnclosedQuoteStays` | src/egri/_vendor/runtime_scaffold_branch/src/ouroboros/cli/jsonc.py:21-39 | a quote that opens no literal is copied by both passes |
| `Jsonc.UnclosedBlockStays` | src/egri/_vendor/runtime_scaffold_branch/src/ouroboros/cli/jsonc.py:21-28 | so is a comment opening that nothing closes |
| `Jsonc.FirstPassDropsComments` | src/egri/_vendor/runtime_scaffold_branch/src/ouroboros/cli/jsonc.py:21-28 | the first pass removes exactly the comments, none of those inside strings |
| `Jsonc.SecondPassDropsCommas` | src/egri/_vendor/runtime_scaffold_branch/src/ouroboros/cli/jsonc.py:32-39 | the second pass removes exactly the commas whose next piece past white space is a closing mark, and that white space |
| `Evaluation.EvaluateIsSound` | src/egri/benchmarks/evaluator.py:128-162 | scores are fractions, precision and unsupported rate add up to one, F1 is twice the overlap over the sum of sizes, exact match implies contained match |
| `Evaluation.ContainsMatchIff` | src/egri/benchmarks/evaluator.py:246-254 | a contained match: some gold answer, folded, is a stretch of the folded answer |
| `Evaluation.SummaryIsSound` | src/egri/benchmarks/evaluator.py:165-200 | the means keep every bound and relation of the single scores |
| `Evaluation.SummaryMeans` | src/egri/benchmarks/evaluator.py:165-200 | each mean is the sum of its own score over the size of the group |
| `Evaluation.GroupsCoverEverything` | src/egri/benchmarks/evaluator.py:165-180 | the group sizes add up to the number of evaluations |
| `LiveBenchmark.RunLiveBenchmark` | src/egri/benchmarks/live_runner.py:53-106 | a run finishes exactly when every answer is there and valid and every policy has a result of its name; its results and scores are those of the nested loops in order, and what is stored is made from them |
| `LiveBenchmark.AggregateStable` | src/egri/benchmarks/live_runner.py:179-186 | one summary per policy, in policy order, over exactly the evaluations of its name |
| `LiveBenchmark.RowsNameTheirExample` | src/egri/benchmarks/live_runner.py:255-265 | row k names the example whose answer it stores and whose scores evaluation k holds |
| `PaperTables.UsageByPolicy` | src/egri/benchmarks/paper_tables.py:337-397 | the dictionary filled row by row, or nothing when a row lacks a field |
| `PaperTables.TabulateTabulates` | src/egri/benchmarks/paper_tables.py:337-397 | each policy's entry is the sum over exactly its rows, in first-met order |
| `PaperTables.UsageIsConserved` | src/egri/benchmarks/paper_tables.py:306-325 | usage summed policy by policy is usage summed row by row |
| `PaperTables.RowsFromLiveRun` | src/egri/benchmarks/paper_tables.py:139-196 | a table is built exactly when every check passes, the recorded cost within 1e-12 of the sum, and its rows hold their policy's own usage |
| `PaperTables.TableRowMeans` | src/egri/benchmarks/paper_tables.py:139-196 | a row: totals over its policy's own results, reject rate and mean repairs per result, and the stored scores |
| `PaperTables.AcceptedMeans` | src/egri/benchmarks/paper_tables.py:253-334 | what an accepted run's metadata, rows and summaries hold |
| `PaperTables.StoredRunAcceptedIff` | src/egri/benchmarks/paper_tables.py:253-334 | what a finished run stores passes every check exactly when policy names are distinct and every result is named after one of them |
| `PaperTables.TableAddsUpToRun` | src/egri/benchmarks/paper_tables.py:139-196 | an accepted run's table has one row per policy and adds up to the run's results, calls, tokens and cost |
| `MemoryLog.LocalJsonMemoryBackend.Store` | src/egri/memory.py:244-264 | the valid observations of a batch are appended in order, nothing else changes, and each other one is reported |
| `MemoryLog.LocalJsonMemoryBackend.Recall` | src/egri/memory.py:204-242 | the priors of the valid matching lines, sorted, and the rejections of the invalid ones; it raises exactly when a relevant valid line holds a list or an object where a family or category is looked up; the log is unchanged |
| `MemoryLog.RecallIsExact` | src/egri/memory.py:204-264 | after any run of stores a recall does not raise, rejects nothing, and is exactly the valid matching observations with clamped confidence, sorted |
| `MemoryLog.RecallIsSorted` | src/egri/memory.py:436-443 | a recall is sorted by task, kind, family, category and recommendation |
| `MemoryLog.RecordIsRecalled` | src/egri/memory.py:267-305 | a valid record about the query is recalled field by field |
| `MemoryLog.RefusedObservationsNeverMatter` | src/egri/memory.py:244-264 | runs with the same valid observations in order recall the same, however batched and whatever was refused |
| `MemoryLog.RecallIsClean` | src/egri/memory.py:267-344 | whatever the file holds, a recall yields only known vocabulary about the query, without forbidden text |
| `MemoryLog.RecallOnlyGrows` | src/egri/memory.py:204-264 | appending lines never loses a prior |

## Left out

- Text of prompts, rejection details, labels and error messages: findings are tags with their place; error lists whose order depends on key iteration are sets of findings.
- Runtime adapters, timeouts, the extraction of a JSON object from raw text, files, clocks and the command line: each call is an arbitrary answer or error, stored files are sequences of records.
- Memory priors attached to prompts, and cell memory blocks: the answers are arbitrary, so what a prompt says cannot matter to the results.
- Python's `True == 1` and `1 == 1.0`, NaN and infinities, lone surrogates, non-ASCII decimal digits, rounding of reported rates, costs and scores, and the interpreter's recursion limit.
- Insertion order of JSON objects outside the repair prompt: the cell reads child outputs as unordered maps, so `str()` there is a function of the map (`Rendering`); sets, which `_stable_json_value` also accepts, do not occur in decoded JSON.
- RepairPatch.ApplyRepairedEvidenceChunkIds: the write into the deep copy is a path update on a value; aliasing inside the copy is not modelled.
- SynthesisDiff.BeforeAfterDiff: entries carry structured paths; the printed form is `Json.PrintSteps`, under which two different structured paths may read the same when a key contains a dot.
- PatchComparison.CompareMissingHandlePatch: errors are a set of tagged places, their order in the list is dropped; paths are compared as printed texts, as the code does, so two places with the same text share a rule.
- PatchComparison.CompareEvidenceChunkIdPatch: errors are a set of tagged places, their order in the list is dropped; the protocol asks only whether the list is empty.
- RepairFidelity.RetainedFactFidelityErrors: findings are a set of tags, the list order and the labels are dropped.
- RepairFidelity.ParentClaimTextFidelityErrors: findings are a set of tags, the list order and the labels are dropped.
- RepairFidelity.MissingHandleRepairFidelityErrors: the one list of errors is kept as its three parts, each a set.
- RepairReferences.ChildEvidenceHandlesByFact: the handles of a fact are a set; the order in which children cited them, which only the prompt text shows, is dropped.
- RepairPrompt.PromptInputIff: stated for the canonical input; its JSON text and the labelled sections are determined by it and are not modelled. What is read from manifest and children is made of strings under fixed keys, so their second pass through `_stable_json_value` changes nothing and is left out.
- LiveBenchmark.RunLiveBenchmark: which error is raised is not distinguished; policies that answer are assumed to return well-typed result objects.
- PaperTables.RowsFromLiveRun: live runs only; offline and ablation rows would add easy members. Summary fields that merely pass through are kept as read.
- ScaffoldGate.NormalizeParentSynthesis: the parent summary is a parameter; claims that cite no child id are outside the two citing theorems.
- Ambiguity.Score: extraction of the JSON text from a reply is left out; a reply parses, fails to parse, or raises outside the caught errors.
- Interview.InterviewState.RecordResponse: time stamps and the completion streak are left out.
- InterviewPrompt.AskNextQuestion: the wording of the fixed prompt texts is arbitrary; the bound is for the base engine only, since the PM wrapper (`pm_interview.py:432-434`) prepends text after truncation.
- Smoke runs, dry plans, contract-only runs, Markdown and CSV reports, seed generation, PM documents, brownfield scanning, `baseline.py`: plumbing, or fixed instances of the facts above.
