# Verified model of the Ten Shadows engine and the Forge planner

A Dafny model of the parts of the repository that carry protocols, state machines and gates, with
proofs of what they guarantee over every input, run or interleaving. `dafny verify dfyconfig.toml`
checks everything.

Code that changes tables, branches, stores and counters in place is a class with methods and loops,
proved against functions on the state (`Step`, `Resolve`, `RunOps`, `After`, `Governed`, ...); the
theorems are about those functions. Hashes and signatures are ideal: a digest is a datatype of the
digested fields, a signature is membership in the table of issued witnesses. Clocks, test outcomes,
git answers, runner results and adapters are parameters.

## The modules

* **Promotion.** `Commits` (the commit order and fast-forward), `ProposalTable` (states and legal
  edges), `KernelStore` (the database), `ColonJoin` and `Transition` (claims, witnesses, the engine),
  `Promoter` (one promotion as a step machine, the coordinator that refines it, crashes and
  reconciling), `PromotionProtocol` (any number of processes interleaved).
* **Sorter.** `TaskGraph` (paths, cycles, stalled orderings), `DagSorter` (Kahn's loops over two
  dictionaries and a queue, with no precondition on the tasks).
* **Planner.** `Substrate`, `Registry`, `Obligations`, `Resolution`, `Decomposition`, `Closure`,
  `Compiler`, and `Pipeline`, where the four gates meet over one plan.
* **Evidence.** `Evidence` (deduplication and early returns against a set-based verdict),
  `Sufficiency` and `Retraction` (Law 6 and live retraction), `Envelope` (derivations of evidence envelopes).
* **Custody.** `Artifacts` (keys, rows, files, ledger), `Router` (execution and resuming),
  `Authorization` and `AuthorizationProtocol` (at most once, under interleaving).
* **Limits.** `StrikeLoop`, `TokenBucket`, `SceneBudget`, `SchemaValidator`.

## Where the code differs from what it promises

* `promote` can return True while the row is not POST_PROMOTION_VERIFIED: the engine swallows a
  failed compare-and-swap (`loop_engine/transition.py:261-270`). `Promoter.ResultMeansFinal` says
  exactly from which states, `PromotionProtocol.TrueWithoutFinalState` gives the race. The candidate
  is on the branch all the same.
* `promote` compares receipts by task id only (`Promoter.UnsealedReceiptExactly`); the safety theorem
  takes receipts of the sealed manifest, as the verifier gate writes them
  (`loop_engine/verifier_gate.py:436-452`).
* `record_proposal` seals a row in any state (`PromotionProtocol.SealSafeIffAdmissible`).
* The verifier gate's handler for a rejected transition names a failure class that does not exist
  (`loop_engine/verifier_gate.py:430`), so it raises; the model's verification process stops there.
* The sorter also reports cycles for repeated task ids, cycle or not (`DagSorter.Sort`).
* Coverage of a requirement is tested by substring, so an operation made for requirement 10 also
  covers requirement 1; `Pipeline.CoveredExactly` and `Pipeline.NumberedCoveredExactly` say exactly
  which are covered, `Pipeline.GateStopsExactly` which requirement stops a run at that gate.
* Observation digests omit the falsified flag and specification digests the coverage threshold, so
  duplicates can make the verdict depend on order: `Evidence.VerdictIgnoresOrderExactly` says when,
  and `Evidence.ApplicabilityIgnoresOrderExactly` the same for the applicability.
* Under the alternatives rule retracting a falsified alternative can satisfy an objective
  (`Sufficiency.RetractionSatisfiesAlternativesExactly`), and under any rule retracting evidence can
  (`Retraction.EvidenceRetractionSatisfiesExactly`).
* Staging again under a key overwrites the payload file and keeps the old hash
  (`Artifacts.RestagingKeepsTheRecord`); the loader computes the file's hash and never compares it.
* The executor compares the operation with the decision it is handed, never with the stored hash
  (`AuthorizationProtocol.UnissuedDecisionRuns`), and a crash after consuming loses the execution
  (`AuthorizationProtocol.CrashStrands`).
* Confidence and origin can be raised in ways the docstring of `transform_envelope` excludes
  (`Envelope.InvalidWitnessLiftsConfidence`, `Envelope.TwoStepsReachPhysical`);
  `Envelope.ConfidenceBoundedExactly` and `Envelope.PhysicalReachableExactly` give the conditions.
* Claims and idempotency keys are joined with colons, which tells them apart exactly when at most one
  field may hold colons (`Transition.ClaimTextInjectiveExactly`, `Artifacts.KeyTextInjectiveExactly`).
* The oscillation check compares with the last verified candidate only
  (`StrikeLoop.ReverifiedExactly`, `StrikeLoop.HistoriesExactly`).
* An adapter that raises is called a second time with the whole state, and a raising capability
  verifier is not caught (`Forge/core/compiler.py:202-236`).
* Runtimes of 10 to 20 seconds pass the input contract and fail the pacing ceiling
  (`SceneBudget.ShortRuntimesFail`).
* The fallback validator differs from JSON Schema (draft 2020-12, Validation sections 6.1 to 6.5,
  Core sections 8.2.3.1 and 10.2.1.3) outside its fragment: `SchemaValidator.AcceptsTooMuchExactly`,
  `SchemaValidator.RejectsTooMuchExactly` and `SchemaValidator.BranchReferencesExactly` say when.

## Model

| member | source | states |
|---|---|---|
| PromotionProtocol.PromotedStaysOnBranch | loop_engine/promoter.py:154-258 | In every interleaving of promotions, reconcile passes, verifications, public moves, branch advances and crashes, a row stored as PROMOTED or POST_PROMOTION_VERIFIED has its candidate on the branch then and after any continuation, and POST_PROMOTION_VERIFIED is never left |
| PromotionProtocol.EveryChangeIsLegal | loop_engine/schema.py:39-53 | Whatever anyone does, one step changes a stored state only along an edge of the legal table, never the candidate, and never a final row |
| PromotionProtocol.TrueMeansOnBranch | loop_engine/promoter.py:89-201 | A promotion that returned True left the sealed candidate on the branch, in every interleaving, even where the stored state says something else |
| PromotionProtocol.SealSafeIffAdmissible | loop_engine/kernel_db.py:310-340 | Sealing accepts any initial state; it keeps the safety property exactly when a row sealed in a promoted state already has its candidate on the branch |
| PromotionProtocol.TrueWithoutFinalState | loop_engine/promoter.py:223-258 | A reconcile pass that looks before the merge and writes after it makes promote return True with the row at VERIFIED: the run is constructed |
| PromotionProtocol.SweepAloneReconciles | loop_engine/promoter.py:230-258 | An undisturbed sweep of the interleaved machine is the coordinator's reconcile pass, in whatever order the query lists the rows |
| PromotionProtocol.VerificationEnds | loop_engine/verifier_gate.py:126-474 | An undisturbed verification: an unclean workspace is recorded as BLOCKED, failing tests as REJECTED, both with the row left alone; passing ones move a VERIFYING or sealed row to VERIFIED and are recorded, unless the governance changed |
| PromotionProtocol.RunKeepsInv | loop_engine/promoter.py:89-258 | The global invariant (promoted rows merged, receipts sealed, every process knows what it has established) survives every admissible run |
| Promoter.CrashThenReconcile | loop_engine/promoter.py:89-258 | Cut off after any step and reconciled once, a promotion that began at VERIFIED with an unmerged candidate leaves VERIFIED exactly when the candidate is not on the branch, nothing pending, a second pass changes nothing, and other rows are untouched |
| Promoter.ResultMeansFinal | loop_engine/promoter.py:118-201 | For a sole writer True means POST_PROMOTION_VERIFIED exactly from VERIFIED, PROMOTION_PENDING, PROMOTED or the final state itself; from the other four states the row never moves |
| Promoter.SwallowedMovesStillReturnTrue | loop_engine/promoter.py:154-201 | From those four states, with every command succeeding, promote returns True and the row stays where it was |
| Promoter.UnsealedReceiptExactly | loop_engine/promoter.py:103-116 | Receipts are compared by task id only: the final state is truthful about the sealed candidate exactly when merging the receipt's candidate brings the sealed one along |
| Promoter.OnCourseReachesTarget | loop_engine/promoter.py:161-201 | With every command succeeding the head ends where the fast-forward of the receipt's candidate puts it |
| Promoter.PromotionCoordinator.RequestTransition | loop_engine/promoter.py:46-87 | Accepted exactly when the edge is legal and the governance digest did not change; an accepted request attempts the compare-and-swap and hides whether it applied |
| Promoter.PromotionCoordinator.Promote | loop_engine/promoter.py:89-201 | Run alone, promote is the uninterrupted run of the step machine, and answer, rows, receipts and head are the closed form over entry state, receipt, merge and environment |
| Promoter.PromotionEndsExactly | loop_engine/promoter.py:103-201 | For a sole writer, every ending: a refusal changes nothing; a failed checkout or merge ends VERIFIED with the head unmoved (PROMOTION_PENDING if the rollback is rejected); failing tests end REJECTED with the head moved (PROMOTED if that is rejected); success ends POST_PROMOTION_VERIFIED; states outside the chain stay |
| Promoter.PromotionCoordinator.ReconcileInterruptedPromotions | loop_engine/promoter.py:223-258 | Each pending row is advanced if its candidate is on the branch and rolled back otherwise; rows for which git names no head are passed over, and no other row changes |
| Promoter.SilentRowsWait | loop_engine/promoter.py:235-242 | A row passed over is settled by a later pass just as the first would have settled it: two passes are one pass over the rows silent in both |
| Promoter.GitRepo.MergeFfOnly | loop_engine/promoter.py:172-180 | The head moves only along a fast-forward, and stays otherwise |
| Commits.MergeKeepsHistory | loop_engine/promoter.py:172-180 | A fast-forward merge keeps everything that was on the branch and brings the candidate on it |
| Commits.AncestorAntisymmetric | loop_engine/promoter.py:245-251 | Two commits that are ancestors of each other are equal: reachability is a partial order |
| Transition.ClaimTextInjective | loop_engine/transition.py:82-87 | The ten-field colon-joined claim is injective when only the evidence field may hold colons |
| Transition.ClaimTextInjectiveExactly | loop_engine/transition.py:82-87 | With colons allowed in some of the eight free-text fields, the claim text is injective exactly when that is at most one of them |
| Transition.ColonsInTwoFieldsCollide | loop_engine/transition.py:82-87 | With colons in any two text fields of any claim, a witness for one claim is accepted for another, exactly unless one of the two is the scope, which is compared by itself |
| ColonJoin.InjectiveExactly | loop_engine/transition.py:82-87 | Records of n fields joined by colons are told apart exactly when at most one field may hold colons |
| Transition.AcceptedIffIssuedForThisClaim | loop_engine/transition.py:181-243 | A request is accepted exactly on a legal edge, an unspent witness, current governance, and a witness issued for exactly this claim |
| Transition.RejectedExactly | loop_engine/transition.py:181-243 | A rejection names the first thing wrong: the move, a replay, the governance, the witness |
| Transition.NoWitnessAcceptedTwice | loop_engine/transition.py:193-202 | Over any run one engine accepts no witness id twice |
| Transition.PrivilegedTransitionEngine.ExecuteTransition | loop_engine/transition.py:176-272 | The verdict, the spent set and the table after a request; a failed compare-and-swap is swallowed and still accepted |
| Transition.WitnessAuthority.Issue | loop_engine/authority.py:62-80 | Every issued witness is recorded under a fresh id |
| KernelStore.KernelDatabase.RecordProposal | loop_engine/kernel_db.py:310-340 | Sealing is write-once |
| KernelStore.KernelDatabase.RawTransition | loop_engine/kernel_db.py:379-397 | The move is a compare-and-swap on a legal edge; otherwise it raises and changes nothing |
| KernelStore.KernelDatabase.ExecutePrivilegedTransition | loop_engine/kernel_db.py:367-377 | Only the internal token reaches the compare-and-swap |
| KernelStore.KernelDatabase.TransitionProposalState | loop_engine/kernel_db.py:399-409 | Through the public interface no row enters a privileged state |
| KernelStore.KernelDatabase.UpdateState | loop_engine/kernel_db.py:411-416 | The same for an update from whatever state is stored, with an error for an unknown task |
| KernelStore.KernelDatabase.RecordVerifiedReceipt | loop_engine/kernel_db.py:422-453 | A receipt needs a proposal row; its id is its position |
| KernelStore.KernelDatabase.GetPendingPromotions | loop_engine/kernel_db.py:539-545 | Exactly the pending rows, with their candidates |
| DagSorter.Sort | Forge/core/registry.py:244-270 | On any task list: no task twice, only known tasks, known dependencies first, unlisted exactly those that depend on a cycle, and has_cycles exactly when there is a cycle or an id repeats |
| DagSorter.PhysicalDagAdapter | Forge/core/registry.py:244-270 | The same for the adapter, with missing ids replaced by t0, t1 and so on, and the node count |
| DagSorter.BuildTables | Forge/core/registry.py:244-256 | In-degrees and adjacency lists mirror the known dependencies, repeated names counted each time |
| DagSorter.Drain | Forge/core/registry.py:257-268 | The queue loop ends with an ordered listing that has stalled: a task is listed exactly when all its dependencies are |
| TaskGraph.UnlistedExactly | Forge/core/registry.py:257-270 | In any ordered stalled listing the unlisted tasks are exactly those that depend on a cycle, directly or indirectly |
| TaskGraph.ShortExactlyOnCycle | Forge/core/registry.py:268-270 | Such a listing is short exactly when the graph has a cycle |
| Registry.CapabilityRegistry.Register | Forge/core/registry.py:41-42 | The id now stands for the new manifest, every other id for what it did, and a known id adds no entry |
| Registry.CapabilityRegistry.FindCandidates | Forge/core/resolution.py:88-110 | The strict contract matches, or failing those the matches by effect and outputs |
| Registry.SelectedIsMaximum | Forge/core/registry.py:127-143 | No candidate is above the selected one in the sort key |
| Registry.SelectedInFields | Forge/core/registry.py:105-143 | The selected capability claims the effect if any candidate does; among those alike in that none has a stronger lifecycle, then none a verifier it lacks, then none a later id |
| Registry.StringLessExactly | Forge/core/registry.py:131-143 | Ids are compared by their first difference, a proper prefix first |
| Registry.SelectionIgnoresOrder | Forge/core/registry.py:105-143 | The selected capability is the one maximum of a total order, whatever the order of registration |
| Registry.CandidatesExactly | Forge/core/resolution.py:88-110 | Candidates are exactly the strict matches when there are any, else exactly the loose ones, if an effect is named |
| Registry.CandidatesInFields | Forge/core/registry.py:50-103 | A candidate is registered, of an executable kind and lifecycle, and has every output; it wants no other inputs, effect or authority than named, or, when nobody who serves does so, it names the effect |
| Resolution.GroundedSatisfactionResolver.ResolveObligations | Forge/core/resolution.py:40-274 | The loop computes the resolution function, and its proof lists what accumulates obligation by obligation: an operation field by field, a binding and outputs, or one deficit with its reason; or an index error on an empty operator list |
| Resolution.ResolutionAccumulates | Forge/core/resolution.py:63-252 | Every plan comes about this way from the environment's inputs |
| Resolution.CrashExactly | Forge/core/resolution.py:204-240 | It raises exactly at the first obligation whose selected capability would serve it and names no operator |
| Resolution.JudgementOnlyAdvances | Forge/core/resolution.py:64-202 | With more inputs, evidence or authority the judgement of one obligation gets at least as far along the six checks, and a binding stays the same binding |
| Resolution.BoundIsEntitled | Forge/core/resolution.py:64-202 | What is bound is a candidate of the obligation, authorised, with its outputs, on supplied inputs, grounded evidence and granted authority, and no other candidate ranks above it |
| Resolution.JudgementInFields | Forge/core/resolution.py:64-202 | Each deficit kind is given exactly for its reason (authority, representation, capability, inputs, recorded evidence of the right class, permission), supposing those before it do not apply |
| Resolution.ProposesExactly | Forge/core/resolution.py:88-135 | A capability is proposed exactly when one that serves keeps within what is asked or names the effect |
| Resolution.ResolvedExactly | Forge/core/resolution.py:63-254 | Resolution succeeds exactly when every obligation is feasible in list order and no obligation id repeats; operation and binding k are then those of obligation k's selected capability |
| Resolution.FaultlessExactly | Forge/core/resolution.py:63-252 | No deficit and no crash exactly when every obligation has authority, effect, capability, evidence, permission, and inputs from the environment or earlier outputs |
| Resolution.BindingsKeepKeys | Forge/core/resolution.py:254 | The bindings dictionary has one entry per obligation exactly when ids are distinct |
| Resolution.ResolutionIsMonotone | Forge/core/resolution.py:61-254 | More inputs, evidence or authority keep a resolved plan resolved with the same operations and bindings |
| Resolution.ResolutionIgnoresRegistrationOrder | Forge/core/resolution.py:88-127 | The plan does not depend on the order of registration |
| Obligations.DeriveObligations | Forge/core/obligations.py:481-602 | In order, one obligation for every requirement with exactly one proven interpretation, carrying that interpretation field by field, and one deficit for every other blocking one: ambiguous with two, unbound with none |
| Obligations.DerivedInFields | Forge/core/obligations.py:502-600 | The same about the derivation function |
| Obligations.RenderedObligation | Forge/core/obligations.py:545-588 | A requirement with a sole proven interpretation has an obligation with its effect, inputs, outputs, evidence, authority needs, expected values and blocking flag, and the authority that befits its proof's source |
| Obligations.NoDeficitExactly | Forge/core/obligations.py:502-600 | No deficit exactly when every blocking requirement has exactly one grounded interpretation |
| Obligations.OneObligationEach | Forge/core/obligations.py:545-588 | With every requirement blocking and no deficit, obligation k is the reading of requirement k |
| Obligations.DerivedExactly | Forge/core/obligations.py:502-588 | The ids of the derived obligations are exactly those made from the requirements that are read |
| Obligations.DerivedHaveAuthority | Forge/core/obligations.py:547-559 | Every derived obligation has closure authority, whatever its proof's source |
| Obligations.ReadExactly | Forge/core/obligations.py:517-588 | A requirement is read exactly when one interpretation grounds it; several decide nothing |
| Decomposition.EvaluateDecomposition | Forge/core/decomposition.py:30-140 | SATISFIED exactly when every requirement is covered, no dependency is unknown, no input floats, and every operation is verified or feeds a verified one; the two coverage ratios are exact |
| Decomposition.GateInFields | Forge/core/decomposition.py:50-127 | Satisfied exactly when every requirement is mentioned by an operation's id or postcondition or is its obligation, every dependency is listed, every input given, put out before or by a dependency, and every operation is checked by a contract or feeds a named one that is |
| Decomposition.UncoveredExactly | Forge/core/decomposition.py:78-88 | Exactly the descriptions of the requirements no operation addresses are listed |
| Decomposition.CheckOperation | Forge/core/decomposition.py:57-70 | One operation's dependencies are known and its inputs supplied |
| Decomposition.CountVerified | Forge/core/decomposition.py:90-113 | The count reaches the number of operations exactly when each is verified or feeds a verified one |
| Decomposition.InducedCoversExactly | Forge/core/decomposition.py:78-88 | For an operation the resolver induced the five tests come to two: its id or its postcondition contains the requirement's id |
| Decomposition.ContainsNumber | Forge/core/decomposition.py:78-88 | With the letter r nowhere else, a text ending in a numbered requirement id contains another such id exactly when the other number is a prefix: 10 contains 1 |
| Closure.ClosureGate.EvaluateClosure | Forge/core/closure.py:44-157 | The report is the closure function of operations, evidence pool and obligations |
| Closure.ClosedExactly | Forge/core/closure.py:54-149 | Closed exactly when every operation is bound to an authorised capability with matching inputs and grounded evidence, and every blocking obligation has authority |
| Closure.ReportAccounts | Forge/core/closure.py:49-149 | The report's lists hold exactly the soundly bound operations, what ails the others, the evidence on record and the evidence missing, and the blocking obligations without authority; closed exactly when no gap is listed |
| Compiler.ExecutionGraphCompiler.Compile | Forge/core/compiler.py:58-142 | The four errors in the order of the code; otherwise the graph with the sealed bindings, exactly when every operation can be sealed |
| Compiler.CompiledInFields | Forge/core/compiler.py:91-118 | Past the gates it succeeds exactly when each operation has its own binding, or that of the first resolution binding that goes with its id, to an executable capability; the graph binds each id so |
| Compiler.EachKeepsItsBinding | Forge/core/compiler.py:91-118 | With distinct operation ids the bindings dictionary gives every operation its own capability |
| Compiler.ExecutionGraphCompiler.ExecuteGraph | Forge/core/compiler.py:179-274 | The executor computes the run function, and every result is explained by a passage of stores: each operation called as bound, its output passed by the capability's own verifier and stored, until one fails, a gate refuses, or all succeed |
| Compiler.ExecuteEnds | Forge/core/compiler.py:191-274 | The same about the run function: unauthorised, raising, refused and raising verifier, first refusing gate, or success, each exactly from its parts |
| Compiler.RunOpEnds | Forge/core/compiler.py:191-241 | One operation: the bound executable capability, its adapter's answer to these arguments, its verifier's judgement of that very output, and the store after it |
| Compiler.ExecutionGraphCompiler.GatherArguments | Forge/core/compiler.py:204-212 | A parameter's name in the store gets the store's value, its default only otherwise; a catch-all takes everything |
| Compiler.InvokeFollowsNames | Forge/core/compiler.py:202-225 | An adapter without a catch-all parameter that accepts its named arguments sees nothing else of the store |
| Compiler.StoreKeysGrow | Forge/core/compiler.py:227-232 | Keys are never lost from the state store |
| Compiler.SuppliedIsStored | Forge/core/compiler.py:191-232 | What the plan counts as supplied before an operation is in the store when it starts, provided earlier adapters return what they declare |
| Compiler.RunnableGraphsFailInside | Forge/core/compiler.py:191-252 | With every operation runnable a run fails only in an adapter or in its capability's verifier, which may also raise |
| Pipeline.ForgeEngine.Run | Forge/forge.py:199-325 | The whole run, exit by exit, each deficit with its kind: after a successful resolution only a requirement dropped on the way or a capability with an empty id stops it, never the coverage gate when all requirements block, and never the compiler; success delivers what every sole proven interpretation promises |
| Pipeline.ContractsAreOneToOne | Forge/forge.py:241-283 | In a resolved plan contract j checks operation k exactly for j = k, and accepts a state exactly when the operation's outputs are present and not None and its own obligation's expected values are met |
| Pipeline.DecompositionOnlyAsksCoverage | Forge/forge.py:285-301 | On a resolved plan the decomposition gate says SATISFIED exactly when every requirement is covered |
| Pipeline.BlockingRequirementsAreCovered | Forge/forge.py:285-301 | If all requirements are blocking, derivation reports no deficit and resolution succeeds, every requirement is covered |
| Pipeline.ClosureOnlyAsksForIds | Forge/forge.py:303-312 | On a resolved plan with the same registry and evidence the closure gate closes exactly when no bound capability has an empty id |
| Pipeline.ClosedPlansCompile | Forge/forge.py:314-322 | A closed plan can be sealed, operation by operation, with the capability it already carries |
| Pipeline.CoveredExactly | Forge/core/decomposition.py:78-88 | In a resolved plan a requirement is covered exactly when the operation of some requirement that is read mentions its id |
| Pipeline.GateStopsExactly | Forge/forge.py:285-301 | The coverage gate stops a plan without deficits exactly when some requirement blocks nothing, is read by no single interpretation, and is mentioned by the operation of none that is |
| Pipeline.NumberedCoveredExactly | Forge/forge.py:174-182 | With the ids a run gives its requirements, one is covered exactly when its number begins the number of one that is read |
| Pipeline.InputsArePresent | Forge/core/compiler.py:191-232 | Executing a resolved plan in list order starts each operation with every declared input in the store, provided earlier adapters return their declared outputs |
| Pipeline.NeverUnauthorized | Forge/core/compiler.py:191-200 | The executor's own authorisation check never fails on a resolved plan |
| Pipeline.RunsItsSelection | Forge/core/compiler.py:192-194 | Each operation runs with the capability selected for its obligation |
| Pipeline.SuccessDeliversOutputs | Forge/core/compiler.py:254-274 | On success every declared output is present and not None, every expected value is met, and no initial key is lost |
| Pipeline.SuccessDeliversReadings | Forge/forge.py:199-325 | On success the outputs and expected values of every requirement's sole proven interpretation are in the final state |
| Evidence.EvaluateClaim | loop_engine/constitution/evidence.py:186-308 | For every input, from the fields of the items looked at: SUPPORTED exactly when all are bound and available, none is falsified, under coverage, failing or with an error, and one passed; CONTRADICTED exactly when all are usable and some one is so; INAPPLICABLE, UNRESOLVED and APPLICABLE by the first defect or its absence; and the same as the set-based verdict |
| Evidence.EvaluationInFields | loop_engine/constitution/evidence.py:214-308 | The same about the verdict and applicability functions |
| Evidence.SameKeyExactly | loop_engine/constitution/evidence.py:28-90 | Two items count as one exactly when all digested fields agree |
| Evidence.DeduplicationIsHarmless | loop_engine/constitution/evidence.py:202-212 | If items with equal digests agree on the falsified flag and the coverage threshold, the verdict is the set-based verdict on everything given |
| Evidence.OrderAndRepetitionAreIgnored | loop_engine/constitution/evidence.py:186-308 | Reordering or repeating such evidence changes no verdict |
| Evidence.BearingFollowsDigests | loop_engine/constitution/evidence.py:116-130 | The digests and the two facts they omit determine what an item says |
| Evidence.VerdictIgnoresOrderExactly | loop_engine/constitution/evidence.py:186-308 | The verdict is the same for every order and repetition exactly when some item is unusable, or some digest class contradicts throughout, or no digest class mixes contradicting items with others |
| Evidence.StableExactly | loop_engine/constitution/evidence.py:202-212 | For any question about single items: whether some first item passes is the same for every order exactly when some digest class passes throughout or no class is mixed |
| Evidence.ApplicabilityIgnoresOrderExactly | loop_engine/constitution/evidence.py:217-269 | The applicability ignores order exactly when all unusable items have one reason, or, with none, when it is fixed whether some first item says anything |
| Sufficiency.EvaluateSpecification | loop_engine/constitution/sufficiency.py:71-171 | Satisfied exactly when the objective is qualified, some requirement is held (an alternative, under alternatives) and every blocking one is held (or, under alternatives, is an alternative that is not falsified); a requirement is held when it has a claim, no invalidating node and SUPPORTED surviving evidence; the id lists are exact |
| Sufficiency.TallyHolds | loop_engine/constitution/sufficiency.py:101-153 | The three id lists hold exactly the held, the falsified blocking and the other blocking requirements |
| Sufficiency.SurvivingExactly | loop_engine/constitution/sufficiency.py:122-134 | Evidence survives exactly when its own node is not invalidated, contested or proposed |
| Sufficiency.HeldInFields | loop_engine/constitution/sufficiency.py:105-153 | A requirement is held, or falsified, exactly when it has a claim, is not invalidated, contested or proposed, and of its evidence that is not either, every item looked at is usable and none (some) adverse and some one passed |
| Sufficiency.RetractionNeverSatisfies | loop_engine/constitution/sufficiency.py:109-118 | Except under alternatives, retracting requirement nodes never turns unsatisfied into satisfied |
| Sufficiency.RetractionSatisfiesAlternativesExactly | loop_engine/constitution/sufficiency.py:156-165 | Under alternatives some retraction of requirement nodes satisfies the objective exactly when only falsified alternatives stand in the way and none of them shares its id with a piece of evidence |
| Retraction.EvidenceRetractionSatisfiesExactly | loop_engine/constitution/sufficiency.py:71-171 | Under any rule some retraction of evidence nodes satisfies the objective exactly when it is qualified and some requirement that may count is attainable: after dropping harmful ids until none is left, every requirement node in force stays, and every needed requirement is claimed, in force and keeps a supporting item |
| Retraction.PrunedIsLargest | loop_engine/constitution/sufficiency.py:122-134 | Dropping blamed ids until there are none leaves the largest set of ids without blame |
| Retraction.SurvivingFirstsLead | loop_engine/constitution/sufficiency.py:122-134 | What the evaluator looks at after a retraction are the kept items with no kept item of the same digests before them |
| Retraction.SupportedExactly | loop_engine/constitution/sufficiency.py:122-141 | Kept evidence supports a claim exactly when each kept unusable or contradicting item has a harmless kept one of the same digests before it, and some kept item supports |
| Sufficiency.RetractedRefutationSatisfies | loop_engine/constitution/sufficiency.py:122-134 | So evidence retraction is not monotone: retracting the node of a refuting item satisfies an objective that was contradicted |
| Artifacts.KeyTextInjectiveExactly | loop_engine/artifacts.py:191-201 | The eight-field key text is injective exactly when at most one field may hold colons |
| Artifacts.KeyTextsCollide | loop_engine/artifacts.py:191-201 | Whatever an environment's fields, any two of them can be changed so that two environments share a key text |
| Artifacts.ArtifactRegistry.StageArtifact | loop_engine/artifacts.py:203-312 | A known key returns its record, a new one is inserted as STAGED; the payload file is written either way |
| Artifacts.ArtifactRegistry.TransitionState | loop_engine/artifacts.py:314-352 | A known id is moved and logged, an unknown one is an error; the table stays the replay of its ledger |
| Artifacts.ArtifactRegistry.FindVerifiedArtifact | loop_engine/artifacts.py:354-392 | Only a VERIFIED or PROMOTED row under the exact key is found |
| Artifacts.FoundExactly | loop_engine/artifacts.py:381-386 | A record is found exactly under its own key and never while staged, rejected, superseded or rolled back |
| Artifacts.LedgerStaysChained | loop_engine/artifacts.py:270-352 | Every ledger entry starts from the state the entries before it left the artifact in |
| Artifacts.RestagingKeepsTheRecord | loop_engine/artifacts.py:239-250 | Staging again keeps the first record, and leaves a file matching the recorded hash exactly for equal content |
| Router.BoundedShadowRouter.ExecuteRoute | loop_engine/router.py:283-637 | The step loop computes the execution function; on SUCCESS the completed steps are the whole plan; records and ledger are kept |
| Router.CompletedIsPrefix | loop_engine/router.py:333-361 | Completed steps are always a prefix of the plan, split into those run and those taken from the cache |
| Router.ResumeAgreesWithRun | loop_engine/router.py:333-361 | If the first k steps each left a record, resuming with the same plan and parent on any custody that kept the records runs none of them again, whatever the runners now do, and rebuilds the same artifact ids and hash chain, exactly when every payload on the way can be read back; otherwise it raises |
| Router.ResumeAfterRun | loop_engine/router.py:333-361 | In particular on the custody the whole earlier run left |
| Router.ResumesExactly | loop_engine/router.py:333-361 | A step is resumed exactly when a VERIFIED or PROMOTED record has exactly this run, plan, step, source, commit, producer, policy and schema version; otherwise its runner or its approval is asked |
| Router.ResumedRecordIsOwn | loop_engine/router.py:333-361 | What a resumed step goes on with is a record whose key carries all eight, field by field |
| Router.FreshRecordsServeSameStepOnly | loop_engine/router.py:336-345 | A record freshly registered by one execution is resumed by another only for the same run, commit, plan, step, producer and policy over the same source |
| Router.RunStepHandsOn | loop_engine/router.py:514-544 | A step that was run hands on its artifact; under a new key it is filed, promoted and named by its hash |
| Router.StopsExactly | loop_engine/router.py:333-512 | A step ends the execution exactly for its approval, an aborted step, a missing runner or an unreadable payload, and then changes nothing in custody |
| Router.RegisteringLeavesRecord | loop_engine/router.py:514-544 | A step leaves such a record if it was resumed itself or registered an artifact of its declared schema version |
| Router.OtherSchemaIsRunAgain | loop_engine/router.py:336-345 | Under a fresh key a registered artifact is found again exactly when its schema version is the declared one |
| Router.RouteEvolves | loop_engine/router.py:333-610 | Later steps lose no resumable record, keep the ledger agreeing with the table, and only append to it |
| Router.RegisterFaithfulExactly | loop_engine/artifacts.py:239-250 | Registering keeps payload files faithful to their hashes exactly when it overwrites no record's file with other content |
| Router.ResumedPayloadMatchesHash | loop_engine/router.py:353-360 | Over faithful files a resumed step goes on with the payload its hash names, exactly when that payload can be read back |
| Router.GatedStepsNeverRun | loop_engine/router.py:363-412 | However an execution goes, it runs no step that requires human approval |
| Authorization.AuthorizationGate.EvaluateProposal | Forge/core/authorize.py:35-116 | Run alone, the evaluator is the uninterrupted run of the step machine |
| Authorization.ExecuteAction | Forge/core/execute.py:10-106 | Run alone, the executor is the uninterrupted run of the step machine; without a store it compares and acts |
| Authorization.StoreMakesTheDifference | Forge/core/execute.py:60-80 | Executing with a store and without one comes to the same exactly when the decision is denied, the hash differs, or the row is still AUTHORIZED |
| Authorization.SoloProposalExactly | Forge/core/authorize.py:44-116 | Alone, a proposal is denied for the first reason there is (capability, target, key), raises on a known id, or is authorised for exactly its operation with the store extended by just that |
| Authorization.SafeExactly | Forge/core/authorize.py:52-66 | A target is safe exactly when it starts with no slash or backslash, holds no colon or NUL, and nowhere has two dots between slashes |
| Authorization.StatelessLikeFresh | Forge/core/authorize.py:77-116 | Without a store a proposal is answered as with one that knows neither its key nor its id |
| Authorization.PartsSplit | Forge/core/authorize.py:56-66 | A target's parts hold no slash and joined by slashes give the target back |
| Authorization.SoloExecutionExactly | Forge/core/execute.py:24-106 | Alone, each rejection exactly for its reason; otherwise the row is spent and the answer is the adapter's |
| Authorization.ForgeStore.RecordAuthorization | Forge/core/store.py:268-284 | The insert fails on a known id or key |
| Authorization.ForgeStore.ConsumeAuthorization | Forge/core/store.py:293-303 | Exactly one AUTHORIZED row becomes CONSUMED, or nothing changes |
| AuthorizationProtocol.OneGrantPerKey | Forge/core/authorize.py:77-116 | In every interleaving, evaluators racing past the existence check included, an idempotency key gets at most one authorization |
| AuthorizationProtocol.BothPassTheCheck | Forge/core/store.py:207-224 | Two evaluators of one new transaction can both pass the existence checks and both record it: the insert of a transaction is an update when it is there |
| AuthorizationProtocol.SecondInsertRaises | Forge/core/store.py:268-284 | From there one is granted the key and the other raises |
| AuthorizationProtocol.OneRunPerKey | Forge/core/execute.py:40-91 | In every interleaving an idempotency key leads to at most one adapter execution |
| AuthorizationProtocol.NoUnsafeGrant | Forge/core/authorize.py:52-66 | In no run is an operation authorised whose target climbs, is absolute, or names a drive |
| AuthorizationProtocol.RunsAreAuthorized | Forge/core/execute.py:40-91 | Each execution acts on the compared operation, after its authorization was consumed, after it was granted |
| AuthorizationProtocol.GenuineRunsMatchTheStore | Forge/core/execute.py:40-58 | On a decision some evaluator gave out, the operation executed is the one the store recorded |
| AuthorizationProtocol.UnissuedDecisionRuns | Forge/core/execute.py:40-62 | A decision nobody issued, naming a real id runs another operation: the stored hash is never compared |
| AuthorizationProtocol.CrashStrands | Forge/core/execute.py:60-80 | A crash between consuming and acting strands the authorization |
| AuthorizationProtocol.StrandedForever | Forge/core/execute.py:60-80 | A stranded authorization is never executed, whatever follows |
| StrikeLoop.StepGovernor.RunStep | loop_engine/governor.py:183-323 | Every run ends: SUCCESS with attempts = strikes + 1 and one commit, ABORTED with attempts = strikes = ledger length = ceiling and none; adjacent verified candidates differ; and the whole course of states, attempt by attempt |
| StrikeLoop.GovernedIsSound | loop_engine/governor.py:191-323 | The same for any consistent state under way, with ledger entry k written by attempt and strike k + 1 and the committed candidate the last one verified |
| StrikeLoop.AttemptTakesItsCourse | loop_engine/governor.py:191-323 | One attempt: a strike for failed staging, repetition or refusal with its ledger entry; the end exactly by tampering, a raising verifier or commit, or a passed and committed candidate; injected failures override the verifier |
| StrikeLoop.StubbornWorkerIsVerifiedOnce | loop_engine/governor.py:231-245 | A worker repeating one failing candidate has it verified once and spends every other strike on the oscillation check |
| StrikeLoop.ReverifiedExactly | loop_engine/governor.py:231-245 | A candidate verified before reaches the verifier again exactly when another one has been verified since |
| StrikeLoop.HistoriesExactly | loop_engine/governor.py:191-323 | The candidates an aborted run may have had verified are exactly the sequences within the ceiling in which none directly follows itself |
| TokenBucket.TokenBucketRateLimiter.AllowRequest | loop_engine/governor.py:450-463 | The limiter refines the bucket function |
| TokenBucket.TokenBucketRateLimiter.GetAvailableTokens | loop_engine/governor.py:465-469 | A poll only refills |
| TokenBucket.TokensStayInRange | loop_engine/governor.py:441-463 | Tokens stay between zero and the capacity over any calls at any times |
| TokenBucket.WindowBound | loop_engine/governor.py:441-463 | After any calls, what a window of calls is granted is at most the capacity plus the refill rate times its length |
| TokenBucket.WindowBoundAtRate | loop_engine/governor.py:441-463 | The same for the limiter's own conversion of seconds into tokens |
| TokenBucket.GrantedExactly | loop_engine/governor.py:441-463 | After any ordered calls a request is refused exactly when granting it would overdraw some window or the initial tokens |
| TokenBucket.LevelExactly | loop_engine/governor.py:441-463 | The tokens on hand are the most that no window forbids |
| TokenBucket.PollsLeaveNoTrace | loop_engine/governor.py:465-469 | Polls inserted anywhere change no answer to any request |
| TokenBucket.PollsAnywhere | loop_engine/governor.py:465-469 | Two sequences of calls that differ in their polls alone get the same answers |
| TokenBucket.RefusalLeavesNoTrace | loop_engine/governor.py:458-463 | A refused request changes no later answer |
| Envelope.ContradictionIsInherited | loop_engine/epistemic.py:277-280 | Every transformed descendant of a CONTRADICTED envelope is CONTRADICTED and unresolved |
| Envelope.VerifiedReachesWitness | loop_engine/epistemic.py:291-305 | Every line of descent back from a VERIFIED envelope meets a valid witness for that payload before leaving VERIFIED |
| Envelope.BoundKeptExactly | loop_engine/epistemic.py:267-271 | A transformation keeps confidence at or below every parent's exactly when it has no witness argument or wishes for no more than the least confident parent has |
| Envelope.ConfidenceBoundedExactly | loop_engine/epistemic.py:267-271 | In the ancestry of any envelope confidence is bounded along every line exactly when every transformation in it is of that kind |
| Envelope.ConfidenceIsBounded | loop_engine/epistemic.py:267-271 | Along a line of such derivations confidence never exceeds that of any ancestor |
| Envelope.PhysicalHasNoSyntheticParent | loop_engine/epistemic.py:282-289 | A physical observation has no synthetic direct parent |
| Envelope.PhysicalReachableExactly | loop_engine/epistemic.py:282-289 | Some single transformation makes a physical observation of given parents exactly when there are parents and none is synthetic |
| Envelope.TwoStepsReachPhysical | loop_engine/epistemic.py:282-289 | Two transformations make one of any source that builds: the first forgets the origin |
| Envelope.InvalidWitnessLiftsConfidence | loop_engine/epistemic.py:267-271 | Whatever the parents, any witness argument lifts confidence to any value wished for while nothing is promoted |
| Envelope.CreatedIgnoresItsParents | loop_engine/epistemic.py:145-178 | Naming a contradicted parent in a creating constructor changes nothing, for the envelope or what is made of it |
| Envelope.CreateUnverified | loop_engine/epistemic.py:145-178 | The unverified constructor fails exactly for a privileged status or origin, and otherwise returns what it was given unchanged |
| Envelope.MintVerified | loop_engine/epistemic.py:210-236 | Minting succeeds exactly with a valid witness for the payload, as VERIFIED with the arguments unchanged |
| Envelope.TransformExactly | loop_engine/epistemic.py:239-315 | Payload, source, origin, status, disposition, confidence and parents of a transformed envelope, and each refusal, from parents and arguments |
| SceneBudget.AllPassExactlyFrom21 | loop_engine/herald/generator.py:28-58 | For every pacing of at least 80 words a minute every fitted script passes the timing audit (pacing that drags aside), exactly when the runtime is at least 21 seconds |
| SceneBudget.GeneratedTimingPasses | loop_engine/herald/validators.py:14-62 | From 21 seconds on, dialogue of at most two words over budget stays within the word ceiling of all three scenes, with no invalid, overlapping or mismatched window |
| SceneBudget.ShortRuntimesFail | loop_engine/herald/generator.py:35-40 | Up to 20 seconds the last scene fails at 80 words a minute |
| SceneBudget.WindowsFit | loop_engine/herald/generator.py:33-57 | Windows are positive, adjoin and end exactly at the target runtime |
| SceneBudget.FitDialogue | loop_engine/herald/generator.py:60-87 | The loop takes the longest run of whole sentences within two words of the target, then a stripped piece of the next if four words are left |
| SceneBudget.TruncatedIsClosed | loop_engine/herald/generator.py:74-84 | The piece of a sentence: its first words without trailing punctuation, closed with a full stop unless it ends a sentence |
| SceneBudget.FitIsWithinTwo | loop_engine/herald/generator.py:60-87 | Fitted dialogue is at most two words over target, except for the first raw sentence under a target of less than four |
| SceneBudget.AuditTiming | loop_engine/herald/validators.py:127-169 | The timing part of the audit: runtime, overlaps and pacing, row by row |
| SceneBudget.RowsReport | loop_engine/herald/validators.py:127-169 | Each violation is reported exactly under its condition on the row, the one before it, or the runtime |
| SchemaValidator.FallbackValidate | Forge/core/schema.py:45-151 | The validator terminates on any definitions, cyclic ones included, and accepts exactly as its specification says |
| SchemaValidator.AcceptsExactlyConforming | Forge/core/schema.py:45-151 | On the fragment (references only under properties and items, known names or not, value keywords on their own types) it accepts exactly what keyword-wise JSON Schema with resolved references accepts |
| SchemaValidator.OneTrue | Forge/core/schema.py:46-56 | A match counter of one means exactly one matching branch |
| SchemaValidator.AcceptsTooMuchExactly | Forge/core/schema.py:58-151 | Outside it, one level of a typed schema accepts what does not conform exactly when no keyword is read for the instance and one does not hold, or enum or const, unread for objects, arrays and integers, does not list it, or a string meets a const of null |
| SchemaValidator.RejectsTooMuchExactly | Forge/core/schema.py:134-138 | It rejects what conforms exactly for a float with an integral value under the type integer |
| SchemaValidator.NullPassesExactly | Forge/core/schema.py:61-78 | Where null is allowed it is always accepted, and conforms exactly when enum and const leave it over |
| SchemaValidator.NumbersPassExactly | Forge/core/schema.py:143-145 | Where numbers are allowed they are always accepted, and conform exactly when listed and within the bounds |
| SchemaValidator.BareReferencePasses | Forge/core/schema.py:45-60 | A reference met elsewhere is accepted unread; it conforms exactly when its definition does, and not at all for an unknown name |
| SchemaValidator.BranchReferencesExactly | Forge/core/schema.py:46-56 | With references as oneOf branches the two disagree exactly when one of those does not hold and the matches, with or without such references, number one |

## Left out

- SQLite, git, pytest, subprocesses, files and JSON text: tables are maps and sequences, the branch is one movable head, outcomes are parameters.
- Real SHA-256 and HMAC, witness signatures and timestamps, random ids (fresh numbers or parameters).
- The `promotion_wal` table, which is written and never read, and receipt identifiers other than integers.
- Promoter.PromotionCoordinator.ReconcileInterruptedPromotions: a failing `merge-base`, which the code takes for "not an ancestor", does not occur.
- PromotionProtocol.PromotedStaysOnBranch: takes proposals sealed below the promoted states (or already merged) and receipts of the sealed manifest, because the code checks neither.
- Pipeline.ForgeEngine.Run: the clause tokeniser, the adequacy evaluator, the candidate generator and the semantic verifier are parameters (requirements, one flag, interpretations with their verdict).
- Decomposition.EvaluateDecomposition: operators are a typed enumeration, so the ONTOLOGY_INSUFFICIENT status, for a value outside it, does not occur.
- Compiler.ExecutionGraphCompiler.ExecuteGraph: adapters are functions of what they are handed; one that changes the store it was handed, or counts its calls, is not modelled.
- Evidence.EvaluateClaim: the explanatory note of the verdict.
- Sufficiency.EvaluateSpecification: the proof digest and time stamps.
- Router.BoundedShadowRouter.ExecuteRoute: run-state and escalation rows, and how each artifact is assembled from runner files; the governed step is a parameter, and so is which payloads can be read back.
- Router.ResumeAgreesWithRun: idempotency keys are their eight fields; two environments whose joined texts coincide (`Artifacts.KeyTextsCollide`) are not told apart by the code.
- Authorization.AuthorizationGate.EvaluateProposal: contract validation of the proposal, and path rules of systems other than POSIX.
- StrikeLoop.StepGovernor.RunStep: staging directories, preflight and the task specification's text; error compaction is a parameter.
- TokenBucket.WindowBound: exact reals, no floating-point rounding; the lock is what makes one call one step.
- TokenBucket.TokensStayInRange: time is measured in tokens (seconds times the rate); `TokenBucket.InTokensConverts` connects the two.
- SceneBudget.GeneratedTimingPasses: budgets adjusted by feedback, linguistics and cinematography checks.
- SchemaValidator.AcceptsExactlyConforming: takes instances without integral floating-point numbers (`SchemaValidator.RejectsTooMuchExactly`) and integer bounds; enum and const compare values as written, so 1 and 1.0 differ; the jsonschema library itself is not modelled.
- `RetryGovernor`, `GovernorEngine`, capability lifecycle promotion, objective versioning, keyword routing, media code, command lines and hooks: they would only add easy members.
