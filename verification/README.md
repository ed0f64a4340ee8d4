# Verified model of agintor's evidence core

agintor evaluates agent runtimes and keeps digest-bound evidence of what it evaluated. This project
models, in Dafny, the parts whose correctness the rest of that evidence rests on, and proves what
they promise for all inputs, all executors and all runs.

* **Canonical identity.** Every digest is taken over a recursive, type-tagged, length-framed
  encoding of a value. `Identity` is the encoder, `Scalars` its numerals, doubles and UTF-8;
  `IdentityExactness` proves that equal bytes mean the same value and back, and `IdentityDecoder` reads
  every encoding back. `ObjectGraph` is the
  encoder that really runs, over shared mutable objects with one active set; `CycleDetection` relates
  it to the trees the graph unfolds to, and `CycleErrors` says exactly when it reports a cycle.
* **Isotonic fit.** `Isotonic` is pool-adjacent-violators by in-place splicing, proved to be the
  unique least-squares fit, and the prediction read from it.
* **Execution plans.** `ExecutionPlan` is the plan validator as a class with its visiting, visited
  and reachable sets, proved equivalent to the definitions of cycle, reachability, branch group,
  merge and producer.
* **Gate 0.** `Gate0Plan` is the preregistered manifest and its builder. `Gate0Run` specifies the
  conformance check, a run against an arbitrary executor, its report, the files it leaves and their
  replay. `Gate0Safety`, `Gate0Results`, `Gate0Replay` and `Gate0Liveness` are the theorems over all
  runs. `Gate0Conformance` says which built manifests conform, `Gate0Executors` is an executor that
  gives each of them what it asks for, `Gate0Ties` says which make every run replay, `Gate0TiedPanel`
  is one that does not, and `Gate0Shares` says what an executed responder proves of its producer.
  `Gate0Execution` is the loop with its dictionaries, proved against the specification.
  `Gate0Analysis` and `Gate0Effect` are the clustered analysis. `EvidenceFiles` is the folder of named
  files that are never overwritten and are read back in name order.
* **Workflow challenges.** `WorkflowGenerator` draws a workflow, `Workflow` interprets it and prints
  it as expressions, `Expressions` lexes, parses and evaluates such texts as Python does,
  `WorkflowMeaning` proves the printed text means the step, and `WorkflowExactness` that double
  arithmetic never rounds on any generated workflow.
* **Patches.** `Patches` is the search/replace printer, the non-greedy scanner, and application.
* **Run evidence.** `RunEvidence` states the artifact flow declaratively, `RunEvidenceCheck` is the
  validator's loops, `Interventions` builds and joins matched neutral runs, and `JoinedPairs` says
  when two runs join and when joined runs agree.
* **Runtime specs.** `RuntimeSpec` is the document, its validity and its digest; `SpecActions` the
  rewrite actions; `SpecLineage` the digest chain; `SpecRemovals` what removals can and cannot break;
  `FieldOrder` shows that the order of a document's fields never reaches its digest.
* **D0 baseline.** `D0Run` is the second run protocol with its report, reconciliation, public proof
  and replay, `D0Results` its invariants, `D0Endings` when a run finishes, publishes and returns, and
  `Budget` its search projection.
* **Batching.** `Batching` groups tasks into evaluation units and cuts the units into batches.

`Wrappers`, `Collections` and `Sorting` are shared vocabulary: results, distinctness, sums, and a
stable sort with its characterisation.

A SHA-256 digest is modelled by what it digests, so equal digests mean equal inputs; nothing else is
assumed about it. Executors, random streams, priced-input measures and standard errors are arbitrary
functions. Where the source changes state step by step, a method does too, and its contract ties the
result to a function whose properties are proved separately.

## Where the code falls short of a plain statement

Each of these is a plain property one would expect, that the code does not have in full. The model
follows the code; the lemmas named give the failing case and the exact condition.

* A reachable cycle always makes encoding fail (`CycleDetection.CycleVerdict`), but not always with
  the cyclic error: an unencodable atom met earlier raises its own (`CycleErrors.AtomBeforeTheCycle`).
  The cyclic error is raised if and only if a walk in encoding order closes a cycle before it meets
  anything that does not encode (`CycleErrors.CyclicErrorExactly`).
* A Gate 0 run does not always replay. Arm files are named by randomization rank and then by a
  hash tag, and replay compares them in name order with the order of production; the schedule breaks
  rank ties by sample label instead. A conforming built manifest makes every run replay if and only if
  wherever ranks tie the tags ascend along the schedule (`Gate0Ties.AllRunsReplayExactly`), which can
  be checked before any run; distinct ranks suffice. `Gate0TiedPanel.TiedPanelIsUnsafe` is a conforming
  manifest over a valid panel of thirty-two items, with tied ranks and different sixteen-digit tags, and
  an executor whose faultless, finished run its own replay refuses.
* An executed neutral responder does not show that its producer emitted the planned share. On a
  conforming built manifest some run executes it after any given text exactly when the text encodes, has
  the share's length and is not all `N` (`Gate0Shares.AnswerableExactly`, which has the other arms too).
* Parsing a built patch returns its block only when the search holds no divider, also not one closed
  by the divider's own newline, and the replacement no footer (`Patches.ParsesBackExactly`). Headers
  inside a block do no harm.
* Applying a reversed block restores the source only when the replacement is unique in the result
  (`Patches.UndoRestoresExactly`).
* A score equal to a block's end point is not always predicted that block's value: with tied scores
  the first of the tied blocks answers (`Isotonic.PredictAtBlockEnd`).
* `remove_node` passes its precheck and then fails exactly when it removes the entry node
  (`SpecRemovals.RemoveNodeExactly`).
* The documentation of the join says that the two arms differ only through the bound delivery. The
  code compares envelopes and the bound delivery, and wants a provider call (`JoinedPairs.JoinsExactly`);
  it does not compare what else the arms produced and read. Joined runs agree outside the bound delivery if and only if their artifact tables
  list the same consumers with the same values there (`JoinedPairs.AgreeOutsideExactly`);
  `JoinedPairs.JoinedPair` is a pair of accepted runs that joins and agrees only when its second
  artifacts do.
* A D0 run in which every call succeeds can still raise instead of returning: when the schedule is not
  the frozen replicate count, its receipts disagree about configuration or environment, its repairs
  are all complete or all incomplete, or its model calls are not as many as its requests
  (`D0Endings.ReturnsExactly`). `D0Endings.OneCallFinishesAndRaises` is such a run.

Unreachable branches, proved so: the verify-producer check of a plan, the missing-arm exit of a
Gate 0 run, and its arm reconciliation exit.

## Model

| member | source | states |
|---|---|---|
| `IdentityExactness.PrefixFree` | agintor/core/identity.py:16-18 | no encoding is a proper prefix of another: if two encodings followed by any bytes agree, the encodings and the remainders agree |
| `IdentityExactness.BytesAreExact` | agintor/core/identity.py:125-127 | for an encodable value, another value has the same canonical bytes if and only if it is the same value: lists and tuples in order, sets and maps as multisets, one NaN, 1 and 1.0 and True apart, models and dataclasses known by their dumps |
| `IdentityExactness.EqualBytesSameValue` | agintor/core/identity.py:43-117 | decoding direction: equal encodings come from the same value, whatever its nesting |
| `IdentityExactness.SameValueEqualBytes` | agintor/core/identity.py:43-117 | encoding direction: the same value always encodes to the same bytes, and fails whenever the other does |
| `IdentityExactness.MapOrderIsForgotten` | agintor/core/identity.py:87-98 | permuting the insertion order of a mapping never changes its bytes |
| `IdentityExactness.SetOrderIsForgotten` | agintor/core/identity.py:104-117 | permuting the iteration order of a set or a frozen set never changes its bytes |
| `IdentityExactness.EqualMaps` | agintor/core/identity.py:87-98 | equal sorted map payloads pair the entries one to one, each pair with equal key bytes and equal item bytes |
| `IdentityExactness.DigestInputsAreExact` | agintor/core/identity.py:130-138 | the bytes handed to SHA-256 agree if and only if the stripped domains agree and the values are the same |
| `IdentityExactness.DigestInputIsNotBytes` | agintor/core/identity.py:125-138 | no digest input is ever the canonical bytes of a value: domain separation |
| `IdentityDecoder.DecodeInvertsEncode` | agintor/core/identity.py:43-127 | an explicit decoder reads the canonical bytes of every encodable value back to the same value |
| `IdentityDecoder.EncodingsExactly` | agintor/core/identity.py:43-122 | bytes are the encoding of some value if and only if the decoder reads them to a value that encodes to them |
| `Scalars.HexTextExact` | agintor/core/identity.py:60-65 | two doubles have the same hex text if and only if they are the same double, zeros of either sign apart, or both not a number |
| `ObjectGraph.Encoder.Run` | agintor/core/identity.py:43-122 | over any finite object graph the run terminates, computes what the specification says, and restores the active set on normal and exceptional exit alike |
| `ObjectGraph.Encoder.RunCell` | agintor/core/identity.py:32-40 | the shared active set is unchanged after a container is encoded, whether or not a member raised |
| `CycleDetection.RunsLikeItsTree` | agintor/core/identity.py:32-40 | encoding a graph that unfolds to a tree gives exactly the outcome of encoding the tree, from any active set of strictly enclosing objects: sharing is free |
| `CycleDetection.AcyclicMeansTree` | agintor/core/identity.py:87-117 | a reference from which no cycle is reachable unfolds to a finite tree, whatever it shares |
| `CycleDetection.UnfoldingMeansAcyclic` | agintor/core/identity.py:32-40 | a reference that unfolds to a tree reaches no cycle |
| `CycleDetection.CycleVerdict` | agintor/core/identity.py:32-40 | with a reachable cycle every run fails; the cyclic error is raised only with one; without one the outcome is that of the unfolded tree |
| `CycleErrors.CyclicErrorExactly` | agintor/core/identity.py:43-122 | over any closed graph the cyclic error is raised if and only if a walk in encoding order re-enters an object it is inside of, everything met before each of its steps unfolding to a tree that encodes |
| `CycleErrors.ClosedCycleIsReachable` | agintor/core/identity.py:32-40 | such a walk is a cycle reachable from the encoded reference |
| `CycleErrors.AtomBeforeTheCycle` | agintor/core/identity.py:119-122 | a graph with a reachable cycle that is not reported: for any atom at all, a list holding it and then itself raises the cyclic error if and only if the atom encodes, and the atom's own error otherwise |
| `Isotonic.Fit` | agintor/utils.py:172-192 | terminates; its blocks partition the points sorted by score; each point pair is a block's last score and mean label; both lists are nondecreasing; and no nondecreasing fit has a smaller squared error |
| `Isotonic.PoolStep` | agintor/utils.py:181-186 | splicing two violating blocks into one keeps every block the mean of its points with no prefix averaging below it, and keeps the points and their order |
| `Isotonic.LeastSquares` | agintor/utils.py:172-192 | any nondecreasing candidate is at least as far from the labels as the fit, by its squared distance from the fit |
| `Isotonic.BestFitIsUnique` | agintor/utils.py:172-192 | a nondecreasing candidate with the same squared error is the fit itself |
| `Isotonic.SortedPointsAreSorted` | agintor/utils.py:173 | the points fitted are a sorted permutation of the given pairs |
| `Isotonic.IsotonicPredict` | agintor/utils.py:195-202 | the early-return scan computes the prediction over lists of any two lengths, clipping the score when there are no points; it fails if and only if there are points and no values |
| `Isotonic.PredictMonotone` | agintor/utils.py:195-202 | over nondecreasing values the prediction is monotone in the score, whatever the lengths of the lists |
| `Isotonic.PredictAtBlockEnd` | agintor/utils.py:195-202 | at a block's own end point the prediction never exceeds the block's value, and equals it if and only if no earlier block ends at the same score with another value |
| `ExecutionPlan.Validator.Validate` | agintor/contracts/execution.py:533-632 | a plan is accepted if and only if it satisfies every graph-theoretic rule; it is refused as cyclic if and only if its references are sound and its dependency graph has a cycle; the verify-producer branch is unreachable |
| `ExecutionPlan.Validator.Visit` | agintor/contracts/execution.py:574-583 | the recursive visit either extends the finishing order topologically, with everything below it, or exhibits a cycle; the visiting set is restored |
| `ExecutionPlan.Validator.CheckAcyclic` | agintor/contracts/execution.py:571-586 | the depth-first search succeeds if and only if no node depends on itself through any walk, and then leaves a topological order of all nodes |
| `ExecutionPlan.Validator.Mark` | agintor/contracts/execution.py:590-596 | everything newly marked leads back to the marked node, and everything depending on it is marked too |
| `ExecutionPlan.Validator.MarkRoots` | agintor/contracts/execution.py:588-599 | the marked nodes are exactly those reachable from the roots along dependency edges |
| `ExecutionPlan.Validator.CheckNodes` | agintor/contracts/execution.py:555-569 | accepts if and only if each node meets the rule of its kind, tool-like and patch nodes included, and names the kind of violation otherwise |
| `ExecutionPlan.Validator.CollectOutputs` | agintor/contracts/execution.py:601-610 | accepts if and only if no two marked value-producing nodes share an output key, and then indexes exactly those producers |
| `ExecutionPlan.Validator.CheckOutputs` | agintor/contracts/execution.py:601-618 | accepts if and only if reachable producers have distinct keys and every terminal key has one |
| `ExecutionPlan.Validator.CheckTerminalKeys` | agintor/contracts/execution.py:611-618 | accepts if and only if every terminal key is produced; the verify check never fires |
| `ExecutionPlan.Validator.CheckGroups` | agintor/contracts/execution.py:620-629 | accepts if and only if any two members of one branch group list the same dependencies in the same order |
| `ExecutionPlan.TopologicalMeansAcyclic` | agintor/contracts/execution.py:571-586 | a topological order of all nodes rules out every cycle |
| `ExecutionPlan.EqualDependenciesIndependent` | agintor/contracts/execution.py:620-629 | in an acyclic graph two nodes with equal dependencies never depend on each other, at any distance |
| `ExecutionPlan.BranchMembersAreIndependent` | agintor/contracts/execution.py:620-629 | in an accepted plan no member of a branch group depends, even transitively, on another member or on itself |
| `ExecutionPlan.MergeConsumesItsGroup` | agintor/contracts/execution.py:419-432 | in an accepted plan a merge node depends on a node if and only if that node is a member of the group it consumes |
| `ExecutionPlan.TerminalKeyHasOneProducer` | agintor/contracts/execution.py:601-618 | in an accepted plan every terminal key has exactly one reachable value-producing producer, and it is not a verify node |
| `Gate0Plan.ScheduleIsPlanned` | agintor/evaluation/gate0.py:449-484 | a valid manifest's schedule names distinct calls, two per arm, each of a planned arm |
| `Gate0Plan.CallIdsDistinct` | agintor/evaluation/gate0.py:472-474 | distinct sample identities give distinct call identities |
| `Gate0Plan.NeutralText` | agintor/evaluation/gate0.py:118-125 | the neutral text has the original's length and always differs from it |
| `Gate0Plan.BuiltManifestIsValid` | agintor/evaluation/gate0.py:934-1000 | for any panel of distinct items the builder's manifest passes its own validation |
| `Gate0Plan.BuiltProducersComeFirst` | agintor/evaluation/gate0.py:977-985 | in a built schedule every responder call directly follows its own producer call |
| `Gate0Plan.BuiltScheduleFollowsRanks` | agintor/evaluation/gate0.py:977-985 | with pairwise distinct randomization ranks the responders of a built schedule come in rising rank order |
| `Gate0Plan.PricedUnitsAreBytes` | agintor/evaluation/gate0.py:89-99 | the priced units of a request are the bytes of its canonical JSON, the delivered text escaped in its place |
| `Gate0Conformance.BuiltConformsExactly` | agintor/evaluation/gate0.py:1059-1167 | a built manifest passes the conformance check if and only if no request spells out its item's expected answer and every share is written in JSON as it is, without escapes or multi-byte characters |
| `Gate0Analysis.Collect` | agintor/evaluation/gate0.py:1180-1207 | collecting succeeds if and only if the observations are of one source, planned, distinct, bound to the manifest and complete; then it is their index |
| `Gate0Analysis.TallyArms` | agintor/evaluation/gate0.py:1209-1224 | the loop over arms counts each arm's members, invalid answers and successes in the frozen arm order |
| `Gate0Analysis.DiffClusters` | agintor/evaluation/gate0.py:1228-1241 | the loop over items computes each cluster's difference from the indexed observations |
| `Gate0Analysis.AnalyzeObservations` | agintor/evaluation/gate0.py:1175-1325 | collecting, tallying and differencing in loops returns a report exactly when the observations are acceptable, and then the specified one |
| `Gate0Analysis.AcceptsExactlyBijections` | agintor/evaluation/gate0.py:1180-1207 | one-source, manifest-bound observations are accepted if and only if they are in bijection with the planned arms |
| `Gate0Effect.AcceptedKeysAreTheGrid` | agintor/evaluation/gate0.py:457-471 | accepted observations are exactly one per item, replicate and arm |
| `Gate0Effect.AcceptedArmTotals` | agintor/evaluation/gate0.py:1209-1224 | each arm's totals are four per item, and its successes are the per-item successes added up |
| `Gate0Effect.EffectIsClusterMean` | agintor/evaluation/gate0.py:1228-1241 | the intact-minus-neutral rate difference equals the mean of the per-item cluster differences |
| `Gate0Effect.AnalysisIgnoresOrder` | agintor/evaluation/gate0.py:1175-1325 | permuting the observations never changes the analysis, its failure included |
| `Gate0Safety.StepIsSound` | agintor/evaluation/gate0_runner.py:569-739 | one step of the schedule, through any of its failure exits, keeps the run invariant: recorded calls follow the plan, all but a failing last one passed review, arms are exactly those of the passed responders |
| `Gate0Safety.RunIsSound` | agintor/evaluation/gate0_runner.py:543-740 | for every executor the run ends within that invariant, and a run without failure has made every scheduled call |
| `Gate0Safety.SameIdentityMeansPlanned` | agintor/evaluation/gate0_runner.py:803-822 | if substituting the producer's text leaves request identity and price unchanged, it left the whole call unchanged |
| `Gate0Safety.ArmTotalsReconcile` | agintor/evaluation/gate0_runner.py:714-737 | once both calls of an arm passed review their priced units always add up to the planned arm total, so the reconciliation exit is unreachable |
| `Gate0Safety.RecordIsSound` | agintor/evaluation/gate0_runner.py:636-739 | recording an observation keeps the invariant, and fails if and only if the review objects |
| `Gate0Results.CallsFollowTheSchedule` | agintor/evaluation/gate0_runner.py:569-635 | for every executor the observed calls are a prefix of the schedule, each executed exactly as preregistered and holding what supervision made of the executor's answer |
| `Gate0Results.OnlyTheLastCallFails` | agintor/evaluation/gate0_runner.py:569-739 | a failure names the last attempted call of the schedule; every call before it passed review |
| `Gate0Results.ResponderSawItsProducer` | agintor/evaluation/gate0_runner.py:577-600 | an executed responder call follows its own producer call; intact and private-A arms carry that producer's text, the neutral arm its neutral text |
| `Gate0Results.BuiltRunForcesTheShare` | agintor/evaluation/gate0_runner.py:588-600 | on a built manifest an executed intact or private-A responder proves its producer emitted exactly the planned share; an executed neutral responder proves only the share's length, and not all N |
| `Gate0Results.SameNeutralText` | agintor/evaluation/gate0.py:118-125 | two texts have the same neutral replacement if and only if they agree in length and neither is all N, the share not being all N |
| `Gate0Results.FinishedRunCoversThePanel` | agintor/evaluation/gate0_runner.py:741-756 | a run without failure yields one faithful arm observation per planned arm, and they are acceptable to the analysis |
| `Gate0Results.FinishedRunAddsUp` | agintor/evaluation/gate0_runner.py:714-737 | in a run without failure the priced units of the calls, over the permuted schedule, sum to the manifest total |
| `Gate0Results.EveryArmIsProduced` | agintor/evaluation/gate0_runner.py:741-751 | the exit for a finished schedule that lacks an arm observation is unreachable |
| `Gate0Replay.ReportFacts` | agintor/evaluation/gate0_runner.py:741-800 | the report built from any runnable run passes its own validation, and is complete exactly when the run did not fail |
| `Gate0Replay.ReplayAcceptsExactly` | agintor/evaluation/gate0_runner.py:399-466 | for every executor a run ends with its own report replayed from its files if and only if the arm file names ascend in the order the arms were produced; otherwise replay reports differing arms, or the run raised because an arm's file name was taken |
| `Gate0Replay.EveryRunReplays` | agintor/evaluation/gate0_runner.py:399-466 | when ranks rise along the schedule and fit twenty digits, every run replays to its own report |
| `Gate0Replay.EveryBuiltRunReplays` | agintor/evaluation/gate0_runner.py:469-540 | on a conforming manifest from the builder with pairwise distinct ranks every run, failed or finished, replays to its own report |
| `Gate0Replay.IdsRepeatOnlyWhenRecorded` | agintor/evaluation/gate0_runner.py:440-446 | persisted response ids repeat only when the report records the duplicate as its failure |
| `Gate0Liveness.CooperativeRunFinishes` | agintor/evaluation/gate0_runner.py:569-740 | an executor that answers every call in time, in budget, with fresh ids and the planned artifacts always finishes the schedule |
| `Gate0Liveness.BuiltProducersFirst` | agintor/evaluation/gate0.py:977-985 | every built manifest schedules producers before their responders |
| `Gate0Ties.AllRunsReplayExactly` | agintor/evaluation/gate0_runner.py:399-540 | for a buildable panel and tags of one length: every run that may start on its manifest, whatever the executor, replays to its own report if and only if, should the manifest conform at all, the tags ascend along the schedule wherever two scheduled samples tie in rank |
| `Gate0Ties.UnsafeManifestIsRefused` | agintor/evaluation/gate0_runner.py:399-540 | on any other conforming manifest a run of a willing executor finishes its schedule without fault and does not return: its own replay refuses it when no two samples share a tag, and otherwise may find an arm's file name taken |
| `Gate0TiedPanel.TiedPanelIsUnsafe` | agintor/evaluation/gate0_runner.py:960-966 | such a manifest exists: a valid panel of thirty-two items over the four templates, however its requests are written as long as they spell out no answer, with tied ranks and pairwise different sixteen-digit tags; it conforms, and a finished run of it is refused by its own replay |
| `Gate0TiedPanel.PlainFramesConform` | agintor/evaluation/gate0.py:1099-1110 | plainly written requests spell out none of that panel's answers |
| `Gate0TiedPanel.TagsDiffer` | agintor/evaluation/gate0_runner.py:960-966 | no two samples of that panel share a tag |
| `Gate0Executors.WillingFinishes` | agintor/evaluation/gate0_runner.py:543-740 | every conforming built manifest has an executor that answers each of its calls within budget and time, its producers saying their shares or any texts that pass, so that the run finishes |
| `Gate0Shares.AnswerableExactly` | agintor/evaluation/gate0_runner.py:577-600 | on a conforming built manifest some run executes a sample's responder after its producer emitted a given text if and only if the text passes: the planned share in the intact and private-A arms, any encodable text of the share's length that is not all N in the neutral arm, any non-empty encodable text where nothing is delivered |
| `Gate0Ties.RisingNamesReplay` | agintor/evaluation/gate0_runner.py:411-466 | when the arm file names rise along the scheduled responders every runnable run, failed or finished, replays |
| `Gate0Ties.NamesRiseExactly` | agintor/evaluation/gate0_runner.py:960-966 | the file names of a built manifest rise along its schedule if and only if its tied tags do |
| `Gate0Execution.ExecuteSchedule` | agintor/evaluation/gate0_runner.py:543-740 | the loop with its artifact dictionary, observation index and response-id set computes the specified log and writes exactly its evidence files, and raises if and only if an arm's file name is taken; a call's never is |
| `Gate0Execution.TakeTurn` | agintor/evaluation/gate0_runner.py:569-740 | one loop body advances the run by one specified step, exits included |
| `Gate0Execution.MakeCall` | agintor/evaluation/gate0_runner.py:569-635 | the call and its early exits agree with the specified step |
| `Gate0Execution.Review` | agintor/evaluation/gate0_runner.py:639-681 | accepts a result if and only if its response id is fresh, it came in time, the provider did not fail, its accounting reconciles and it emitted what its actor owes; each refusal code says which of these failed first |
| `Gate0Execution.SettleArm` | agintor/evaluation/gate0_runner.py:682-739 | settling an arm appends the specified observation or fails as specified |
| `Gate0Execution.BooksGrow` | agintor/evaluation/gate0_runner.py:563-567 | the running dictionaries stay the indexes of the recorded calls as one more is recorded |
| `Gate0Execution.ReplayEvidence` | agintor/evaluation/gate0_runner.py:399-466 | the looped replay gives the specified verdict on any evidence, tampered or not |
| `Gate0Execution.CheckOrder` | agintor/evaluation/gate0_runner.py:426-429 | finds exactly whether the persisted calls are contiguous and a prefix of the schedule |
| `Gate0Execution.CheckCalls` | agintor/evaluation/gate0_runner.py:430-437 | accepts if and only if every persisted call is the frozen one with its own result; otherwise names the identity crossed by the first call that is not, all before it being so |
| `Gate0Execution.CollectResponseIds` | agintor/evaluation/gate0_runner.py:438-446 | collects the response ids in order and finds whether any repeats |
| `EvidenceFiles.WrittenExactly` | agintor/evaluation/gate0.py:1328-1353 | contents can be written one file each if and only if no two share a name |
| `EvidenceFiles.ReadsBackExactly` | agintor/evaluation/gate0_runner.py:411-420 | contents are written and, read in name order, come back unchanged if and only if their names strictly ascend |
| `EvidenceFiles.NumberedNamesAscend` | agintor/evaluation/gate0_runner.py:955-966 | zero-padded numbers that fit their width order the file names, whatever tags follow |
| `EvidenceFiles.NumberedNamesDiffer` | agintor/evaluation/gate0_runner.py:955-966 | names with different numbers or tags differ, whatever the width |
| `EvidenceFiles.PaddedDigits` | agintor/evaluation/gate0_runner.py:955-966 | a number that fits prints, padded, as exactly its positional digits |
| `Expressions.ParseWholeExpr` | agintor/evaluation/challenge_generators.py:78-92 | parsing the tokens of a proper expression gives back that expression, with Python's precedence and left association |
| `Expressions.LexSpelling` | agintor/evaluation/challenge_generators.py:78-92 | lexing a properly spaced spelling gives back its tokens |
| `Expressions.SpelledExpression` | agintor/evaluation/challenge_generators.py:78-92 | evaluating a spelled expression text evaluates its syntax tree |
| `Workflow.SmallNumbersAreExact` | agintor/evaluation/challenge_generators.py:32-34 | below 2^53 in magnitude, normalising through a double changes no integer |
| `Workflow.LargeNumbersAreNot` | agintor/evaluation/challenge_generators.py:32-34 | the bound is tight: 2^53 + 1 is changed |
| `Workflow.Interpret` | agintor/evaluation/challenge_generators.py:165-167 | the interpreting loop computes the specified value map, or fails where a dependency is missing |
| `Workflow.StepsToOperations` | agintor/evaluation/challenge_generators.py:95-111 | one operation per step, printed under the complete key map, only the last visible, failing exactly on an unknown dependency |
| `WorkflowMeaning.StepShows` | agintor/evaluation/challenge_generators.py:53-92 | the printed text of each kind of step spells the expression it should, for any number of sources |
| `WorkflowMeaning.PrintedStepMeans` | agintor/evaluation/challenge_generators.py:48-92 | evaluating a printed step over its args and its dependencies' output keys gives the step's exact value, failures included |
| `WorkflowMeaning.PrintedWorkflowMeans` | agintor/evaluation/challenge_generators.py:60-111 | running the printed operations in order gives the exact value of every step of any compiled workflow |
| `WorkflowGenerator.Rng.Between` | agintor/evaluation/challenge_generators.py:41-45 | a draw lies in its range and advances the stream by one |
| `WorkflowGenerator.Rng.Choice` | agintor/evaluation/challenge_generators.py:133 | a choice is one of the options |
| `WorkflowGenerator.Rng.Shuffle` | agintor/evaluation/challenge_generators.py:127 | a shuffle permutes |
| `WorkflowGenerator.ChosenDependencies` | agintor/evaluation/challenge_generators.py:124-128 | whatever the shuffle, the chosen dependencies are distinct earlier steps, min(width, index) of them, the predecessor first |
| `WorkflowGenerator.ChooseDependencies` | agintor/evaluation/challenge_generators.py:124-128 | the drawn dependencies meet that description |
| `WorkflowGenerator.BuildSteps` | agintor/evaluation/challenge_generators.py:114-151 | every generated workflow has its count of steps, distinct ids and keys, operations within their ranges, and such dependencies |
| `WorkflowExactness.GeneratedStepIsExact` | agintor/evaluation/challenge_generators.py:60-75 | at every generated step the value, the dependency sum and the product stay below 2^53 in magnitude, so interpreting is exact arithmetic |
| `WorkflowExactness.GeneratedValues` | agintor/evaluation/challenge_generators.py:60-75 | every generated workflow interprets without failure, within the bounds, to its exact values |
| `WorkflowExactness.PublicWorkflowMeansPrivate` | agintor/evaluation/challenge_generators.py:165-169 | for every generated workflow the printed expressions give the interpreter's value at every step |
| `WorkflowExactness.MakeChallenge` | agintor/evaluation/challenge_generators.py:154-169 | the private expected answer is what the public workflow's last expression evaluates to |
| `WorkflowExactness.EveryStepFeedsTheLast` | agintor/evaluation/challenge_generators.py:114-151 | from every generated step a dependency path leads to the terminal step |
| `Patches.UniqueSearchMatch` | agintor/utils.py:269-276 | the position is returned if and only if the needle occurs exactly once, overlaps counted; none and many are told apart exactly |
| `Patches.ScanIsTheFirstMatch` | agintor/core/patches.py:12-15 | the scanner finds what the non-greedy pattern does: the leftmost match, shortest search, then shortest replacement; none when nothing matches |
| `Patches.ParsesBackExactly` | agintor/core/patches.py:25-29 | a document of built patches with header-free text between them parses back to exactly its blocks if and only if every block is clean |
| `Patches.ParseFailsExactly` | agintor/core/patches.py:25-29 | parsing fails if and only if no block matches anywhere |
| `Patches.UndoRestoresExactly` | agintor/core/patches.py:33-43 | after a block is applied its reverse restores the source if and only if the replacement occurs exactly once in the result |
| `Patches.PatchUndoRestoresExactly` | agintor/core/patches.py:33-55 | the same through patch texts, for blocks that survive printing and parsing |
| `Patches.UndoAllRestores` | agintor/core/patches.py:33-43 | a whole undoable block list is restored by its reversed blocks in reverse order |
| `Patches.ApplyPatchToText` | agintor/core/patches.py:33-43 | the loop applies the parsed blocks in order and stops at the first that is absent or ambiguous |
| `RunEvidence.ReadIsProducedOrReplaced` | agintor/contracts/run_evidence.py:905-951 | in accepted evidence every read's value stands in the context entry it names and is the producer's, unless it directly reads a replaced delivery |
| `RunEvidence.IntactReadsAreProduced` | agintor/contracts/run_evidence.py:871-972 | in an intact run every read carries its producer's value |
| `RunEvidence.NeutralRunHasOneException` | agintor/contracts/run_evidence.py:871-972 | a neutral run has exactly one replaced delivery, read at least once and only directly, with a value its producer did not record; all other reads carry theirs |
| `RunEvidenceCheck.ValidateArtifactFlow` | agintor/contracts/run_evidence.py:871-972 | the validator's loops accept if and only if the declarative flow holds |
| `RunEvidenceCheck.CheckDeliveries` | agintor/contracts/run_evidence.py:875-904 | accepts if and only if every delivery flows from its artifact, none repeats a consumer, and replacements match the arm; then indexes them |
| `RunEvidenceCheck.CheckReads` | agintor/contracts/run_evidence.py:905-951 | accepts if and only if every read is justified; then knows exactly which keys were read, and which directly |
| `RunEvidenceCheck.SortedTexts` | agintor/contracts/run_evidence.py:954-963 | the consumers read are listed without repetition in ascending order |
| `RunEvidenceCheck.CheckConsumers` | agintor/contracts/run_evidence.py:954-963 | accepts if and only if each artifact's recorded, ascending consumers are exactly the calls that read it |
| `RunEvidenceCheck.CheckConsequences` | agintor/contracts/run_evidence.py:952-972 | accepts if and only if deliveries, recorded consumers and context entries all agree with the reads |
| `Interventions.NeutralTextMatches` | agintor/evaluation/interventions.py:106-119 | the length-matched neutral exists if and only if the text is not empty and encodes; it differs and has the same JSON byte length |
| `Interventions.BuildsExactly` | agintor/evaluation/interventions.py:122-207 | from accepted intact evidence an intervention is built if and only if the artifact is a delivered text and the neutral is public, encodes, and matches it in serialized length and non-negative priced units |
| `Interventions.BuiltInterventionIsMatched` | agintor/evaluation/interventions.py:122-207 | a built intervention binds the producer's own value to a different one of equal length and price |
| `Interventions.JoinedNeutralRunDiffersOnlyThere` | agintor/evaluation/interventions.py:210-333 | in a joined pair every read of the neutral run carries its producer's value except those of the bound artifact by the bound consumer, which directly read the bound neutral value, at least once |
| `Interventions.JoinedIntactRunIsProduced` | agintor/evaluation/interventions.py:210-333 | in a joined pair every read of the intact run carries its producer's value |
| `Interventions.JoinIgnoresUnreadArtifacts` | agintor/evaluation/interventions.py:210-333 | any further unread artifact in the neutral run is accepted and still joins |
| `JoinedPairs.JoinsExactly` | agintor/evaluation/interventions.py:210-352 | an accepted neutral run joins if and only if the two envelopes agree and hold a provider call, and it hands the bound neutral value over at the bound delivery; the read of it and the delivery's own digest then follow |
| `JoinedPairs.AgreeOutsideExactly` | agintor/evaluation/interventions.py:210-333 | two joined accepted runs read the same values everywhere but at the bound delivery if and only if their artifact tables list the same consumers there with the same values |
| `JoinedPairs.JoinedPair` | agintor/evaluation/interventions.py:210-352 | on any deployment, two accepted runs with two sent provider calls and an intervention the builder binds, which join whatever text a second artifact holds in each; they agree outside the bound delivery if and only if it holds the same |
| `RuntimeSpec.DigestIgnoresFillIns` | agintor/contracts/runtime_spec.py:60-70 | filling digests, times or metadata into the history never changes the spec digest |
| `RuntimeSpec.RefPayload` | agintor/contracts/runtime_spec.py:24 | a history entry contributes only its action id and type to the digest |
| `RuntimeSpec.DigestShowsHistoryLength` | agintor/contracts/runtime_spec.py:60-70 | specs with equal digests have histories of equal length |
| `FieldOrder.FieldOrderIsForgotten` | agintor/contracts/runtime_spec.py:60-70 | rearranging the fields of a document never changes its digest payload |
| `SpecActions.ReplaceById` | agintor/contracts/spec_actions.py:97-109 | replacing by id keeps every other item in its place, puts the value in, and keeps ids unique |
| `SpecActions.ReplaceByIdLoop` | agintor/contracts/spec_actions.py:97-109 | the appending loop computes that, and reports exactly whether the id was present |
| `SpecLineage.RecordedDigestIsItsOwn` | agintor/contracts/spec_actions.py:274-296 | the digest recorded in the child is the child's own digest after it has been recorded: a fixpoint |
| `SpecLineage.AppliedActionLinks` | agintor/contracts/spec_actions.py:155-296 | every applied action leaves a valid child whose parent, digest and last history entry link it to its parent |
| `SpecLineage.ApplySpecActions` | agintor/contracts/spec_actions.py:299-305 | the loop leaves a valid spec whose digest ends the chain of the results that starts at the given spec, one result and one history entry an action, the earlier history kept; on failure it reports the refusal of the first action that is refused |
| `SpecLineage.ActionsFormAChain` | agintor/contracts/spec_actions.py:299-305 | across any action list each result's child digest is the next one's parent digest; the final spec is valid, so every surviving reference resolves; history grows by one an action and keeps its past |
| `SpecLineage.NoDigestRepeats` | agintor/contracts/spec_actions.py:299-305 | no two specs of one lineage have the same digest |
| `SpecRemovals.RemoveEdgeSucceeds` | agintor/contracts/spec_actions.py:217-223 | removing an edge from a valid spec never fails |
| `SpecRemovals.RemoveNodeExactly` | agintor/contracts/spec_actions.py:202-209 | removing nodes that pass the precheck succeeds if and only if the entry node is not among them |
| `SpecRemovals.RemoveAgentSucceeds` | agintor/contracts/spec_actions.py:180-184 | removing agents that pass the precheck never fails re-validation, at any intermediate step |
| `SpecRemovals.RemoveToolSucceeds` | agintor/contracts/spec_actions.py:229-234 | removing tools that pass the precheck never fails re-validation |
| `SpecRemovals.FilterKeepsOrder` | agintor/contracts/spec_actions.py:112-114 | what remains after a removal stands in its original order |
| `SpecRemovals.ShrunkIsValid` | agintor/contracts/runtime_spec.py:254-282 | a spec cut down from a valid one is valid as soon as its graph and references still resolve |
| `D0Results.StepIsSound` | agintor/evaluation/feasibility.py:1253-1312 | one call of the baseline loop, through any outcome, keeps the run invariant |
| `D0Results.RunIsSound` | agintor/evaluation/feasibility.py:1249-1312 | for every executor the observations are a contiguous prefix of the scheduled pair keys, response ids are globally unique, and only the last call can have failed |
| `D0Results.FinishedReceipt` | agintor/evaluation/feasibility.py:1137-1201 | in a run without failure the k-th receipt is for the k-th pair key and was accepted by the authority check |
| `D0Results.FinishedRunCoversReplicates` | agintor/evaluation/feasibility.py:396-399 | a finished run covers each sampling replicate exactly once |
| `D0Results.HeadroomExactly` | agintor/evaluation/feasibility.py:400-402 | headroom is reported if and only if some replicate succeeded and some failed; uniform failure if and only if none succeeded |
| `D0Results.ReportReconciles` | agintor/evaluation/feasibility.py:1414-1483 | whatever the executor does, a report that is drawn up is valid and reconciles with the recorded calls: digests, receipts and every total |
| `D0Endings.FinishesExactly` | agintor/evaluation/feasibility.py:1253-1312 | a run ends without failure if and only if the executor answers every scheduled call with a success that nothing objects to and no response id is used twice; its receipts are then the answers' |
| `D0Endings.AssessedExactly` | agintor/evaluation/feasibility.py:349-417 | a run without failure gets a headroom assessment if and only if the schedule has the frozen replicate count and all receipts share one configuration and environment |
| `D0Endings.PublishedExactly` | agintor/evaluation/feasibility.py:1486-1645 | an assessed run without failure publishes its proof if and only if some repair is complete and some is not and model calls equal requests |
| `D0Endings.ReturnsExactly` | agintor/evaluation/feasibility.py:1204-1385 | a run returns if and only if some call is answered badly, so that it fails and is reported incomplete, or the answers fill the frozen replicate count and can be published |
| `D0Endings.ReturnedRunReconciles` | agintor/evaluation/feasibility.py:1370-1384 | whatever the executor does, the report of a run that returns reconciles; it is completed exactly when a proof is published, and then it has headroom and mixed repairs |
| `D0Endings.ReturnedRunReplays` | agintor/evaluation/feasibility.py:1647-1690 | what a returned run leaves on disk, public proof included, is written without a name being taken and replays to its own report |
| `D0Endings.OneCallFinishesAndRaises` | agintor/evaluation/feasibility.py:1502-1523 | a finished, assessed run that raises: one planned call answered well, whether its repair is complete or not |
| `D0Results.ExecuteSchedule` | agintor/evaluation/feasibility.py:1249-1312 | the loop with its response-id set computes the specified log and writes exactly its call files |
| `Budget.ProjectionFits` | agintor/evaluation/feasibility.py:441-475 | a task whose ceilings lie within the epoch's always fits the frozen budget |
| `Budget.ProjectionFitsExactly` | agintor/evaluation/feasibility.py:441-475 | when the structural capacity covers the candidate budget, the projection fits if and only if calls, known and estimated cost lie within the epoch's per-run ceilings |
| `Batching.GroupTasks` | agintor/evaluation/evaluator.py:198-209 | one unit per plain task and per transfer episode, holding together exactly the tasks |
| `Batching.EvaluationUnits` | agintor/evaluation/evaluator.py:198-213 | the same, with every unit in episode order and then by task id |
| `Batching.EpisodeInOneUnit` | agintor/evaluation/evaluator.py:198-213 | any two scored tasks of one transfer episode lie in one unit |
| `Batching.OneUnitPerEpisode` | agintor/evaluation/evaluator.py:198-209 | no two units hold the same episode |
| `Batching.TrainBatches` | agintor/evaluation/evaluator.py:795-815 | the batches flatten to the units; each is within the size limit or a single unit, a run of consecutive units, and closed only when full, at the end, or when the next unit would not fit |
| `Batching.BatchesConserve` | agintor/evaluation/evaluator.py:795-815 | flattening the batches gives the flattened units they were cut from |
| `Batching.BatchedTasksArePermuted` | agintor/evaluation/evaluator.py:795-815 | the batched tasks are a permutation of the given tasks |
| `Batching.UnitInOneBatch` | agintor/evaluation/evaluator.py:800-815 | every unit lies whole, in order, in one batch |

## Left out

General modelling limits:

- SHA-256 itself, and collisions: a digest is an injective term. Digests truncated for names are arbitrary functions.
- Floating-point rounding of costs, scores, labels and rates: they are reals. The square root in the standard error is a given function of the cluster differences.
- Pydantic coercion and stripping, `model_dump` modes and JSON round trips: records arrive well typed, and validators are modelled on their values.
- Files, symbolic links, atomic writes and staging directories: persisted evidence is a list of named contents.
- Threads, queues, cancellation and the clock: one outcome per call, an exception, silence past the deadline, or a result.
- The texts of failure details, execution ids and manifest ids.

Identity and isotonic fit:

- Python's limit on the number of digits `str` prints, and a `model_dump` that raises or mutates while it is dumped.

Execution plans:

- ExecutionPlan.Validator.CheckNodes: whether a service node's url, method and transport pass their own checks is a given flag of the node.
- The plan digest and the transport compatibility tables.

Gate 0:

- Gate0Plan.BuiltManifestIsValid: the panel may have any positive number of items, not only thirty-two (`ValidPanel` is the locked one), and identities are structured values; their colon-joined texts serve only to break rank ties.
- Gate0Replay.EveryBuiltRunReplays: at most 250 items, so that call names keep their four digits; `Gate0Ties.AllRunsReplayExactly` has the same bound.
- Gate0Plan.ScheduleIsPlanned: a sample identity is its panel, item, replicate and arm, where the source's validator takes it as a free text that must be distinct.
- Gate0Conformance.BuiltConformsExactly: which private evidence a request carries is part of its given text, so that part of the check's delivery rules is not modelled, nor are the profile and credential checks of a live run.
- The arm plan's matching flags, the private views and the templates' expected-answer formulas: payload frames and expected answers are given texts.

Workflow challenges:

- Python evaluation beyond the printed fragment, and the service that evaluates it; the probabilities of the draws; distractors, prompts and the rest of the benchmark task.

Patches:

- The regular-expression engine: the pattern is modelled by the match it selects. Reading and writing the patched file.

Run evidence and interventions:

- The provider-round and tool-receipt checks on contexts, retry links, patch termination, run health and the credential scan. Of the records' own validation, `RecordsHold` states what the artifact flow does not turn on.
- Interventions.NeutralTextMatches: the credential scan that every observed value passes through is not modelled.
- Interventions.BuildsExactly: whether a text is free of canaries and credentials is an arbitrary predicate on texts.
- Interventions.JoinedNeutralRunDiffersOnlyThere: identity fields are one list of texts, and the joined pair's tool, route and token counters, which every run meets, are not modelled.

Runtime specs:

- SpecLineage.AppliedActionLinks: patches are arbitrary functions on the patched record, so a patch that ill-typed coercion refuses is not modelled; further record fields are kept as JSON. The runtime kinds that narrow the document are not modelled.
- The mutation ledger file, public summaries and baseline documents.

D0 baseline:

- D0Results.RunIsSound: those checks of a receipt's authority that nothing else depends on are one arbitrary predicate on receipts. None of their refusals mentions accounting, so all are recorded as a crossed identity.
- D0Endings.ReturnedRunReplays: at most a million pair keys, so that call names keep their six digits; the feasibility manifest's dry-run digest and the credential scan of the files are not modelled.
- D0Endings.ReturnsExactly: the credential scan of the report and the proof, and a file system that refuses a write, can raise too and are not modelled.
- Mean costs in the headroom assessment.

Batching:

- Partitioning and fallback of the training tasks.

Not modelled at all, because it would add no hard property: the command line, subprocess launching,
the harness contracts, the flat schema files, the runtime host, ledgers and oracle runners of the
evaluator, and canary or redaction scanning.
