# OasisAgent engine: verified model

OasisAgent watches home and server infrastructure, correlates the events it sees, and remediates
through plans that an operator may have to approve. This project models the stateful machines of
its engine in Dafny and proves what they keep over whole runs.

| file | what it models |
|---|---|
| `DependencyBfs.dfy`, `SearchOrder.dfy`, `DependencyContext.dfy` | the depth-bounded dependency search and the context gathered from it |
| `ServiceGraph.dfy` | the topology tables, the in-memory graph with its indexes, and the discovery loop's body |
| `Plans.dfy`, `PlanExecutor.dfy` | remediation plans: `execute_plan` as a function, and the executor class that refines it |
| `PlanValidation.dfy` | the dependency check a proposed plan passes before it is created |
| `PlanRuns.dfy`, `PlanOutcome.dfy`, `PlanVerdicts.dfy`, `PlanApproval.dfy`, `PlanApprovalRace.dfy`, `PlanGate.dfy` | crashes and resumption, how plans end and why, approval, concurrent approval calls, and the queue in front of them |
| `PendingQueue.dfy`, `PendingRuns.dfy` | the approval queue over SQLite and memory, and all its interleavings |
| `CircuitBreaker.dfy`, `BreakerHistory.dfy` | the circuit breaker, and its answers told by the operations |
| `EventQueue.dfy`, `Suppression.dfy`, `Correlator.dfy` | the event front end |
| `AuditBuffer.dfy` | the audit writer's retry buffer |
| `PollRotation.dfy` | round-robin polling of container statistics |
| `ConfigStore.dfy`, `ConfigTransfer.dfy`, `ConfigImport.dfy` | configuration rows with split secrets, export and import |
| `Wrappers.dfy` | `Option`, and listings of sets in an order left open |

Each class has the fields of the source's class and its modelled methods, the longer ones cut into
smaller ones, and each method is proved to do what a function of the old state says. The results
about runs are lemmas about those functions, measured against definitions that do not mention
them: walks in a graph, a full history, a recount, a legal log. For the search, `execute_plan`, the
breaker, the event queue and the audit writer such a definition leaves one result only
(`SearchOrder.SearchIsTheOnly`, `PlanVerdicts.ExecuteLeavesExactly`, `BreakerHistory.VerdictsAreDeserved`,
`EventQueue.AnswersAre`, `AuditBuffer.WriteIs`). Every lemma switches automatic induction off: the proofs do their own.

A crash of the executor is a cut of its log at any entry: memory is gone and the last save is what
remains. `resume_in_progress` only reloads plans, so the model supplies the `execute_plan` call
that would follow. For the approval queue a crash returns the table to its last commit. Clock
readings are parameters, taken in nondecreasing order, one for each time the source reads the
clock. Handlers, servers, fetches and validation are oracles: functions that give any answers.

## What the code does not do

Some statements one would expect are false of the code. Each has its lemma, with the exact condition
where there is one, and an input on which it fails.

- The planning prompt (`oasisagent/llm/prompts/diagnose_failure.py:129`) and the executor's branch say a
  conditional step is skipped when its dependency fails. A failing step ends its plan in the same save,
  so no plan that starts from `create_plan` ever skips (`PlanApproval.CreatedNeverSkips`,
  `PlanOutcome.ConditionalIsNotSkipped`).
- Nothing validates that orders are distinct. Steps that repeat an order share one state, and a plan
  can be COMPLETED with a step still pending (`PlanOutcome.CompletedListIffDistinct`,
  `PlanOutcome.RepeatedOrderIsNotRun`).
- The reasoning service strips steps with unknown or forward dependencies
  (`oasisagent/llm/reasoning.py:104-116`), but in one pass: a step that depends on a stripped one stays,
  and its plan can never complete (`PlanValidation.ValidatedCanCompleteIff`,
  `PlanValidation.StrippedStepLeavesADangler`).
- `approve_plan`, `reject_plan` and `expire_plan` are documented as compare-and-swap. They exclude
  each other only while the plan is cached (`PlanApprovalRace.ExclusiveIffCached`). What saves them is
  the queue in front, which lets at most one such call be made (`PlanGate.AtMostOnePlanCall`).
- A decision is committed to the queue first and to the plan afterwards. A crash in between leaves the
  plan pending with no entry left to decide about, and so does an entry that is due at the restart or
  was not yet added (`PlanGate.StuckPlans`, `PlanGate.CrashInDecision`).
- Operator-edited nodes are safe from discovery, operator-edited edges are not: one goes when an
  automatic node at its end is pruned (`ServiceGraph.ManualEdgeFate`, `ServiceGraph.ManualEdgeLost`).
- The rotation counts fetches that answered, not fetches that were attempted. Equal polling holds
  exactly if all containers answer or none does, for containers that each always or never answer (`PollRotation.FairIffAllOrNoneAnswer`,
  `PollRotation.ResumesIffNoneFailed`, `PollRotation.OneFailureStarvesTheRest`).
- A masked export shows a stored secret in clear if the row's type is no longer registered
  (`oasisagent/db/config_store.py:532-537`) or no longer declares the field
  (`ConfigTransfer.MaskedExportHidesSecrets`, `ConfigTransfer.UnregisteredSecretIsShown`).
- An import computes every update from the rows as they were when it began, so a second entry for a
  name puts back what the first changed (`ConfigImport.SecondEntryKeepsFirstIff`,
  `ConfigImport.SecondEntryPutsBack`).
- An unmasked export with an ordinary value equal to the placeholder loses that value on import
  (`ConfigTransfer.UnmaskedImportReproducesIff`, `ConfigTransfer.PlaceholderIsLost`).

## Model

| member | source | states |
|---|---|---|
| `DependencyBfs.SearchIsExact` | oasisagent/engine/service_graph.py:348-371 | for every graph, root and bound, the result list holds exactly the ids other than the root that a walk of at most `bound` edges over existing nodes reaches, each once, in order of depth, with depth the shortest distance and each entry describing its node and the type of an edge from one step nearer |
| `DependencyBfs.DeeperExtends` | oasisagent/engine/service_graph.py:348-371 | the result for a smaller bound is a prefix of the result for a larger one |
| `SearchOrder.SearchIsInOrder` | oasisagent/engine/service_graph.py:348-371 | the list is in the order of its sources: each entry is found from the earliest place in the list, and there by the earliest edge, that leads to it below the bound, with that edge's type and one more than that node's depth |
| `SearchOrder.SearchIsTheOnly` | oasisagent/engine/service_graph.py:348-371 | a list is the result of the search if and only if it holds exactly what walks within the bound reach, described as above, in that order: nothing else about the search is open |
| `DependencyBfs.WalksAreKnown` | oasisagent/engine/service_graph.py:351-371 | a finished search has found the end of every walk no longer than the bound, no deeper than the walk is long |
| `DependencyBfs.AdvanceWork` | oasisagent/engine/service_graph.py:353-371 | each pop with the expansion after it lowers the number of undiscovered plus queued ids by exactly one, so the search ends on every graph, cyclic ones included |
| `DependencyContext.SearchUpstream` | oasisagent/engine/service_graph.py:348-371 | the deque loop computes the specified search over the graph's own edges |
| `DependencyContext.SearchDownstream` | oasisagent/engine/service_graph.py:373-396 | the second, separately written loop computes the same search over the reversed edges |
| `DependencyContext.SameHost` | oasisagent/engine/service_graph.py:398-414 | exactly the other nodes at the root's nonempty address, each once, found through the index |
| `DependencyContext.InducedEdges` | oasisagent/engine/service_graph.py:416-431 | the edges, in order, with both ends among the collected ids |
| `DependencyContext.InducedIsExact` | oasisagent/engine/service_graph.py:416-431 | the list reports, in edge order and once each, exactly the edges with both ends collected, source first, with type and flag |
| `DependencyContext.GatherDependencyContext` | oasisagent/engine/service_graph.py:314-438 | for an existing root the context is the two neighbourhoods, the host neighbours and exactly the edges induced on all of them: for the depth asked for from 1 to 5, for 5 above and for 1 below; for an unknown root it is empty |
| `DependencyContext.CollectedAreRelated` | oasisagent/engine/service_graph.py:416-422 | the collected ids are exactly those within the bound either way, on the root's host, or the root |
| `DependencyContext.ReverseReaches` | oasisagent/engine/service_graph.py:373-396 | walks over reversed edges are walks the other way of the same length, so downstream is reachability into the root |
| `DependencyContext.MoreDepthExtends` | oasisagent/engine/service_graph.py:334-396 | asking for more depth only appends, in both directions, for any integers asked for |
| `TopologyStore.TopologyStore.UpsertNode` | oasisagent/db/topology_store.py:55-99 | the row becomes the incoming node, always so if an operator sent it, or keeps an operator's row but for last_seen when the incoming node is automatic; edges and other rows untouched |
| `TopologyStore.TopologyStore.UpsertEdge` | oasisagent/db/topology_store.py:128-173 | the same for edges, keyed by both ends and type |
| `TopologyStore.TopologyStore.PruneStaleNodes` | oasisagent/db/topology_store.py:195-238 | deletes and returns, each once, exactly the automatic nodes of the type that are too old or were never seen, with every edge at one of them |
| `TopologyStore.TopologyStore.ListEdges` | oasisagent/db/topology_store.py:118-126 | every stored edge exactly once |
| `ServiceGraph.ServiceGraph.RebuildIndexes` | oasisagent/engine/service_graph.py:278-298 | all three indexes equal a recount from nodes and edges |
| `ServiceGraph.IndexByIp` | oasisagent/engine/service_graph.py:284-286 | every address lists exactly the nodes hosted there, each once |
| `ServiceGraph.IndexDependencies` | oasisagent/engine/service_graph.py:288-298 | both dependency indexes list, in edge order, what the dependency-typed edges say |
| `ServiceGraph.ServiceGraph.LoadFromDb` | oasisagent/engine/service_graph.py:46-64 | memory equals the store and the indexes match |
| `ServiceGraph.ServiceGraph.MergeDiscovered` | oasisagent/engine/service_graph.py:66-131 | memory and store hold the merged rows, the edges are reloaded, the indexes match, and the diffs are those of nodes new or changed against memory and of edges unknown before the merge |
| `ServiceGraph.ServiceGraph.RemovePruned` | oasisagent/engine/service_graph.py:133-160 | the pruned ids leave memory, each with one diff if it was there; edges are reloaded only then |
| `ServiceGraph.ServiceGraph.DependenciesOf` | oasisagent/engine/service_graph.py:194-196 | the indexed answer is the one the edges give |
| `ServiceGraph.ServiceGraph.DependentsOf` | oasisagent/engine/service_graph.py:198-200 | the indexed answer is the one the reversed edges give |
| `ServiceGraph.ServiceGraph.ServicesOnHost` | oasisagent/engine/service_graph.py:190-192 | exactly the nodes at that address, each once |
| `ServiceGraph.PruneStale` | oasisagent/orchestrator.py:1741-1756 | after container and stack pruning memory still equals the store, although memory is told only once about both |
| `ServiceGraph.RunDiscoveryCycle` | oasisagent/orchestrator.py:1703-1756 | a cycle that starts with memory equal to the store ends so, with all indexes equal to a recount, and the tables are the merged, twice pruned ones |
| `ServiceGraph.MergeKeepsAgreement` | oasisagent/engine/service_graph.py:66-131 | memory that equals the table before a merge equals it after, even if one id is reported several times |
| `ServiceGraph.ManualNodeSurvives` | oasisagent/db/topology_store.py:55-99 | over any number of automatic cycles an operator's node is never removed and keeps every field but last_seen |
| `ServiceGraph.UpsertedNode` | oasisagent/db/topology_store.py:55-99 | an operator's report, and any report of a row no operator edited, replaces the row with its own time; an automatic report of an edited row changes last_seen only; other rows stay |
| `ServiceGraph.UpsertedEdge` | oasisagent/db/topology_store.py:128-173 | the same for edges |
| `ServiceGraph.OperatorEditSurvives` | oasisagent/db/topology_store.py:55-99 | an operator's edit of any row, discovered, edited or new, keeps its fields over any number of automatic cycles |
| `ServiceGraph.LastEditStands` | oasisagent/db/topology_store.py:77-98 | in any mixture of reports of an id the last one by an operator stands, in all but last_seen, whatever was there |
| `ServiceGraph.LastReportStamps` | oasisagent/db/topology_store.py:58-98 | and the last report of any kind stamps the row |
| `ServiceGraph.LastEdgeEditStands` | oasisagent/db/topology_store.py:149-172 | the last report of an edge by an operator stands |
| `ServiceGraph.LastEdgeReportWins` | oasisagent/db/topology_store.py:128-173 | the last report of an edge stamps it, and replaces it if no operator ever edited it |
| `ServiceGraph.EdgeFate` | oasisagent/db/topology_store.py:226-231 | of the merged edges a cycle deletes exactly those with an endpoint that goes stale |
| `ServiceGraph.ManualEdgeFate` | oasisagent/db/topology_store.py:195-238 | an operator's edge survives a cycle if and only if neither endpoint is, after the merge, an automatic container or stack that is too old or was never seen, and then keeps every field but last_seen |
| `ServiceGraph.ManualEdgeLost` | oasisagent/db/topology_store.py:226-231 | an operator's edge from his own service to a container that was never seen is gone after a cycle that reports nothing |
| `ServiceGraph.LastReportWins` | oasisagent/engine/service_graph.py:107-111 | of several reports of one automatic id the last is what the table holds, stamped with its time |
| `ServiceGraph.NodeFate` | oasisagent/orchestrator.py:1741-1749 | after a cycle the nodes are exactly the merged ones that are not automatic containers or stacks too old or never seen, each as merged |
| `ServiceGraph.ReportedNodeSurvives` | oasisagent/orchestrator.py:1742-1749 | what discovery reports in a cycle that takes no longer than two intervals is there after it |
| `ServiceGraph.AddedOnce` | oasisagent/engine/service_graph.py:79-111 | a merge reports a node as added exactly once if memory did not have it, and never otherwise |
| `ServiceGraph.UpdatedIff` | oasisagent/engine/service_graph.py:82-105 | a merge reports a node as updated if and only if some report of it changes its address, name or type against memory at that moment, or is automatic over an operator's edit |
| `ServiceGraph.EdgeAddedIff` | oasisagent/engine/service_graph.py:113-125 | the edges reported as added are, in order, exactly those with ends and type that no edge known before has |
| `ServiceGraph.DependenciesAreTargets` | oasisagent/engine/service_graph.py:288-298 | an entity's dependencies are the targets, in edge order, of its edges of the seven dependency types |
| `ServiceGraph.DependentsAreSources` | oasisagent/engine/service_graph.py:288-298 | its dependents are the sources of those that lead to it |
| `Plans.FindIsLast` | oasisagent/engine/plan_executor.py:147 | with repeated orders the state found for an order is the last one in the list |
| `Plans.SetThenGet` | oasisagent/engine/plan_executor.py:147-153 | assigning an order's status changes that order's status and no other's |
| `Plans.SortSorts` | oasisagent/engine/plan_executor.py:146 | the loop visits the plan's steps and no others, in ascending order |
| `Plans.SortPermutes` | oasisagent/engine/plan_executor.py:146 | every step as often as the plan lists it |
| `Plans.SortIsStable` | oasisagent/engine/plan_executor.py:146 | steps that repeat an order keep the order in which the plan lists them |
| `PlanRuns.EvaluateSays` | oasisagent/engine/plan_executor.py:401-436 | a step is ready if and only if every dependency is done, and else skipped or blocked |
| `PlanRuns.SkippedIff` | oasisagent/engine/plan_executor.py:416-434 | it is skipped if and only if it is conditional and the first dependency that is not done failed or was blocked |
| `PlanOutcome.ApprovalFollowsTier` | oasisagent/engine/plan_executor.py:114-119 | approval is required if and only if the stored maximum tier is above AUTO_FIX, and that maximum is one of the steps' tiers |
| `PlanOutcome.CreatedIs` | oasisagent/engine/plan_executor.py:75-112 | a new plan has one pending state per step in order, is executing if and only if every step is AUTO_FIX and pending approval otherwise, and has the highest tier of its steps |
| `PlanOutcome.DispatchEnd` | oasisagent/engine/plan_executor.py:182-284 | a dispatched step ends succeeded if its handler exists, returns success and verifies, else failed with the plan; no other step changes |
| `PlanOutcome.ExecuteOutcome` | oasisagent/engine/plan_executor.py:121-302 | for any plan, new or resumed: completed if and only if every step is done, otherwise failed at one failed or blocked step with all earlier ones done and all later ones untouched; done steps never change |
| `PlanVerdicts.ExecuteLeavesExactly` | oasisagent/engine/plan_executor.py:121-302 | for every plan, new or resumed: a plan is what the call leaves if and only if it is completed or failed as its steps say, each first step of an order that had its turn succeeded, failed, was skipped or was blocked for its own reason, told by its dependencies and its handler alone, and the rest is as found with interrupted steps ready |
| `PlanVerdicts.StopsBecause` | oasisagent/engine/plan_executor.py:155-284 | the step at which a plan stops is BLOCKED if and only if one of its dependencies is not done, and FAILED if and only if all are and its handler is missing, raises, does not return success or does not verify |
| `PlanVerdicts.CallsExactly` | oasisagent/engine/plan_executor.py:182-302 | the call first saves the plan as executing and last saves what it leaves; it calls handlers for exactly the orders that were run and have one, and verifies exactly after those that returned success |
| `PlanOutcome.EveryAttemptIsRecorded` | oasisagent/engine/plan_executor.py:202-227 | every handler call that returns is followed at once by one breaker record, under the action's target or else the event's entity and with its success; one that raises by the aborting save; and nothing else is recorded |
| `PlanOutcome.CompletesOnlyIfFirstsHold` | oasisagent/engine/plan_executor.py:401-436 | over any crashes and resumptions a new plan never completes unless the first step of each order, the one that runs, depends only on earlier steps of the plan |
| `PlanOutcome.CanCompleteIffFirstsHold` | oasisagent/engine/plan_executor.py:121-302 | a new plan can complete, in one call or over lives, if and only if the first step of each order depends only on earlier steps of the plan; no condition on the orders |
| `PlanOutcome.CanCompleteIffWellFounded` | oasisagent/engine/plan_executor.py:121-302 | the case of distinct orders: if and only if every dependency is an earlier step of the plan |
| `PlanOutcome.FirstsHoldCompletes` | oasisagent/engine/plan_executor.py:121-302 | if those first steps depend on earlier steps only and handlers succeed, one call completes the plan |
| `PlanOutcome.CompletedListIffDistinct` | oasisagent/models.py:158 | a completed new plan shows every listed step state as done if and only if the orders are distinct; only order >= 1 is validated |
| `PlanOutcome.RepeatedOrderIsNotRun` | oasisagent/engine/plan_executor.py:147 | two steps of order 1, the second with an unknown dependency: the plan is not well-founded, completes, and the second step is not run |
| `PlanOutcome.ConditionalIsNotSkipped` | oasisagent/engine/plan_executor.py:225-243 | step 2 conditional on step 1, whose handler fails: the plan fails and step 2 is still pending |
| `PlanValidation.ValidateSteps` | oasisagent/llm/reasoning.py:104-116 | the second validation pass keeps exactly the steps whose dependencies are existing, smaller orders of the proposed plan |
| `PlanValidation.ValidatedAre` | oasisagent/llm/reasoning.py:104-116 | what is kept are, in order, exactly the steps all of whose dependencies are orders of proposed steps and smaller; none if there are none |
| `PlanValidation.ValidIffDepsSurvive` | oasisagent/llm/reasoning.py:104-116 | what it keeps is well-founded if and only if every dependency of a proposed step that passes is the order of some proposed step that passes |
| `PlanValidation.ValidatedCanCompleteIff` | oasisagent/llm/reasoning.py:104-116 | a validated plan can complete if and only if, among the proposed steps, this holds of the first that passes of each order; orders may repeat |
| `PlanValidation.StrippedStepLeavesADangler` | oasisagent/llm/reasoning.py:104-116 | a plan of two steps from which one is stripped, after which the other can never run |
| `PlanRuns.ExecuteEnds` | oasisagent/engine/plan_executor.py:121-302 | a resumed sound plan writes a legal log and ends completed or failed |
| `PlanRuns.LifeLegal` | oasisagent/engine/plan_executor.py:357-384 | every process life, cut off anywhere, writes a legal log and leaves a sound plan on disk |
| `PlanRuns.NeverExecutedAgain` | oasisagent/engine/plan_executor.py:145-153 | once any save in any history shows a step as done, no later life calls its handler again |
| `PlanRuns.ExecutedOnlyWhenLaunchable` | oasisagent/engine/plan_executor.py:182-185 | whenever a handler is called the disk holds the plan as executing with that step executing, and its dependencies are done and of smaller order |
| `PlanRuns.NothingIsEverSkipped` | oasisagent/engine/plan_executor.py:168-180 | no save of any history of a plan in execution shows a skipped step |
| `PlanRuns.ExecutionsBounded` | oasisagent/engine/plan_executor.py:136-143 | however often the process dies, handlers are called at most steps + crashes times |
| `PlanRuns.ExecutionsCounted` | oasisagent/engine/plan_executor.py:136-143 | sharper: executions plus steps already done are at most distinct orders + crashes |
| `PlanRuns.AtMostOneLost` | oasisagent/engine/plan_executor.py:136-143 | one life calls no handler twice and leaves at most one executed step not done |
| `PlanRuns.AllowedInHistory` | oasisagent/engine/plan_executor.py:121-302 | every save, call, attempt and verification of every history is one allowed by what is on disk at that moment |
| `PlanApproval.ResolvedAtMostOnce` | oasisagent/engine/plan_executor.py:304-355 | of any sequence of approvals, rejections, expiries and resumptions, with crashes, at most one resolution takes effect, and only on a pending plan |
| `PlanApproval.OpKeepsPending` | oasisagent/engine/plan_executor.py:304-355 | an operation leaves a plan pending exactly if it was pending and nothing was written |
| `PlanApproval.ResolvesIff` | oasisagent/engine/plan_executor.py:304-355 | an approval, rejection or expiry takes effect if and only if the plan is pending and the save is not lost, and saves the plan as it says; an approval is followed by the execution |
| `PlanApproval.NothingWithoutApproval` | oasisagent/orchestrator.py:2322-2373 | without an approval no handler of a plan not in execution is ever called |
| `PlanApproval.RefusedStaysRefused` | oasisagent/engine/plan_executor.py:321-355 | a rejected or expired plan is never written or run again |
| `PlanApproval.ApprovedBeforeExecuted` | oasisagent/orchestrator.py:2431-2478 | if any handler of a pending plan is called, exactly one approval took effect before it and nothing was written before that |
| `PlanApproval.CreatedNeedsApproval` | oasisagent/engine/plan_executor.py:75-112 | the same from creation on, for every plan with a step above AUTO_FIX |
| `PlanApproval.CreatedExecutesOnlyLaunchable` | oasisagent/engine/plan_executor.py:182-185 | from creation on: whenever a handler is called the disk holds the plan and the step as executing, with its dependencies done and of smaller order |
| `PlanApproval.CreatedNeverSkips` | oasisagent/engine/plan_executor.py:168-180 | from creation on no save shows a skipped step: the conditional branch is unreachable |
| `PlanApproval.CreatedNeverExecutesAgain` | oasisagent/engine/plan_executor.py:145-153 | from creation on, over approvals, refusals, crashes and resumptions: a step shown as done by any save is never executed after it |
| `PlanApproval.CreatedExecutionsBounded` | oasisagent/engine/plan_executor.py:136-143 | from creation on, handlers are called at most once per step and once more for every execution after the first |
| `PlanApprovalRace.ExclusiveIffCached` | oasisagent/engine/plan_executor.py:304-355 | concurrent approve, reject and expire calls split at their awaits exclude each other on every schedule if and only if the plan is cached or there is at most one call |
| `PlanApprovalRace.ColdRace` | oasisagent/engine/plan_executor.py:306-317 | the schedule on which two calls for an uncached plan both succeed |
| `PlanApprovalRace.CachedIsSafe` | oasisagent/engine/plan_executor.py:306-317 | with the plan cached at most one call ever passes its check |
| `PlanGate.AtMostOnePlanCall` | oasisagent/orchestrator.py:2606-2624 | in every interleaving of the queue and its plan, with crashes, a plan whose entry is added once, as dispatch does, is approved or rejected by at most one call, and goes nowhere else |
| `PlanGate.StuckPlans` | oasisagent/orchestrator.py:2616-2624 | a crash at any moment of any interleaving leaves the plan pending forever if and only if the plan is saved as pending and the committed queue has no pending entry of it that outlives the restart |
| `PlanGate.CrashInDecision` | oasisagent/orchestrator.py:2431-2478 | of the five stretches of an approval or rejection, a crash after the n-th leaves the plan pending forever if and only if n is 3 or 4, after the queue has committed and before the plan is saved, or the entry was undecided and is due at the restart |
| `PlanExecutor.RemediationPlan.SetStep` | oasisagent/engine/plan_executor.py:147-153 | the last state of the order gets the status |
| `PlanExecutor.PlanExecutor.CreatePlan` | oasisagent/engine/plan_executor.py:75-112 | the plan is saved and cached with every step pending, pending approval or executing by its tier |
| `PlanExecutor.PlanExecutor.LoadPlan` | oasisagent/engine/plan_executor.py:482-498 | a fresh plan object equal to the saved row enters the cache, or nothing happens |
| `PlanExecutor.PlanExecutor.ResolvePlan` | oasisagent/engine/plan_executor.py:304-355 | approve, reject and expire: succeed if and only if the table holds the plan as pending approval, and then cache and table hold it resolved |
| `PlanExecutor.PlanExecutor.ResumeInProgress` | oasisagent/engine/plan_executor.py:357-384 | exactly the plans saved as executing are cached again, each interrupted step ready and nothing else changed |
| `PlanExecutor.PlanExecutor.AbortPlan` | oasisagent/engine/plan_executor.py:158-167 | the step and the plan fail in one save |
| `PlanExecutor.PlanExecutor.VerifyStep` | oasisagent/engine/plan_executor.py:242-284 | succeeded only if verified, else the plan fails |
| `PlanExecutor.PlanExecutor.CallHandler` | oasisagent/engine/plan_executor.py:187-240 | every branch from handler lookup to verification, with its saves and its circuit breaker record |
| `PlanExecutor.PlanExecutor.RunStep` | oasisagent/engine/plan_executor.py:149-284 | one iteration of the main loop |
| `PlanExecutor.PlanExecutor.ExecutePlan` | oasisagent/engine/plan_executor.py:121-302 | the in-place method ends with the row, the table and the log of the specification that the results above are about |
| `PlanOutcome.StepThenRest` | oasisagent/engine/plan_executor.py:149-284 | one iteration followed by the rest of the loop is the whole loop |
| `PendingQueue.PendingQueue.FromDb` | oasisagent/approval/pending.py:112-162 | uncommitted changes are gone, due rows are expired, the pending rest is loaded and the keys are rebuilt from it |
| `PendingQueue.PendingQueue.Approve` | oasisagent/approval/pending.py:263-303 | returns the action if and only if memory and table have it pending; then both have it approved, durably, else nothing changes; an exact key set stays exact |
| `PendingQueue.PendingQueue.Reject` | oasisagent/approval/pending.py:305-345 | the same for a rejection |
| `PendingQueue.PendingQueue.Resolve` | oasisagent/approval/pending.py:263-345 | what the two have in common: its key is freed and no other action, row or key changes |
| `PendingQueue.PendingQueue.Add` | oasisagent/approval/pending.py:164-261 | adds if and only if there is a subject whose key is not pending; memory, committed table and key set then have it; an exact key set stays exact |
| `PendingQueue.PendingQueue.ExpireStale` | oasisagent/approval/pending.py:347-387 | afterwards no row is pending and due, those that were are expired durably and in memory, exactly those memory had are returned once each, and the key set is right whatever it was |
| `PendingQueue.PendingQueue.UpdateStatus` | oasisagent/approval/pending.py:284-294 | the conditional update changes the row and counts 1 if and only if the row is pending |
| `PendingQueue.PendingQueue.CompleteExpire` | oasisagent/approval/pending.py:368-387 | marks them in memory, returns those memory knew, each once, and rebuilds the keys |
| `PendingQueue.RebuiltKeys` | oasisagent/approval/pending.py:379-387 | the rebuild loop yields exactly the keys of the pending actions |
| `PendingRuns.NextKeeps` | oasisagent/approval/pending.py:164-387 | every stretch between two awaits, from any state of any number of calls in flight, keeps the queue's invariant; so does a crash |
| `PendingRuns.KeysAlwaysExact` | oasisagent/approval/pending.py:196-252 | in every interleaving the key set is exactly that of the pending actions and no two of them share a key |
| `PendingRuns.ResolvedAtMostOnce` | oasisagent/approval/pending.py:263-400 | in every interleaving, with crashes, no id is returned twice as approved, rejected or expired, nor offered as pending again |
| `PendingRuns.DurableKeysDistinct` | oasisagent/approval/pending.py:155-160 | what is pending in the committed table also has distinct keys, so a restart cannot collapse two |
| `PendingRuns.ResolveIsRun` | oasisagent/approval/pending.py:263-345 | an undisturbed approve or reject is the run of its stretches |
| `PendingRuns.AddIsRun` | oasisagent/approval/pending.py:164-261 | an undisturbed add is the run of its stretches |
| `PendingRuns.ExpireIsRun` | oasisagent/approval/pending.py:347-387 | an undisturbed expire_stale is the run of its stretches |
| `PendingRuns.AddedOnceResolvedOnce` | oasisagent/approval/pending.py:196-252 | in every interleaving, with crashes, a key that is added at most once is resolved at most once |
| `CircuitBreaker.CircuitBreaker.PruneAttempts` | oasisagent/engine/circuit_breaker.py:217-220 | keeps, in order, exactly the attempts at or after the cutoff |
| `CircuitBreaker.CircuitBreaker.IsGlobalTripped` | oasisagent/engine/circuit_breaker.py:173-206 | stays on for the pause, then trips again or clears by the failure rate of at least 5 attempts |
| `CircuitBreaker.CircuitBreaker.Check` | oasisagent/engine/circuit_breaker.py:95-157 | global pause, then attempts in the window, then cooldown decide, in that order |
| `CircuitBreaker.CircuitBreaker.RecordAttempt` | oasisagent/engine/circuit_breaker.py:80-93 | appends and answers as a check |
| `CircuitBreaker.CircuitBreaker.Reset` | oasisagent/engine/circuit_breaker.py:159-171 | one entity's attempts, or everything and the pause |
| `CircuitBreaker.PruningIsInvisible` | oasisagent/engine/circuit_breaker.py:217-220 | on every run over a nondecreasing clock, resets included, the answers are those of a breaker that keeps the whole history and recounts |
| `BreakerHistory.VerdictsAreDeserved` | oasisagent/engine/circuit_breaker.py:80-220 | for every run of a monotonic clock, pruning and resets included, each answer told by the operations alone: global trip if and only if an earlier trip is inside its pause with no full reset since, or at least 5 remembered attempts are in the window with failures at or above the rate; else the entity's maximum in the window; else one of those less than the cooldown back; else allowed |
| `BreakerHistory.TrippedIff` | oasisagent/engine/circuit_breaker.py:173-206 | an operation leaves the breaker tripped if and only if it finds it so in that sense |
| `CircuitBreaker.PauseHolds` | oasisagent/engine/circuit_breaker.py:177-184 | once tripped, every check refuses until the pause is over or everything is reset |
| `CircuitBreaker.EveryTripIsEarned` | oasisagent/engine/circuit_breaker.py:186-206 | the pruning breaker is tripped only because some check at that reading saw at least 5 attempts with failures/total at or above the threshold, recounted from the whole history |
| `CircuitBreaker.ObedientClientIsLimited` | oasisagent/engine/circuit_breaker.py:80-157 | a client of the pruning breaker that attempts only on an unused allowed check has, of everything it ever recorded, at most max attempts of an entity in any interval of window length, and consecutive ones at least min(cooldown, window) apart |
| `EventQueue.EventQueue.PutNowait` | oasisagent/engine/queue.py:76-99 | deduplicate, then refuse when full, then record and warn |
| `EventQueue.EventQueue.GetNext` | oasisagent/engine/queue.py:101-105 | first in first out, with the warning cleared at half capacity |
| `EventQueue.EventQueue.MaybePruneSeen` | oasisagent/engine/queue.py:173-190 | at most once a minute drops exactly the entries older than the window |
| `EventQueue.EventQueue.IsDuplicate` | oasisagent/engine/queue.py:147-162 | a duplicate if and only if its nonempty key was recorded less than the window ago |
| `EventQueue.QueueConserves` | oasisagent/engine/queue.py:76-105 | over any run accepted == dequeued + queued in order, the size never exceeds the maximum, flag off implies below 80% and flag on implies above 50% |
| `EventQueue.PruningIsInvisible` | oasisagent/engine/queue.py:173-190 | the answers equal those of a never-pruned seen map |
| `EventQueue.DedupWindowHolds` | oasisagent/engine/queue.py:147-171 | for the pruned queue: dropped if and only if an event with its key was accepted less than a window before, so accepted ones are at least the window apart |
| `EventQueue.AnswersAre` | oasisagent/engine/queue.py:76-99 | after any run and for any window: deduplicated if and only if shadowed, else refused as full if and only if the queue holds its maximum, else appended |
| `EventQueue.WarnedIffCrowded` | oasisagent/engine/queue.py:192-222 | the warning is on exactly while the queue, once at four fifths, has not been at half or less again |
| `EventQueue.PruneKeepsExactly` | oasisagent/engine/queue.py:173-190 | the keys kept are exactly those accepted no longer than the window before the last prune, which a put with a key leaves less than a minute behind |
| `Suppression.EventSuppressionTracker.ResetEntity` | oasisagent/orchestrator.py:151-159 | drops the entity's counters but possibly one, and no other entity's |
| `Suppression.EventSuppressionTracker.CheckEvent` | oasisagent/orchestrator.py:105-141 | the tracker's counters and answer are those the results below are about |
| `Suppression.CountersAreRuns` | oasisagent/orchestrator.py:105-141 | after any history an entity has exactly one counter, the length of its trailing run of identical events, or none after a recovery |
| `Suppression.AnswerIsPlaceInRun` | oasisagent/orchestrator.py:136-141 | an event is suppressed if and only if it is no recovery and its place in its run exceeds the threshold; the answer is that place |
| `Suppression.RecoveryIff` | oasisagent/orchestrator.py:85-121 | recoveries are exactly the event types with one of the three suffixes |
| `Suppression.RunPassesUpToThreshold` | oasisagent/orchestrator.py:105-141 | of a maximal run of n identical events of an entity, interleaved in any way with other entities' events, the tracker lets exactly min(n, threshold) pass, none for a negative threshold, and all n of a recovery event |
| `Correlator.EventCorrelator.CheckEvent` | oasisagent/engine/correlator.py:61-100 | prune, then lead or join; with a window of zero every event leads alone |
| `Correlator.EventCorrelator.PruneExpired` | oasisagent/engine/correlator.py:102-114 | drops exactly the groups begun more than the window ago |
| `Correlator.PruningIsInvisible` | oasisagent/engine/correlator.py:102-114 | the answers are those of a correlator that never prunes |
| `Correlator.CorrelationWindowHolds` | oasisagent/engine/correlator.py:61-100 | an event is correlated if and only if an earlier leader of its system covers it, it names one that does with that one's correlation id, and leaders of one system are more than the window apart |
| `Correlator.LeadersDraw` | oasisagent/engine/correlator.py:70-90 | a leader's group has the id drawn for it; with a window of zero every event is alone under its own id |
| `Correlator.PruneKeepsExactly` | oasisagent/engine/correlator.py:102-114 | the groups kept are exactly those of a correlator that never prunes but those past the window at the last check |
| `Correlator.CountsAreGiven` | oasisagent/engine/correlator.py:94-95 | a group's count is the number of events given its correlation id, and groups never share one |
| `AuditBuffer.AuditWriter.TryWritePoint` | oasisagent/audit/influxdb.py:383-415 | up to three calls, stopping at the first success or permanent failure |
| `AuditBuffer.AuditWriter.EnqueuePoint` | oasisagent/audit/influxdb.py:417-435 | the bounded deque, dropping its oldest when full |
| `AuditBuffer.AuditWriter.DrainBuffer` | oasisagent/audit/influxdb.py:437-468 | flushes from the front and stops at the first failure; terminates for every pattern of failures |
| `AuditBuffer.AuditWriter.WritePoint` | oasisagent/audit/influxdb.py:362-381 | drain after success, buffer after failure |
| `AuditBuffer.NothingIsLost` | oasisagent/audit/influxdb.py:362-468 | for every pattern of failures each submitted point is in exactly one of written, buffered, evicted; removed + buffer == arrived in order; the bound holds |
| `AuditBuffer.EvictionIsOldestOfFull` | oasisagent/audit/influxdb.py:417-435 | a write evicts if and only if the buffer is full and the write failed, and then exactly the oldest |
| `AuditBuffer.RecoveryDeliversBacklog` | oasisagent/audit/influxdb.py:437-468 | once the server answers, the next write delivers its point and then the whole backlog, oldest first |
| `AuditBuffer.WriteIs` | oasisagent/audit/influxdb.py:362-468 | a write told by the server's answers: up to three calls to the first that is not worth retrying; if that one succeeds the point and then the front of the backlog to the first failure are written, with one call each and one more for that failure; else the point is buffered |
| `AuditBuffer.DeliveredIff` | oasisagent/audit/influxdb.py:383-415 | a point is delivered by its own attempts if and only if one of the first three calls succeeds and all before it are worth retrying |
| `AuditBuffer.WrittenIsAnswered` | oasisagent/audit/influxdb.py:362-468 | after any writes the server has exactly as many points as calls were answered with a success, drains included |
| `PollRotation.Poller.PollCycle` | oasisagent/ingestion/portainer.py:501-560 | drops the no longer eligible, appends the new, rotates by the last count, polls a prefix, and counts only what answered |
| `PollRotation.StableOnlyRotates` | oasisagent/ingestion/portainer.py:505-511 | with a stable eligible set synchronising changes nothing |
| `PollRotation.EligibleAreKept` | oasisagent/ingestion/portainer.py:505-508 | synchronising keeps exactly the eligible, in their order |
| `PollRotation.RotationMoves` | oasisagent/ingestion/portainer.py:513-515 | a rotation by any count moves every container that many places, less full turns, to the front |
| `PollRotation.AnsweringAreResults` | oasisagent/ingestion/portainer.py:525-541 | the results are exactly those that answered, in the order attempted |
| `PollRotation.RoundRobinIsFair` | oasisagent/ingestion/portainer.py:501-560 | with every fetch answering, after any cycles of any reach the poll counts of two containers differ by at most one, and each is polled once as many polls were made as there are containers |
| `PollRotation.ResumesIffNoneFailed` | oasisagent/ingestion/portainer.py:513-560 | the cycle after this one starts after everything this one attempted if and only if every attempted fetch succeeded, or everything was attempted and every fetch failed |
| `PollRotation.FairIffAllOrNoneAnswer` | oasisagent/ingestion/portainer.py:484-487 | the promise of equal polling for containers that each always or never answer: poll counts stay within one of each other for cycles of any reach if and only if every container answers or none does |
| `PollRotation.OneFailureStarvesTheRest` | oasisagent/ingestion/portainer.py:560 | with time for one fetch and a failing first container no other is ever polled |
| `ConfigStore.SplitSecrets` | oasisagent/db/registry.py:371-392 | the split loop separates exactly the secret fields |
| `ConfigStore.MergeUndoesSplit` | oasisagent/db/registry.py:395-403 | merging undoes splitting and no secret field remains in the plain part |
| `ConfigStore.MaskFields` | oasisagent/db/config_store.py:539-542 | exactly the truthy secret fields are masked |
| `ConfigStore.TypedTable.ReadRows` | oasisagent/db/config_store.py:316-334 | every row with its secrets merged in |
| `ConfigStore.TypedTable.ReadRow` | oasisagent/db/config_store.py:336-355 | the row of that id as read, or none |
| `ConfigStore.TypedTable.CreateRow` | oasisagent/db/config_store.py:357-394 | refuses unknown types, invalid configurations and taken names; names and ids stay unique |
| `ConfigStore.TypedTable.UpdateRow` | oasisagent/db/config_store.py:396-441 | merges into the re-read configuration, revalidates and resplits; refuses names taken by others |
| `ConfigStore.CreateIs` | oasisagent/db/config_store.py:357-394 | the refusals of a creation in order, and the one row it adds |
| `ConfigStore.UpdateIs` | oasisagent/db/config_store.py:396-441 | the refusals of an update in order, and the one row it changes: what the update leaves out stays, its configuration is laid over the row's, and secret fields are stored apart |
| `ConfigStore.TypedTable.MaskRow` | oasisagent/db/config_store.py:532-543 | rows of unregistered types are returned unmasked |
| `ConfigStore.AgentSettings.Update` | oasisagent/db/config_store.py:295-310 | refuses unknown fields and settings its model rejects; else the updates are written over the settings |
| `ConfigTransfer.ReplaceMask` | oasisagent/cli_config.py:73-77 | exactly the values equal to the mask become the placeholder |
| `ConfigTransfer.ExportTable` | oasisagent/cli_config.py:67-85 | every row in order, masked unless secrets are included |
| `ConfigTransfer.EntryShows` | oasisagent/cli_config.py:67-85 | an entry has its row's name, type, flag and fields; masked, exactly the declared secrets that are set and the values equal to the mask become the placeholder |
| `ConfigTransfer.UpsertRows` | oasisagent/cli_config.py:168-202 | rows are updated or created by name against a snapshot; the first error ends the import with the counts so far |
| `ConfigTransfer.ErrorEnds` | oasisagent/cli_config.py:205-297 | what was written before an error stays and nothing after it is written |
| `ConfigTransfer.ImportFile` | oasisagent/cli_config.py:205-297 | unknown types and newer schema versions are refused before anything is written; then the agent's settings and the three sections in turn, each error ending the import |
| `ConfigTransfer.EntryMeans` | oasisagent/cli_config.py:163-183 | an entry is enabled unless it says not, and asks for its values but those equal to the placeholder |
| `ConfigTransfer.RefusedWritesNothing` | oasisagent/cli_config.py:222-240 | a file with an entry of an unknown type in any section, or of a newer schema version, changes nothing at all |
| `ConfigTransfer.FirstErrorStops` | oasisagent/cli_config.py:245-294 | agent settings, connectors, services and notifications are imported in turn, and an error leaves everything after it as it was and is the import's |
| `ConfigTransfer.CountsTell` | oasisagent/cli_config.py:168-202 | created and updated are the entries imported before the first error, split by whether the snapshot has the name; the table grew by the created |
| `ConfigImport.ImportImposesFile` | oasisagent/cli_config.py:168-202 | for any section whose import succeeds, name by name and entry by entry: a known name gets the flag, and over its present values those of the snapshot and then the entry's, keeping type, id and place; a new name gets exactly what its entry says and has one entry; names without an entry keep everything |
| `ConfigImport.OnlyEntryImposes` | oasisagent/cli_config.py:185-194 | the only entry of a known name keeps its type and every value that the entry leaves out or masks |
| `ConfigImport.SecondEntryKeepsFirstIff` | oasisagent/cli_config.py:185-194 | two entries of a known name come out as merged in turn if and only if the second has every known field that the first changes |
| `ConfigImport.SecondEntryPutsBack` | oasisagent/cli_config.py:185-194 | f at a, then entries setting f to b and g to c: f ends at a |
| `ConfigTransfer.MaskedExportHidesSecrets` | oasisagent/cli_config.py:71-78 | the masked export of a stored row is the same whatever its secrets are set to if and only if each that is set is declared secret by the row's registered type |
| `ConfigTransfer.UnregisteredSecretIsShown` | oasisagent/db/config_store.py:532-537 | a row of an unregistered type is exported with its password in clear |
| `ConfigTransfer.MaskedImportChangesNothing` | oasisagent/cli_config.py:163-202 | importing a database's own masked export leaves every row as read and the agent's settings unchanged, secrets included, even when values equal the mask or the placeholder and even if it fails part way; it succeeds if and only if the settings and every row are still acceptable |
| `ConfigTransfer.UnmaskedImportReproducesIff` | oasisagent/cli_config.py:163-202 | importing an unmasked export into an empty database succeeds and reproduces every row and the settings if and only if the schema is not older, all of them are acceptable and no top-level value of a row equals the placeholder |
| `ConfigTransfer.PlaceholderIsLost` | oasisagent/cli_config.py:163-165 | a row whose one value is the placeholder comes back empty |

## Left out

- Orders the source leaves to SQLite or to hashing (rows of `list_edges`, dictionary and set iteration, new polling keys) are left open: the model holds for every order.
- Details that no decision depends on: log messages, diff texts, timestamps in rows, error messages and result payloads of steps, UUIDs (any fresh ids).
- Encryption, JSON, YAML and SQL text: encryption and encoding are identities, statements are operations on maps; validation by Pydantic is an arbitrary predicate per type.
- Reading the failure rate and fill ratio in floating point: both are compared as integer fractions, and `julianday` ages as integer differences.
- Nested configuration values: stripping and masking look at top-level values only, in the source as in the model, so nested values are opaque here.
- The YAML structure checks of an import other than unknown types, and agent sections that are not mappings, which the source ignores.
- The first validation pass over a proposed plan, which parses raw steps.
- Modes without a database (`db is None`), used by tests only.
- Handler lookup by name and action payloads: a step's handler outcome is given per order, with a flag for a missing handler.
- The plan-completed callback and notifications around approval.
- The breaker's effect on plans: the executor only records attempts, and the model logs them; nothing in a plan's run asks the breaker.
- The load and the save inside an approve_plan call behind the queue are one stretch in `PlanGate.dfy`, and what becomes of the plan after its decision is `PlanApproval.dfy`.
- Coupling of queue expiry to plan expiry: the expiry loop never calls `expire_plan`.
- `EventQueue.put` (blocking), `task_done` and `drain`: `put` checks, waits and then records, so the sequential results do not hold for it; `drain` leaves the warning flag as it is.
- Concurrent audit writes and drains, and starting and stopping the writer: one write at a time, between start and stop.
- The polling semaphore and deadline: a cycle attempts a prefix of the order, however long; results about runs take a stable eligible set.
- Failing discovery adapters, exceptions in the middle of a cycle, edge synthesis, and the cleanup before the loop, which changes the store without the graph.
- Other queries of the graph (`host_for_service`, `subnet_for_ip`, `devices_serving_subnet`, `detect_stale`, the D3 export) and deletions by hand.
- ConfigStore.AgentSettings.Update: empty updates, of which the source makes an invalid statement, are accepted; an import never sends them.
- Deleting configuration rows and the other CRUD wrappers.
- The cross-system correlator, the notification store, guardrails, known fixes, backoff, topic matching, threshold alerts and learning counters.
- Ingestion adapters other than the rotation, HTTP and MQTT clients, system handlers, language models, metrics, the web interface.
