# Verified model of the planning backend's core logic

This project models ten pieces of the Django backend that decide things by themselves: how tests are
split over CI shards, which decision trees are accepted and how they are stored, how a workflow run
pauses and resumes, which triggers are admitted, how a board is laid out, how an asset moves through
review, how long a permission bundle may be cached, how column schemas are registered and spreadsheets
renamed, when a login is refused, and how workflow steps are reordered.

Code that changes state is a class or a method over arrays and fields. Most of these methods are proved
equal to a function of the old state, and the theorems are lemmas about those functions. The others state
their effect as a relation: `HasCycle` and `ContainsCycle` (what their report means), `Validate` (which trees
pass, and the fault that a refusal tells), `Commit`, `Post` and
`ModifyItems` (when they succeed, and the new tables), `CleanupFailedScans` (row by row), the cache methods
of `PermissionService` (how far an answer may be from the truth), `ValidateRegistry` and `TryRuleMatch`
(rebuilt indexes, and what makes a match best). Code that only computes is a function.
`dafny verify dfyconfig.toml` checks everything.

| files | what they model |
|---|---|
| `ListScheduling`, `Sharding` | the CI shard hook: longest expected time first, least loaded shard, and the bounds 2 - 1/m of the greedy rule and 4/3 - 1/(3m) of this order |
| `ShardTimes`, `ShardPlacement` | what every module counts as, item by item, and on which shard it is |
| `CycleSearch`, `DecisionTree`, `DecisionStore`, `DecisionCommit`, `DecisionFields`, `RepeatedParents` | validating a recommended decision tree and storing it |
| `GenerationOutputs`, `WorkflowEngine`, `WorkflowRuns` | a run of ordered steps with confirmations, external approvals, resuming and rejecting |
| `WorkflowApprovals`, `WorkflowOrder`, `WorkflowRepeats` | what every run keeps: commits at most once, and exactly when steps repeat |
| `WorkflowLaws` | what a pass leaves behind, told from the rows alone, and how runs end |
| `WorkflowPauses`, `WorkflowDivergence`, `WorkflowExamples` | exactly when a run with pauses ends as one uninterrupted pass, and runs that do not |
| `Triggers`, `TriggerRuns`, `RateWindows`, `TriggerBounds` | the rate limiter, the duplicate check and the log of workflow triggers, which attempts create a run, and how many an hour admits |
| `MiroText`, `MiroItems`, `MiroClusters`, `MiroLayout`, `MiroGeometry`, `MiroValidation`, `MiroRefusals` | board layout and board validation |
| `LineCounts`, `MiroColumns`, `MiroPlaces` | the rows of a text and the height they need, which column an item is in, and where columns and frames end up |
| `AssetReview`, `AssetHistories` | asset status, version status and virus scans, and what they are in terms of the events that happened |
| `PermissionCache`, `PermissionBundles` | permission bundles, their lifetime in the cache and their invalidation |
| `ColumnNames`, `ColumnIndex`, `ColumnWords`, `ColumnRegistrations`, `ColumnRegistry`, `ColumnMatches`, `SpreadsheetRenaming`, `RenamedCells` | the alias index of column schemas, rule-based detection, and renaming a spreadsheet |
| `LoginSecurity`, `LoginService` | failure counters, backoff and lockout |
| `LoginBackoffs`, `LoginCounting` | when a check is refused by backoff and which identifiers a call counts, told from the calls alone |
| `LoginInvariants`, `LoginTraces`, `LoginEnds`, `LoginSuccesses` | lockouts over any sequence of service calls: when rows appear, what is left when they end, what a success during one does |
| `StepReorder` | reordering workflow steps under a uniqueness constraint |
| `Results`, `Json`, `Sequences`, `Sorting`, `StableSorting` | shared: outcomes, decoded JSON, sequences without repeats, Python's stable sort |

External effects are parameters: executors, commits of approvals, virus verdicts, the clock readings of
each operation, cache failures, the inference of a decision topic, the measured test durations. Times and
durations are exact reals.

## What the proofs found

- **A decision tree that names one parent twice is accepted and cannot be stored.** The validator does
  not compare parents with each other (`backend/agent/generation_registry.py:370-379`), the edge table
  has a unique constraint (`backend/decision/models.py:254-265`). `DecisionCommit.Commit` succeeds
  exactly when no node lists a parent twice, and otherwise leaves the tables as they were;
  `RepeatedParents.TwiceTheSameParent` is a JSON tree that the validator accepts and the commit refuses.
- **`call_llm` loses the requested outputs.** Its output replaces the data without `generation_outputs`
  (`backend/agent/executors.py:222-229`), and after a pause the missing entry means "all outputs": the run
  no longer does what it would have done without the pause (`WorkflowExamples.CallLlmLosesTheRequest`).
  `WorkflowDivergence.PausesDoNotMatter` states for every run, with confirmations and approvals, when it
  ends as one uninterrupted pass: if and only if, at every pause along that pass, the data that the run goes
  on from ask for outputs and make it do the same up to the next pause (`ChoicesKept`). Comparing each
  resume with the request in force just before it is not enough: in `WorkflowExamples.LostBetweenPauses`
  every resume agrees with that and the run differs all the same. An approval goes on from its commit's
  output alone, so a commit that returns nothing loses the data too (`backend/agent/services.py:1355`); the
  commits of workflow steps hand their step's input on.
- **An executor that raises during a resume leaves the run resumable, and the next resume repeats steps.**
  The status stays "awaiting_confirmation". `WorkflowOrder.RaisedExactly` follows the pass and says when an
  executor raises, `WorkflowOrder.ResumeIsValid` that this is the only way a resume leaves an invalid run,
  and `WorkflowOrder.RaisingRepeats` that, while the stored request stays the same, resuming once more
  repeats a step exactly then (`ResumedTwiceRises` for any stored request). Over any actions, orders rise exactly
  when no resume on the way repeats a step (`WorkflowRepeats.RisesWhenNoResumeRepeats`).
  `WorkflowExamples.RaisingRepeatsSteps` is a run that repeats one. Requests still commit at most once
  (`WorkflowApprovals.EveryRunIsAccounted`).
- **The duplicate check remembers one context.** A, B, A all pass within five minutes
  (`Triggers.AlternatingContextsPass`), although the docstring at
  `backend/agent/trigger_service.py:187-190` speaks of the same trigger within the window.
  `Triggers.DuplicateExactly` states when an attempt is refused.
- **"100 per hour" is 100 per window.** No hour admits more than 200 triggers, and 199 when the end of the
  hour is left out (`TriggerBounds.HourlyBounds`). Both numbers are reached by manual triggers: one at 0,
  99 at any later instant of the hour and 100 at its end (`TriggerBounds.HourlyBoundsAreReached`). A stretch of
  time in which no window opens after an earlier admission admits at most 100 (`HundredPerWindow`), and once
  one opens again, 99 more triggers make it more than 100 (`OpeningAgainAdmitsMore`).
- **A success during a lockout breaks the count of ten.** The service clears the counters of a successful
  login without looking at lockouts (`backend/authentication/login_security.py:115-120`), so a request that
  was checked before another one's tenth failure can clear an active lockout's counters. Then a failure is
  still counted when the lockout ends (`LoginSuccesses.SlipThrough`: ten failures at 0, a success at 1, a
  failure at 2, lockout until 300, counter until 302), and a tenth event can pass without a new lockout
  (`TenthUnnoticed`). For all sequences of calls, `LoginTraces.LockoutsExactly` says when a lockout row is
  created; rows come at tenth events exactly, from every point of a sequence on, if and only if no identifier
  succeeds while it is locked out (`LoginSuccesses.ExactWhenNoSuccessWhileLocked`). Requests that do not
  overlap never do (`RequestsAreSafe`). When a lockout ends, the failure counter of an identifier that
  was not listed first may still run (`LoginEnds.LockoutEndsClean` says when, and `LockoutEndsExactly` what is left
  after any sequence of calls).
- **A rejection can be acknowledged although there is a draft.** The review guards once asked for a finalized
  latest version and now only ask for some version (`backend/asset/models.py:182-210`). On every reachable asset
  the two agree but for this one case (`AssetReview.LooseGuardsExactly`, `AcknowledgedWithDraft`).
- **Reordering can fail.** When a step left out of the request holds an order in 1..n, the second loop
  violates the partial unique constraint and the transaction is rolled back; so does a temporary order
  above the range of the integer column. `StepReorder.Workflow.Post` states exactly when a request succeeds,
  `StepReorder.PartialListFails` is a request for one of two steps that fails.
- **Renaming a spreadsheet cannot always be undone.** `SpreadsheetRenaming.RoundTrip` gives the exact
  condition: no two keys get the same name, a column called "unknown" keeps its name, and the sheet has no
  entries but name, columns and rows, since a renaming drops all others. Two headers of one
  column lose a value for good (`TwoHeadersOfOneColumn`).
- **A bundle computed in a transaction can outlive a change.** It is stored when the transaction commits
  (`backend/access_control/services.py:122-135`), also when the user's roles changed in between and the entry was
  dropped before it was there. `PermissionCache.PermissionService.StoreDeferred` says when; in `StoredTooLate` a user
  without roles is answered a permission for ever.
- `cleanup_failed_scans` filters on `updated_at`, which the version model does not have
  (`backend/asset/tasks.py:296-340`, `backend/asset/models.py:269-325`); the model keeps the reset as a
  step that may happen to any version whose scan failed.

## Model

| member | source | states |
|---|---|---|
| ListScheduling.LoadsAddUp | backend/conftest.py:57-62 | however the modules are spread, the loads add up to the total expected time |
| ListScheduling.LeastLoaded | backend/conftest.py:60 | the chosen shard has the smallest load, and is the first such shard |
| ListScheduling.NextTurn | backend/conftest.py:59-62 | after every turn of the loop the stored loads are the sums of the times placed on each shard |
| ListScheduling.GreedyIsBalanced | backend/conftest.py:57-62 | at every point any two loads differ by at most the longest time placed so far |
| ListScheduling.GreedyAnyOrder | backend/conftest.py:57-62 | in any order, m times a load is at most the total plus (m-1) times the longest job |
| ListScheduling.GreedyWithinTwo | backend/conftest.py:57-62 | in any order, the heaviest load is at most 2 - 1/m times the heaviest load of any assignment |
| ListScheduling.LongJobFits | backend/conftest.py:57-62 | while jobs are longer than a third of the optimum, the rule places them within the optimum |
| ListScheduling.LongestFirst | backend/conftest.py:57-62 | longest first, every load is within 4/3 - 1/(3m) of any bound that some assignment meets |
| ListScheduling.LongestFirstWithinFourThirds | backend/conftest.py:57-62 | the LPT theorem: the heaviest load is at most 4/3 - 1/(3m) times the heaviest load of any assignment |
| Sharding.GroupByModule | backend/conftest.py:42-44 | the modules in order of first appearance, each with all its items in collection order |
| Sharding.AveragePerTest | backend/conftest.py:52-54 | seconds per test over the modules with a known duration, 1 when there are none |
| Sharding.ExpectedTimes | backend/conftest.py:52-55 | every module's measured duration, or the average per test times its tests |
| ShardTimes.CutAtFirstColons | backend/conftest.py:43 | a module's path is what stands before the first "::" of the item's id |
| ShardTimes.EachModuleHasATime | backend/conftest.py:42-55 | the modules that occur have a time, and no others |
| ShardTimes.ExpectedExactly | backend/conftest.py:52-55 | a measured module counts as measured; the time of another one, times the items in measured modules, is its items times the measured seconds; without a measured module it is its items |
| Sharding.PlaceInOrder | backend/conftest.py:57-62 | the loop computes the greedy assignment of the sorted modules |
| ShardPlacement.EachOnLeastLoaded | backend/conftest.py:57-62 | every module is on the first of the shards least loaded by the modules that are longer, or as long and earlier by path |
| Sharding.Split | backend/conftest.py:64-65 | the selected and deselected items, each in collection order |
| Sharding.Session.ModifyItems | backend/conftest.py:22-68 | nothing happens without both variables, a variable that is no integer raises, an index outside 0..count-1 is a usage error, otherwise the items are replaced by this shard's |
| Sharding.ShardsForgetOrder | backend/conftest.py:42-62 | the module-to-shard map is the same for every order in which the items were collected |
| Sharding.EachItemOnOneShard | backend/conftest.py:57-65 | over the indices 0..m-1 each item is selected by exactly one shard and deselected by the others |
| Sharding.ModulesAreWhole | backend/conftest.py:64-65 | two items of one module are selected by the same shards |
| Sharding.SelectionKeepsOrder | backend/conftest.py:64-68 | the selection stands in collection order |
| Sharding.SplitIsNearBest | backend/conftest.py:52-62 | for non-negative durations the heaviest shard is within 4/3 - 1/(3m) of the best split into whole modules |
| CycleSearch.Search.HasCycle | backend/agent/generation_registry.py:423-437 | the recursive search terminates; a reported cycle exists, and otherwise every visited node has its parents visited before it |
| CycleSearch.ContainsCycle | backend/agent/generation_registry.py:422-443 | over all start nodes a cycle is reported exactly when the parent graph has one |
| DecisionTree.CheckNode | backend/agent/generation_registry.py:350-393 | a node is accepted exactly when well shaped and its reference is new; otherwise the error names the first fault in the order of the checks |
| DecisionTree.CheckNodes | backend/agent/generation_registry.py:349-393 | the list is accepted exactly when every node is well shaped and references are unique; otherwise the error is that of the first faulty node |
| DecisionTree.CheckLayers | backend/agent/generation_registry.py:395-420 | accepted exactly when parents exist in strictly lower layers and only layer 0 is parentless; otherwise the error is one of the first node that breaks this |
| DecisionTree.Validate | backend/agent/generation_registry.py:334-445 | exactly the valid trees pass, a refusal tells the fault found first, and the final cycle search never reports a cycle |
| DecisionTree.ParentlessIsLayerZero | backend/agent/generation_registry.py:395-420 | in an accepted tree a node is parentless exactly when its layer is 0 |
| DecisionTree.ChainIsWithinLayer | backend/agent/generation_registry.py:395-420 | a chain of parents from a node is no longer than its layer |
| DecisionTree.LayeredIsAcyclic | backend/agent/generation_registry.py:395-443 | a tree that passes the layer loop has no cycle |
| DecisionTree.ReachesRoot | backend/agent/generation_registry.py:395-420 | every node has a chain of parents to a root in layer 0 |
| DecisionStore.HasPath | backend/decision/services.py:135-160 | the search with an explicit stack finds a path exactly when one exists |
| DecisionStore.Store.AddEdge | backend/agent/decision_tree_service.py:72-80 | an edge is stored unless it is a self-reference, closes a cycle or exists already |
| DecisionStore.Store.AddParents | backend/agent/decision_tree_service.py:70-80 | all edges of a child are stored exactly when its parents are distinct |
| DecisionCommit.CreateDecisions | backend/agent/decision_tree_service.py:34-68 | one decision per node, numbered in sorted order, with the node's fields, empty ones as none, and its own or an inferred topic |
| DecisionCommit.CreateEdges | backend/agent/decision_tree_service.py:70-80 | no lookup fails, no cycle is met, and the edges are added child after child |
| DecisionCommit.Commit | backend/agent/decision_tree_service.py:26-86 | all or nothing: succeeds exactly when no node lists a parent twice, with the exact new tables |
| DecisionCommit.CreationOrderIsInOrder | backend/agent/decision_tree_service.py:30 | sorting by layer and reference keeps the nodes and puts lower layers first |
| DecisionFields.StoredAsGiven | backend/agent/decision_tree_service.py:34-68 | of every node of an accepted JSON tree one decision is stored under the number reported for its reference: title cut at 255, topic cut at 64 or inferred from the stored title and the topics before it, the other fields by their keys, empty ones as none |
| DecisionFields.EdgesAsGiven | backend/agent/decision_tree_service.py:70-80 | the stored edges are exactly the parent references of the JSON, from parent to child |
| DecisionFields.NumberedByLayerAndRef | backend/agent/decision_tree_service.py:30 | decisions are numbered by layer, and within a layer by reference |
| DecisionCommit.ParentsComeFirst | backend/agent/decision_tree_service.py:30-68 | every parent is created before each of its children |
| DecisionCommit.EdgesAreTheReferences | backend/agent/decision_tree_service.py:70-80 | as many edges as parent references, and each edge is one reference renamed |
| DecisionCommit.RenamingIsInjective | backend/agent/decision_tree_service.py:40-68 | different references get different decisions |
| RepeatedParents.TwiceTheSameParent | backend/agent/generation_registry.py:370-379 | a JSON tree that is accepted although a node names its parent twice, so that its commit fails |
| GenerationOutputs.CollectExactly | backend/agent/generation_registry.py:140-167 | a list of outputs is accepted exactly when every entry names one; the result names each once |
| GenerationOutputs.AskedForOne | backend/agent/generation_registry.py:140-167 | a run asked for one output by name skips the steps made for the others and no other step |
| WorkflowLaws.SkippedExactly | backend/agent/generation_registry.py:517-524 | a step is skipped exactly when it produces an output that was not asked for |
| WorkflowLaws.PassExactly | backend/agent/services.py:2707-2861 | a pass executes exactly the steps not to be skipped, up to the first that stops it; each gets what the one before handed on, and the last decides how the run ends |
| WorkflowLaws.PassMoves | backend/agent/services.py:2736-2852 | after a pass the run stands one after the last step that it skipped, gave up after retries or paused at |
| WorkflowLaws.ExecuteExactly | backend/agent/services.py:2707-2861 | the steps from the run's order on are such a pass, and a request for no valid outputs changes nothing |
| WorkflowLaws.ResumeExactly | backend/agent/services.py:1448-1464 | a resume goes on with what the completed step of the highest order stored, or with nothing before any |
| WorkflowLaws.LastCompletedExactly | backend/agent/services.py:2905-2918 | that execution is completed, has the highest order of all completed ones, and is the latest of several |
| WorkflowLaws.ApproveExactly | backend/agent/services.py:1278-1355 | an approval completes its step with the commit's output and goes on after it with that output alone |
| WorkflowLaws.EveryRunEndsInOrder | backend/agent/services.py:2707-2918 | in every run of every workflow a failed step is the last one and the run failed, and the execution behind a request shows what became of it |
| WorkflowLaws.EndedIsOver | backend/agent/services.py:1278-2918 | no action changes a run that has completed or failed |
| WorkflowOrder.TurnIsSound | backend/agent/services.py:2736-2852 | each turn of the loop appends at most one execution of a higher order and keeps requests and commits in step |
| WorkflowOrder.ExecuteFromLeaves | backend/agent/services.py:2707-2861 | wherever a pass ends, orders have risen and executions and approvals only grew |
| WorkflowOrder.ResumesFromConfirmation | backend/agent/services.py:2905-2918 | the stored output a resume reads is the confirmation step's own input |
| WorkflowOrder.StartIsValid | backend/agent/services.py:2610-2642 | a started run is valid |
| WorkflowOrder.RaisedExactly | backend/agent/services.py:2736-2861 | a pass ends with a raised step exactly when it reaches, without skipping it, a step whose executor raises |
| WorkflowOrder.ResumeIsValid | backend/agent/services.py:1448-1464 | resuming keeps a valid run valid exactly when no executor that the resumed pass reaches raises |
| WorkflowOrder.ResumedTwiceRises | backend/agent/services.py:2905-2918 | resuming twice repeats a step exactly when the first resume raised and the second does not skip all steps up to the one that raised |
| WorkflowOrder.RaisingRepeats | backend/agent/services.py:2905-2918 | while the stored request stays the same, resuming again repeats a step exactly when an executor raised |
| WorkflowOrder.ApproveIsValid | backend/agent/services.py:1278-1355 | an approval commits its request once and goes on after its step |
| WorkflowOrder.RejectIsValid | backend/agent/approval_gate.py:490-545 | a rejection keeps the run valid |
| WorkflowApprovals.EveryRunIsAccounted | backend/agent/services.py:1278-2918 | over any resumes, approvals and rejections of any workflow, whatever its executors do: each request commits at most once, exactly when it is approved, and an open request is the run's last execution |
| WorkflowOrder.EveryRunIsValid | backend/agent/services.py:2707-2918 | over any resumes, approvals and rejections: orders strictly increase and a waiting run can go on from its confirmation, at every point, exactly when no resume meets a raising executor |
| WorkflowApprovals.RejectedIsFinal | backend/agent/approval_gate.py:490-545 | after a rejection no action changes the run, in any run of any workflow |
| WorkflowPauses.ContinuedIsUninterrupted | backend/agent/services.py:1278-2918 | from any point of a pass along which the choices are kept, continuing at every pause, by resuming or approving, ends as the uninterrupted pass |
| WorkflowDivergence.PausesDoNotMatter | backend/agent/services.py:1278-2918 | a whole run with confirmations and approvals ends as the uninterrupted pass, executions, commits and data included, if and only if every pause along that pass keeps the choices up to the next one |
| WorkflowDivergence.ResumingDoesNotMatter | backend/agent/services.py:2610-2918 | the same for a run that is only resumed, against the pass that stops at the first request |
| WorkflowDivergence.KeptRequestIsEnough | backend/agent/services.py:1278-2918 | when executors and commits keep the request, a run whose requests are approved ends as the pass in which the pausing steps return what their commits return |
| WorkflowDivergence.DiffersForEver | backend/agent/services.py:2707-2918 | once a continued run skips or runs a step that the uninterrupted pass does not, or runs it on other data, nothing the user continues brings them together |
| WorkflowDivergence.OnlyWhenKept | backend/agent/services.py:1278-2918 | a run that reaches the end of the uninterrupted pass has kept the choices at every pause |
| WorkflowPauses.SameRunWhenSameChoices | backend/agent/generation_registry.py:517-524 | two requests lead to the same run exactly when they skip the same steps along it |
| WorkflowPauses.ResumeFollowsStoredRequest | backend/agent/executors.py:222-229 | when a confirmation stored another request, resuming differs exactly when a reached step is skipped under one only |
| WorkflowExamples.CallLlmLosesTheRequest | backend/agent/executors.py:222-229 | a run that asked for a board only creates tasks after the pause |
| WorkflowExamples.LostBetweenPauses | backend/agent/executors.py:222-229 | a run with two confirmations in which each resume follows the request in force, and which never ends as the uninterrupted pass |
| WorkflowRepeats.ActExtends | backend/agent/services.py:1278-2918 | no action changes the order or the input of an execution |
| WorkflowRepeats.RisesWhenNoResumeRepeats | backend/agent/services.py:1278-2918 | over any resumes, approvals and rejections, orders rise exactly when no resume on the way repeats a step |
| WorkflowExamples.RaisingRepeatsSteps | backend/agent/services.py:2905-2918 | a raising executor during a resume makes the next resume repeat a step |
| WorkflowRuns.WorkflowRun.TakeStep | backend/agent/services.py:2736-2852 | one iteration writes exactly the execution row, status, order and pending request of its outcome |
| WorkflowRuns.WorkflowRun.ExecuteSteps | backend/agent/services.py:2707-2861 | the loop leaves the stored run as `Execute` says, of which `ExecuteExactly` and `PassExactly` tell what it means |
| WorkflowRuns.WorkflowRun.ResumeWorkflow | backend/agent/services.py:1448-1464 | only a run awaiting confirmation goes on, from the last completed execution; one whose output is missing raises and stays as it is |
| WorkflowRuns.WorkflowRun.ResolveApproval | backend/agent/services.py:1278-1355 | a pending request is resolved once; a failing commit leaves it pending |
| Triggers.TriggerService.CheckRateLimit | backend/agent/trigger_service.py:162-180 | a refusal saves nothing, a new window starts at 1 |
| Triggers.TriggerService.CheckDuplicate | backend/agent/trigger_service.py:183-215 | refused when the slot holds the same hash from less than five minutes ago, else the slot is overwritten |
| Triggers.TriggerService.ExecuteWorkflowTrigger | backend/agent/trigger_service.py:36-159 | every way out of an attempt, its log row, its run and its state |
| RateWindows.WindowsFit | backend/agent/trigger_service.py:162-180 | the counter stays within 0..100 and every admission lies before the end of the open window |
| RateWindows.CounterCountsWindow | backend/agent/trigger_service.py:162-180 | the counter is the number of admissions in its window, at most 100 |
| RateWindows.HourIsWithin | backend/agent/trigger_service.py:162-180 | up to any point of an hour, the window that is open and the one before it bound the admissions |
| TriggerBounds.AttemptsAreTrace | backend/agent/trigger_service.py:36-180 | the attempts are a trace of the limiter: only admissions move the counter or the window |
| TriggerBounds.HourlyBounds | backend/agent/trigger_service.py:36-180 | at most 200 attempts are admitted, and at most 200 runs created, in any hour that includes its end, and 199 in one that does not |
| TriggerBounds.HourlyBoundsAreReached | backend/agent/trigger_service.py:36-180 | 200 manual triggers that all run within such an hour, and 199 |
| TriggerBounds.HundredPerWindow | backend/agent/trigger_service.py:162-180 | at most 100 in a stretch of time in which no window opens after an earlier admission |
| TriggerBounds.OpeningAgainAdmitsMore | backend/agent/trigger_service.py:162-180 | when a window does open again, 99 further triggers make more than 100 |
| Triggers.SlotHoldsLastPass | backend/agent/trigger_service.py:183-215 | the slot holds the hash and time of the last attempt that passed |
| Triggers.DuplicateExactly | backend/agent/trigger_service.py:183-215 | an attempt is a duplicate exactly when the last pass had its hash and is under five minutes old |
| Triggers.ConsecutivePassesAreApart | backend/agent/trigger_service.py:183-215 | two consecutive passes with one hash are at least five minutes apart |
| Triggers.AlternatingContextsPass | backend/agent/trigger_service.py:183-215 | two contexts in turn pass again within the window |
| Triggers.LogIsComplete | backend/agent/trigger_service.py:61-159 | one log row per attempt on an existing workflow, and "triggered" rows are the runs created |
| TriggerRuns.RunsExactly | backend/agent/trigger_service.py:36-159 | after any attempts, the runs created are those of the attempts on a live workflow, active or manual, within the hundred of their window, no repetition, with conditions met and no exception; and the log tells how every attempt ended |
| TriggerRuns.DecidedExactly | backend/agent/trigger_service.py:61-137 | in terms of the attempts alone: which are counted, which are found new, which create a run and which end in an exception |
| LineWrapping.EnoughRows | backend/agent/miro_generation.py:257-267 | the rows counted hold all visible characters, and every line has one |
| LineCounts.LinesAreVisible | backend/agent/miro_generation.py:261 | the lines of a text hold all that is no line break, in order, and nothing else |
| LineCounts.LinesAreCounted | backend/agent/miro_generation.py:261 | there is one line for every line break and one for what comes after the last |
| LineCounts.CharsPerLineExactly | backend/agent/miro_generation.py:259 | as many characters of 0.58 of the font size, at least a pixel, as fit the width, and at least eight |
| LineCounts.LinesExactly | backend/agent/miro_generation.py:257-278 | wrapped at 24 pixels less than the item's width, the rows have room for the text and, unless there are more line feeds, no line wastes a row |
| LineCounts.HeightExactly | backend/agent/miro_generation.py:289-295 | the height is kept when its whole pixels have room for the text, and otherwise it is the least whole height that has |
| LineCounts.ShortHeights | backend/agent/miro_generation.py:270-295 | the heights of a one-letter text, shape and sticky note, bold and not |
| MiroText.CountWrappedLines | backend/agent/miro_generation.py:257-267 | the line count, which exceeds the line breaks and has room for the whole text |
| MiroItems.EstimatedHeight | backend/agent/miro_generation.py:270-295 | room for all lines and the padding, never below the old height |
| MiroItems.EstimateItemHeight | backend/agent/miro_generation.py:270-295 | computes that height |
| MiroClusters.ClusterFrameColumns | backend/agent/miro_generation.py:298-321 | sorted by place, each item joins the first column within 120 of its average, and columns are sorted downwards |
| MiroClusters.ColumnsPartition | backend/agent/miro_generation.py:298-321 | clustering puts each child in exactly one column |
| MiroClusters.ColumnsRunDown | backend/agent/miro_generation.py:318-319 | a column lists its items from top to bottom, and from left to right at the same height |
| MiroColumns.ColumnExactly | backend/agent/miro_generation.py:306-316 | from left to right, an item is in the first column whose members so far have a mean place within 120 of it, and starts a new column when there is none |
| MiroColumns.LeftToRight | backend/agent/miro_generation.py:302 | that order: by horizontal place, and at the same one by vertical place |
| StableSorting.SortIsStable | backend/agent/miro_generation.py:302-319 | Python's sort, which the layout and the shard hook use: values that tie keep their order |
| MiroLayout.CollectFrames | backend/agent/miro_generation.py:332-336 | the frames by id, a later one replacing an earlier one |
| MiroLayout.CollectChildren | backend/agent/miro_generation.py:337-348 | the text, shape and sticky-note children of every frame in board order |
| MiroLayout.LayOutColumn | backend/agent/miro_generation.py:366-383 | one column is stacked, clamped and measured in place |
| MiroLayout.LayOutFrame | backend/agent/miro_generation.py:350-389 | one frame is laid out and grown in place |
| MiroLayout.NormalizeLayout | backend/agent/miro_generation.py:324-389 | the whole board is laid out in place |
| MiroLayout.LayUpToKeeps | backend/agent/miro_generation.py:350-389 | a layout changes only places and heights |
| MiroGeometry.ColumnsEndInside | backend/agent/miro_generation.py:350-389 | on any board, every column of every frame ends stacked from the top with its gaps, inside the frame |
| MiroPlaces.ColumnsStayPut | backend/agent/miro_generation.py:366-378 | the topmost item of a column keeps its horizontal place when it lies between the paddings; every other item ends at that place, flush with the right padding when it would stick out, or at the left one when it is too wide |
| MiroPlaces.Margins | backend/agent/miro_generation.py:358-383 | in pixels: 24 left and right, 72 at the top, 24 between the items of a column |
| MiroPlaces.FrameHeightExactly | backend/agent/miro_generation.py:385-387 | a frame keeps its height when its children and the bottom padding fit, and otherwise gets the least whole height that is enough |
| MiroGeometry.ChildrenEndInside | backend/agent/miro_generation.py:350-389 | every child ends between top + 72 and bottom - 24, 24 right of the left edge, and 24 before the right one when its width fits |
| MiroGeometry.NoOverlap | backend/agent/miro_generation.py:373-383 | an item starts at least 24 below every item before it in its column, when none in between is estimated at a negative height |
| MiroGeometry.OrderKept | backend/agent/miro_generation.py:318-383 | a column keeps the vertical order its items had |
| MiroGeometry.FramesOnlyGrow | backend/agent/miro_generation.py:385-387 | frames never move and never shrink |
| MiroGeometry.OthersStay | backend/agent/miro_generation.py:324-389 | items that are no frames and no children of one are left alone |
| MiroValidation.ValidateSnapshot | backend/agent/miro_generation.py:392-449 | the first error in board order, or acceptance |
| MiroValidation.AcceptedExactly | backend/agent/miro_generation.py:392-449 | accepted exactly when ids are unique, types known, numbers present, sizes positive and parents exist |
| MiroRefusals.RefusedExactly | backend/agent/miro_generation.py:392-449 | a board is refused for having more than fifty items, or for the first fault, in the order of the checks, of its first faulty item |
| MiroValidation.AcceptedStaysAccepted | backend/agent/miro_generation.py:324-449 | whatever is accepted before the layout is accepted after it |
| AssetReview.Asset.Submit | backend/asset/models.py:61-80 | submission is refused unless the guard holds, and logs its transition |
| AssetReview.Asset.Advance | backend/asset/models.py:82-160 | the five other transitions, each from its one source status |
| AssetReview.Asset.CreateNewVersion | backend/asset/models.py:363-384 | a new draft only when allowed, with a pending scan |
| AssetReview.Asset.UpdateWithFile | backend/asset/models.py:334-361 | only drafts change, a repeated file is refused, a new file resets the scan |
| AssetReview.Asset.DeleteDraft | backend/asset/models.py:387-389 | only drafts are deleted |
| AssetReview.Asset.FinalizeVersion | backend/asset/models.py:393-416 | only a clean draft is finalized |
| AssetReview.Asset.UpdateScanStatus | backend/asset/tasks.py:91-131 | a result is stored through "scanning", and only from pending or scanning |
| AssetReview.Asset.ScanVersion | backend/asset/tasks.py:145-185 | a version without file fails, one that is not pending is left alone, else it gets the verdict |
| AssetReview.Asset.CleanupFailedScans | backend/asset/tasks.py:296-340 | the selected failed scans become pending and nothing else changes |
| AssetReview.ReviewFreezesVersions | backend/asset/models.py:164-241 | in review, approved or archived, no event changes the versions |
| AssetReview.ApplyKeepsReachable | backend/asset/models.py:61-160 | every event keeps the joint invariant of the three machines |
| AssetReview.EveryRunIsReachable | backend/asset/models.py:61-498 | in every reachable state: one draft at most and it is the latest, finalized means clean, reviewed assets have a finalized clean latest version, the log is a chain |
| AssetReview.LogStaysAChain | backend/asset/models.py:61-160 | the transition log leads from NotSubmitted to the current status |
| AssetReview.ViewNumbersRise | backend/asset/views.py:143-151 | the numbering of the create view exceeds all earlier numbers |
| AssetReview.FinalizedIsForever | backend/asset/models.py:334-416 | a finalized version is never changed or removed |
| AssetHistories.VersionIsAsSaid | backend/asset/models.py:334-498 | number, file, scan and stage of a version are what the last accepted event about each of them said |
| AssetHistories.CleanExactly | backend/asset/models.py:349-400 | a version counts as clean exactly when its last upload was followed by a clean verdict, and the file that got the verdict is the one it still has |
| AssetHistories.FinalizedWasScanned | backend/asset/models.py:393-416 | the file of every finalized version got a clean verdict after it was uploaded |
| AssetHistories.SameFileRefused | backend/asset/models.py:343-353 | an upload to a draft is refused exactly when it is the file that the version has |
| AssetHistories.ReplacedFileIsPending | backend/asset/models.py:349-400 | a file that replaces a scanned one cannot be finalized before it is scanned |
| AssetHistories.VersionGuardsExactly | backend/asset/models.py:334-498 | which events a version accepts, by what was last said about its stage and its scan |
| AssetHistories.RowsAreBalance | backend/asset/models.py:363-389 | there are as many versions as accepted creations less accepted deletions |
| AssetHistories.ReviewIsAsSaid | backend/asset/models.py:61-160 | the status is where the last accepted review event led, and the log tells where each of them did |
| AssetHistories.GuardsExactly | backend/asset/models.py:164-241 | outside review, a version can be drafted exactly when all are finalized, and the asset submitted exactly when there is one besides |
| AssetReview.ApprovedAsSubmitted | backend/asset/models.py:61-160 | what is approved is exactly what was submitted |
| AssetReview.EveryAssetIsReachable | backend/asset/models.py:61-498 | the joint invariant holds of every asset from its creation on |
| AssetReview.LooseGuardsExactly | backend/asset/models.py:182-210 | on every asset the five review guards hold exactly when the status allows, and the stricter guards they replaced differ only on acknowledging a rejection while there is a draft |
| AssetReview.AcknowledgedWithDraft | backend/asset/models.py:200-204 | a history after which the two guards differ |
| PermissionCache.SecondsUntil | backend/access_control/services.py:77-97 | at least one second, and less than one second more than the time left |
| PermissionCache.PermissionService.GetUserPermissionBundle | backend/access_control/services.py:41-137 | every answer is the bundle of an earlier instant since which no row changed, but for rows that changed less than a second (plus the store delay) ago |
| PermissionCache.PermissionService.Scan | backend/access_control/services.py:68-99 | the loop over the rows finds the active roles and the seconds until the next change |
| PermissionCache.PermissionService.StoreDeferred | backend/access_control/services.py:122-135 | a bundle deferred to the end of a transaction is stored then, and outlives every change since it was computed |
| PermissionCache.StoredTooLate | backend/access_control/services.py:122-135 | a deferred bundle stored after its user lost the role is answered at any later time |
| PermissionCache.PermissionService.ChangeUserRoles | backend/access_control/services.py:152-190 | saving or deleting a role row drops the user's entry and outdates deferred bundles, and all other cached bundles stay right |
| PermissionCache.PermissionService.ChangeGrants | backend/access_control/services.py:164-200 | saving or deleting a grant drops the entries of its role's users and outdates their deferred bundles, and all other bundles are unaffected |
| PermissionCache.BundleLists | backend/access_control/services.py:101-112 | the list is sorted and holds exactly the permissions that an active row's role has |
| PermissionBundles.ListedOften | backend/access_control/services.py:101-112 | a permission is listed as often as active roles give it |
| PermissionBundles.ExpiredRolesCount | backend/access_control/services.py:107-113 | a user whose roles have all expired has no permission and still counts as having a role; one without rows does not |
| PermissionBundles.AnyRoleIsRight | backend/access_control/services.py:41-137 | whether a user has any role is answered rightly even while rows change |
| PermissionCache.PermissionIsRight | backend/access_control/services.py:41-137 | each permission is answered rightly unless a row whose role has it just changed |
| PermissionCache.TimeoutCoversChanges | backend/access_control/services.py:68-120 | the lifetime does not outlast any row's next change by a second |
| PermissionBundles.LifetimeExactly | backend/access_control/services.py:68-120 | a bundle is kept for the whole seconds, at least one, until the first row starts or ends, or for the default time when that is less |
| PermissionCache.CachedIsRightOrJustChanged | backend/access_control/services.py:55-137 | a bundle still cached is right but for rows that just changed |
| ColumnNames.NormaliseTwice | backend/agent/column_registry.py:398-400 | normal forms have no capitals and single spaces; a second pass changes nothing exactly when the first left no outer space |
| ColumnWords.NormaliseKeepsWords | backend/agent/column_registry.py:398-400 | normalising keeps the words of a name, in lower case, with one space between |
| ColumnIndex.BuildAliasIndex | backend/agent/column_registry.py:413-426 | the index, or the first collision, of a schema |
| ColumnIndex.SchemaIndexIsExact | backend/agent/column_registry.py:413-426 | outside test mode a schema is accepted exactly when no header stands for two columns, and the index sends each canonical name and alias to its own column and knows nothing else |
| ColumnIndex.IndexForgetsOrder | backend/agent/column_registry.py:413-426 | the order of the columns changes neither verdict nor index |
| ColumnRegistrations.NewColumnExactly | backend/agent/column_registry.py:452-465 | a column is accepted exactly when its schema exists, has no such column and knows none of its names |
| ColumnRegistrations.NewSchemaExactly | backend/agent/column_registry.py:438-449 | a schema is accepted exactly when its key is new and it is unambiguous |
| ColumnRegistrations.RegistrationKeeps | backend/agent/column_registry.py:438-465 | a registration keeps every index equal to the rebuilt one and never changes what a known header means |
| ColumnRegistrations.EveryRunKeeps | backend/agent/column_registry.py:438-465 | the same over any sequence of registrations |
| ColumnRegistrations.RegisteredIsFound | backend/agent/column_registry.py:452-465 | a registered column is found under each of its names, whatever is registered later |
| ColumnRegistry.ColumnRegistry.RegisterSchema | backend/agent/column_registry.py:438-449 | writes schema and index together; a failure changes nothing |
| ColumnRegistry.ColumnRegistry.RegisterColumn | backend/agent/column_registry.py:452-465 | writes column and index together; a failure changes nothing |
| ColumnRegistry.ColumnRegistry.ValidateRegistry | backend/agent/column_registry.py:429-435 | all indexes are rebuilt exactly when all schemas are unambiguous or test mode is on, else none |
| ColumnRegistry.MatchHeaders | backend/agent/column_registry.py:546-559 | the mapping, the unknown headers and the number of known ones under one schema |
| ColumnRegistry.BestMatch | backend/agent/column_registry.py:539-578 | the first schema with the highest confidence, if that is at least one half |
| ColumnRegistry.ColumnRegistry.TryRuleMatch | backend/agent/column_registry.py:534-578 | the best match over fresh indexes, or the collision that validation met |
| ColumnRegistry.MatchIsByName | backend/agent/column_registry.py:534-578 | a matched header that a column goes by is mapped to that column |
| ColumnMatches.MatchExactly | backend/agent/column_registry.py:544-574 | outside test mode, a match maps exactly the headers, each to the column that goes by it or to "unknown", lists the unknown ones in order, and its confidence is the share of the known ones |
| ColumnMatches.ConfidenceExactly | backend/agent/column_registry.py:561-562 | the confidence lies between 0 and 1 and is 1 exactly when there are headers and none is unknown |
| SpreadsheetRenaming.NormalizeSheet | backend/agent/column_registry.py:880-903 | one sheet is renamed, a later cell replacing an earlier one with the same new key |
| SpreadsheetRenaming.NormalizeSpreadsheet | backend/agent/column_registry.py:860-905 | an empty mapping returns the data unchanged, otherwise every sheet is renamed and unknown entries are dropped |
| SpreadsheetRenaming.EveryCellKept | backend/agent/column_registry.py:892-897 | when no two keys of a row get the same name every cell keeps its place and value |
| RenamedCells.SheetExactly | backend/agent/column_registry.py:880-903 | columns take the names they are mapped to unless that is "unknown"; each row has one cell for every new name, in order of first occurrence, with the value that stood last under it |
| SpreadsheetRenaming.RoundTrip | backend/agent/column_registry.py:880-903 | some renaming restores the sheet exactly when it has no other entries, the mapping is injective on its keys and a column "unknown" keeps its name, and then the inverse mapping does |
| SpreadsheetRenaming.TwoHeadersOfOneColumn | backend/agent/column_registry.py:892-897 | two headers of one column leave the second value only, which no renaming undoes |
| LoginInvariants.CountOneIsExact | backend/authentication/login_security.py:122-166 | an event locks out its identifier exactly from the tenth of a streak on, and creates a row exactly at the tenth, when no lockout is active |
| LoginInvariants.RecordAbuseIsExact | backend/authentication/login_security.py:122-166 | the loop over identifiers creates a row for exactly those it counts to ten while they have no active lockout, and without a lockout it counts all of them |
| LoginCounting.CountedExactly | backend/authentication/login_security.py:122-166 | the identifiers are counted in order, each time they are listed, up to and including the first that reaches ten, which locks out |
| LoginCounting.FailedCounts | backend/authentication/login_security.py:87-101 | after any calls a failed login counts its identifiers so |
| LoginCounting.CheckedCounts | backend/authentication/login_security.py:59-85 | a check counts its identifiers exactly when it meets no lockout but a backoff in force; otherwise it changes nothing and tells the longest lockout |
| LoginTraces.EveryTraceIsConsistent | backend/authentication/login_security.py:59-233 | over any sequence of checks, failures and successes, counters are streaks and every streak of ten is locked out |
| LoginTraces.LockoutsExactly | backend/authentication/login_security.py:59-166 | after any sequence, a row is created for exactly the identifiers counted to ten or more that have no active lockout |
| LoginTraces.TenthExactly | backend/authentication/login_security.py:59-166 | when no identifier succeeds while locked out, a row is created exactly at the tenth event without a gap of 300 seconds or a success |
| LoginSuccesses.ExactWhenNoSuccessWhileLocked | backend/authentication/login_security.py:59-166 | that no identifier succeeds while locked out is also necessary: rows come at tenth events exactly from every point on if and only if it holds |
| LoginSuccesses.FailureOutlastsLockout | backend/authentication/login_security.py:115-166 | after a success during a lockout, any failure during it is still counted when the lockout ends |
| LoginSuccesses.TenthUnnoticed | backend/authentication/login_security.py:115-166 | after a success during a lockout, ten failures create no row |
| LoginSuccesses.SlipThrough | backend/authentication/login_security.py:115-166 | the concrete calls: locked out until 300, one event counted until 302 |
| LoginSuccesses.CallsAreTheLogin | backend/authentication/views.py:261-375 | a request is its check and, when that allows it, its failure or success |
| LoginSuccesses.RequestsAreSafe | backend/authentication/views.py:261-375 | in requests that do not overlap no identifier succeeds while it is locked out |
| LoginEnds.LockoutEndsClean | backend/authentication/login_security.py:87-166 | when a lockout ends, the abuse counter and backoff of its identifier have expired, and its failure counter exactly when no login by it failed since the lockout was set |
| LoginEnds.LockoutEndsExactly | backend/authentication/login_security.py:87-166 | after any sequence of calls: at the end of a lockout the abuse counter has expired exactly when no event was counted since the lockout was set, the failure counter exactly when no login failed since then without a later success |
| LoginEnds.FirstEndsClean | backend/authentication/login_security.py:87-166 | nothing is left of an identifier that requests list first |
| LoginSecurity.RetryAfterSuffices | backend/authentication/login_security.py:59-85 | waiting the returned whole seconds is enough for those backoffs |
| LoginBackoffs.BacksOff | backend/authentication/login_security.py:66-111 | after a failed login that is told to wait, a check is refused until the last second of the minute |
| LoginBackoffs.RefusedExactly | backend/authentication/login_security.py:59-113 | after any calls a check without a lockout is refused exactly when one of its identifiers failed for the fifth time or later of an unbroken run, without a lockout or a later success, no more than 59 seconds ago; the answer tells the seconds left of the longest such minute |
| LoginBackoffs.FailedExactly | backend/authentication/login_security.py:87-113 | a failed login that is not locked out is told to wait exactly when one of its identifiers fails for the fifth time or later of such a run |
| LoginBackoffs.SuccessClears | backend/authentication/login_security.py:115-120 | a success forgets counters and backoffs of its identifiers, keeps their lockouts, and changes nothing of others |
| LoginService.LoginSecurityService.CheckRequestAllowed | backend/authentication/login_security.py:59-85 | lockout first, then the longest backoff, and an attempt during backoff is counted |
| LoginService.LoginSecurityService.RecordFailedLogin | backend/authentication/login_security.py:87-113 | failures are counted, lockout is checked, then backoffs are set |
| LoginService.LoginSecurityService.ClearSuccessfulLogin | backend/authentication/login_security.py:115-120 | all counters and backoffs of the identifiers go |
| LoginService.LoginSecurityService.RecordAbuseAndLockout | backend/authentication/login_security.py:122-166 | one identifier after the other until one is locked out |
| LoginService.LoginSecurityService.Request | backend/authentication/views.py:261-375 | check, then failure or success; a correct password that was never set counts and clears nothing |
| StepReorder.CountCheck | backend/agent/views.py:1251-1258 | the count check passes exactly when the listed ids are distinct active steps |
| StepReorder.DistinctExactly | backend/agent/views.py:1260-1276 | orders are distinct after every single update exactly when no unlisted active step holds an order in 1..n |
| StepReorder.StaysPositive | backend/agent/views.py:1260-1276 | positive orders stay positive after every update |
| StepReorder.LegalExactly | backend/agent/views.py:1260-1276 | every update is legal exactly when the places are free and the temporary orders fit the column |
| StepReorder.PartialListFails | backend/agent/views.py:1260-1276 | of two steps, a request for the second alone fails |
| StepReorder.Workflow.UpdateOrder | backend/agent/models.py:504-514 | a single-row update is refused exactly when the table would break the constraint or the range |
| StepReorder.Workflow.MoveAway | backend/agent/views.py:1269-1273 | the first loop |
| StepReorder.Workflow.Settle | backend/agent/views.py:1274-1276 | the second loop |
| StepReorder.Workflow.Post | backend/agent/views.py:1239-1281 | which requests succeed, that a failing one changes nothing, and that the listed steps end with 1..n in sequence |

## Left out

- HTTP, sessions, permissions and serializers of the views; the database's transactions are taken as atomic and single-process, but for bundles stored when one commits.
- Executors, commits of approvals, the virus scanner and the JSON decoder: each is an arbitrary function or parameter.
- The actions `create_tasks`, `create_decisions` and `confirm_columns`, which re-enter the engine without a status check, approvals created outside a workflow step, and edits of a workflow while a run is under way.
- Retries of a step: the retry decorator shows up only as the outcome "skipped after retries" or a failure.
- Event streams of a run, its messages and its task and decision rows.
- Authors, projects and soft-deletion of stored decisions.
- DecisionCommit.Commit: topics are inferred by an arbitrary function of the title and the known topics; the keyword rules of `backend/decision/services.py:63-92` are not modelled.
- Trigger conditions and filters, cron times and the hash of a context: the first two are inputs, the hash is a number that stands for the context.
- Sharding.SplitIsNearBest: exact reals, so it does not model the rounding of summed floats.
- Administrators resolving lockouts by hand: `LoginSecurity` has only unresolved rows.
- Environment variables as text: test mode and the login limits are values (the limits have their defaults), and whether a shard variable is an integer is given.
- MiroValidation.ValidateSnapshot: items are given with ids, types, contents and styles of the right type; a snapshot, viewport, style or content of another type is not represented.
- MiroValidation.AcceptedExactly: the same; only the five numbers may be missing.
- AssetReview.Asset.CleanupFailedScans: which rows are older than 24 hours is a parameter, since the field asked for does not exist.
- ColumnNames.NormaliseTwice: lower-casing is that of ASCII letters; Unicode case folding is not modelled.
- ColumnRegistry.ColumnRegistry.TryRuleMatch: categories, display names and the rounding of the reported confidence are not represented.
- Database templates and the language-model fallback of column detection.
- PermissionCache.PermissionService.ChangeUserRoles: a change and its invalidation are one step, and a row stays with its user; a row moved to another user is not represented.
- PermissionCache.PermissionService.ChangeGrants: the same, and a grant stays with its role.
- The soft-delete flags that the bundle query does not look at.
- Version status logs, stored file names, and in-memory copies of a version that a scan holds while the row changes.
- Ad-copy editing, tenants, audit and alerting: set updates without anything hard to prove.
