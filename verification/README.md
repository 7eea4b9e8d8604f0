# A verified model of tkn-act's scheduler and its inputs

tkn-act runs Tekton pipelines on one machine. This project models the parts of it whose
correctness is not visible in any single function, and proves what they promise:

* **The pipeline compiler** (`Matrix`, `Expansion`, `ExpansionOrder`, `References`,
  `SchedulingGraph`, `Dag`): matrix tasks become rows, references become edges, and the graph is
  cut into levels.
* **The scheduler** (`Plans`, `Aggregation`, `Scheduler`, `SchedulerInvariants`,
  `SchedulerTheorems`, `Budgets`, `Confluence`, `Termination`, `FinalState`, `Schedules`, `FinallyRaces`,
  `SnapshotRaces`, `FinallyStatus`, `Engine`): the scheduling
  loop of `RunPipeline` as a transition system over labelled events. The dispatching goroutine, the
  task goroutines, the errgroup limit, the level barrier and the contexts that may end at any moment
  all take separate steps; what a task reports is arbitrary. Theorems quantify over every event
  sequence the system allows.
* **Variable substitution** (`Text`, `Resolver`, `SubstitutionLaws`, `StepActions`, `StepArguments`,
  `Binding`, `Agreement`, `Meanings`, `WrittenForms`): the
  reference pattern as a scanner over `seq<char>`, the three deferral modes, and the laws that make
  the StepAction pass, the task pass and the per-step pass agree with one meaning.
* **The retry loop** (`Policy`), **the run store** (`RunStore`, `RunStoreLaws`), **the resolver
  cache** (`CacheKeys`, `ResolverCache`, `ResolverCacheLaws`) and **the log reader** (`LogLines`).

Code that updates objects is modelled by classes (`Dag.Graph`, `RunStore.Index`,
`ResolverCache.DiskCache`, `ResolverCache.Registry`), loops by methods with invariants, and pure
lookups by functions. Each method is tied to a function or relation on values, and the theorems are
about that.

## What the code does that its comments do not say

* `Descendants` includes the start node when it lies on a cycle (internal/engine/dag/dag.go:98-119).
  The scheduler asks only for the ancestors of other nodes, and only after levelling has ruled
  cycles out.
* `AddNode` resets the adjacency of a node it did not know, so the in- and out-maps stay transposed
  exactly when no edge names the node yet. `Dag.Graph.AddNode` states that condition; `BuildDag`
  meets it by adding all nodes first.
* `MaterializeMatrixRows` returns nil for an empty value list only; it has no row cap
  (internal/tektontypes/types.go:535-583).
* The scheduler's scan for result references is narrower than the resolver's grammar: a task name must
  have the shape `[A-Za-z0-9][\w-]*`, and a selector must be plain, dotted, `[N]` or `[*]`. A reference
  outside it, such as `$(tasks._a.results.r)`, is read and makes no edge
  (`Agreement.UnderscoreIsMissed`). For one reference scheduler and resolver agree if and only if it
  has the accepted shape (`Agreement.ReferenceAgreesWhen`), and a text that resolves depends on no other
  tasks' results if and only if every reference in it reads a scanned task (`DependsOnlyOnWhen`).
* The StepAction pass resolves `$(workspaces.X.path)` to the default path even when the task mounts
  the workspace elsewhere. `SubstitutionLaws.MountedIsLost` shows that every such reference breaks
  the composition law; `StepActionComposition` holds for all other references. It also fails on
  `$(tasks.status)`, which an outer scope with statuses would resolve (`StatusIsLost`); the context of
  the task pass never has them (internal/engine/engine.go:617-628).
* The retry loop retries every status other than succeeded, skipped and timeout, not only failed and
  infrafailed (internal/engine/policy.go:70-95).
* The scheduler says that finally tasks cannot consume each other's results
  (internal/engine/engine.go:397-400), but the validator lets them (internal/validator/validator.go:434-448)
  and `missingResultRefs` then reads the outcomes of the finally tasks that happen to be over
  (internal/engine/engine.go:411-421). The end of a run is the same for all behaviours of tasks, all
  interleavings and all limits if and only if no finally task refers to one listed before it
  (`FinallyRaces.ConfluentWhen`); `TwoFinallyTasks` is a plan for which it is not. The main tasks end
  alike in any case (`Confluence.MainConfluent`).
* A task is given the results of every task that is over, not only those it has an edge from. One that
  reads a task of its own level that way sees its results or not by chance
  (`SnapshotRaces.SameLevelReadRaces`).
* Retention decides by sequence number. If a hand-edited index gives a running run the number of a
  run that is deleted, the running one goes too (`RunStoreLaws.SharedNumberLosesARunningRun`).
  `InFlightIsLostWhen` is the exact condition, and no sequence of operations produces such an index.
* A file without `next_seq` is opened with the number after its entry count. It opens to a sound index
  if and only if no run was ever pruned from it (`RunStoreLaws.OpenedIsSoundWhen`); otherwise a later
  run gets a number that a recorded run still has (`FallbackReusesANumber`).
* The index is reopened for every operation, so the fallback applies again whenever the next number
  reaches zero. New runs get consecutive numbers if and only if the next number is positive
  (`RunStoreLaws.ConsecutiveWhen`).
* The cache key holds the resolver and its params but not the kind of the request, so the cache is
  transparent exactly when fetching does not depend on the kind
  (`ResolverCacheLaws.TransparentWhen`). Param names tell requests apart if and only if none continues
  another with an `=` (`CacheKeys.KeysTellApartWhen`), and with a pair of names that does not a request
  is answered with the bytes of another (`ResolverCacheLaws.ContinuationMisleads`).

## Model

| member | source | states |
|---|---|---|
| `Dag.Graph.AddNode` | internal/engine/dag/dag.go:25-32 | Adds the node; in- and out-maps stay transposes exactly when no edge of an unknown node existed, because the node's adjacency is reset |
| `Dag.Graph.AddEdge` | internal/engine/dag/dag.go:36-46 | Adds exactly one edge to both maps and keeps them transposes |
| `Dag.Graph.Levels` | internal/engine/dag/dag.go:50-96 | Succeeds if and only if every edge joins known nodes and there is no cycle; the levels partition the nodes, every edge climbs, and every node above the first level has a predecessor one level below |
| `Dag.Graph.Descendants` | internal/engine/dag/dag.go:99-119 | Returns, sorted, exactly the nodes reachable along at least one edge |
| `Dag.Graph.Upstream` | internal/engine/engine.go:822-837 | Returns exactly the other nodes with a path to the target |
| `Paths.NoSourceMeansCycle` | internal/engine/dag/dag.go:70-84 | A nonempty set of nodes each of which has a predecessor in the set contains a cycle: why the loop may report one when no node is ready |
| `Paths.LevellingMeansAcyclic` | internal/engine/dag/dag.go:50-96 | A graph that has a levelling has no cycle |
| `Paths.LevellingIsUnique` | internal/engine/dag/dag.go:50-96 | A graph has at most one levelling, so the answer does not depend on map iteration order |
| `Kahn.RetireAll` | internal/engine/dag/dag.go:85-94 | Retiring a level leaves the in-degree counts exact for the nodes still waiting |
| `Odometer.Advance` | internal/engine/matrix.go:150-161 | The in-place index loop is one turn of a mixed-radix counter |
| `Odometer.TurnCounts` | internal/engine/matrix.go:150-161 | A turn adds one to the counter's value, or wraps from the last value to zero |
| `Odometer.DigitsOfValue` | internal/engine/matrix.go:138-163 | The digits of a combination's number are the combination |
| `Odometer.ValueOfDigits` | internal/engine/matrix.go:138-163 | The number of a row's digits is the row number |
| `Matrices.CountThrough` | internal/engine/matrix.go:138-163 | The loop ends after exactly the product of the lengths, and tuple r is the mixed-radix digits of r, first param slowest |
| `Matrices.MaterializeRows` | internal/engine/matrix.go:119-168 | Accepts exactly the matrices without empty value lists and with at most 256 rows, and lists the cross product in order followed by the include rows |
| `Expansion.ParamMapBinds` | internal/engine/matrix.go:224-230 | The map of a row binds exactly the names of its params, each to the text of the last one |
| `Matrices.EveryCombinationOnce` | internal/engine/matrix.go:119-168 | Every combination of values is exactly one cross-product row, and that row gives each param the value its index selects |
| `Matrices.MaterializeMatrixRows` | internal/tektontypes/types.go:535-583 | The cluster backend's rows are the engine's, in the same order, for every matrix without an empty value list |
| `Matrices.ValidatedIsAccepted` | internal/validator/validator.go:716-740 | A matrix that passes rule 19 is one the engine expands |
| `Expansion.MergeParams` | internal/engine/matrix.go:183-202 | The merged list: base entries overridden in place, then the row's own entries |
| `Expansion.MergedBinds` | internal/engine/matrix.go:183-202 | Merging binds each name as the row does where the row has it, and as the base does elsewhere |
| `Expansion.RowIs` | internal/engine/matrix.go:87-103 | Row i of a matrix task: named after its include entry or numbered from 0, with the row's params over the task's, the row's own params in its matrix info, and order, conditions and resolver params as written |
| `Expansion.ExpandTask` | internal/engine/matrix.go:75-105 | A matrix task becomes its rows in order with their names, params and matrix info, or fails exactly when the matrix is rejected |
| `Expansion.ExpandList` | internal/engine/matrix.go:75-105 | Expands every task in order and records each matrix task's row names; fails exactly when some matrix is rejected |
| `Expansion.RewriteRunAfter` | internal/engine/matrix.go:206-219 | Every entry that names a matrix task becomes that task's rows, in place |
| `Expansion.ExpandMatrix` | internal/engine/matrix.go:33-59 | Expands both phases and rewrites every runAfter with the rows of both, and returns a matrix-free pipeline unchanged |
| `ExpansionOrder.RunAfterIsPreserved` | internal/engine/matrix.go:206-219 | After rewriting, a task runs after a row if and only if it was written to run after the row's task (or names the row itself): every pair of rows, and no other |
| `ExpansionOrder.ChildRefs` | internal/engine/matrix.go:90-103 | Expansion adds no reference: whatever a row refers to, its task did, in its params, when, resolver params or matrix values |
| `ExpansionOrder.ImplicitProjects` | internal/engine/engine.go:187-197 | Two rows joined by the implicit rule come from different tasks, one of which consumes the other's results |
| `ExpansionOrder.EdgeProjects` | internal/engine/engine.go:166-199 | Every scheduling edge after expansion comes from an edge of the pipeline as written: a runAfter entry, or a reference that a row of the task keeps |
| `ExpansionOrder.ExpandedIsClosed` | internal/engine/matrix.go:33-59 | The expanded graph has no unknown node if and only if every runAfter entry stands for a main task |
| `ExpansionOrder.ExpandedHasLevels` | internal/engine/engine.go:166-204 | An acyclic pipeline with known runAfter entries expands to an acyclic graph, so levelling succeeds |
| `ExpansionOrder.ExpandedHasLevelsWhen` | internal/engine/engine.go:166-204 | Where matrices are referred to by their own names, levelling the expanded graph succeeds if and only if every runAfter entry is known and the pipeline as written has no cycle |
| `ExpansionOrder.ExpandedIsWellNamed` | internal/engine/matrix.go:75-105 | The naming conditions scheduling takes for granted hold after expansion when they held before |
| `ExpansionOrder.RowsAreInOrder` | internal/engine/matrix.go:303-314 | After expansion the rows listed for a matrix task are its rows in the order of the matrix |
| `ExpansionOrder.Prepare` | internal/engine/engine.go:139-203 | Expand, build the graph, level it: succeeds on every acyclic well-named pipeline, on no other one that refers to matrices by their own names, and what it returns is a well-formed plan |
| `References.ImplicitParamEdges` | internal/engine/implicit_edges.go:38-79 | Returns, sorted and once each, exactly the task names the scan finds in params, when expressions and resolver params |
| `References.ScanIsExact` | internal/engine/implicit_edges.go:10-37 | A complete result reference is matched if and only if its names have the accepted shape |
| `References.ReferenceIsScanned` | internal/engine/implicit_edges.go:10-16 | The scan of one result reference finds exactly its task if the names have the accepted shape, and nothing otherwise |
| `References.RefsAreScanned` | internal/engine/implicit_edges.go:38-79 | Every accepted reference the resolver meets in a text, after escaping, is found by the scan of the raw text |
| `SchedulingGraph.MatrixExpansions` | internal/engine/implicit_edges.go:83-94 | The loop over both phases maps each matrix task to its rows' names |
| `SchedulingGraph.ExpansionsInOrder` | internal/engine/implicit_edges.go:83-94 | A name is a key exactly when the tasks hold a row of it, and its list is the names of those rows in the order of the tasks |
| `SchedulingGraph.ExpansionsRows` | internal/engine/implicit_edges.go:83-94 | A name is a key exactly when some task is a row of it, and its list holds exactly those rows |
| `SchedulingGraph.WantedProducers` | internal/engine/engine.go:187-197 | The implicit dependencies of a task: exactly the main tasks its references stand for, other than itself and its sibling rows |
| `SchedulingGraph.BuildDag` | internal/engine/engine.go:166-199 | The graph has the main tasks as nodes and exactly the runAfter and reference edges |
| `SchedulingGraph.ReferencedIsEdge` | internal/engine/engine.go:187-197 | Every main task whose results a task refers to has an edge to it |
| `SchedulingGraph.PlanIsWellFormed` | internal/engine/engine.go:166-203 | What RunPipeline builds from a well-named pipeline meets every precondition of the scheduler theorems |
| `Binding.BindTaskParamValue` | internal/engine/substitution.go:196-233 | Binding a value is the evaluation of its strings; a whole-array reference becomes an array; any failing string fails it |
| `Binding.RunWhen` | internal/engine/when.go:12-48 | True if and only if every input and values list resolves, every `in` input is among its values and no `notin` input is; false if and only if the first expression of which that does not hold resolves; an error if and only if it does not |
| `Binding.SubstituteResolverParams` | internal/engine/lazy_resolve.go:49-95 | Resolver params are substituted string by string, the last of a name winning; fails as soon as one string does |
| `Binding.EachMeans` | internal/engine/lazy_resolve.go:60-75 | A list of strings is substituted if and only if each of them can be, element by element and without splicing |
| `Binding.SubstituteReads` | internal/resolver/resolver.go:470-535 | Substituting a string reads no results but those of the tasks the scan finds in it |
| `Binding.ScannedWhen` | internal/engine/implicit_edges.go:38-79 | The scan finds a task if and only if it finds it in a string that is evaluated in the task's params, when expressions or resolver params |
| `Binding.InputsReadOnlyScannedTasks` | internal/engine/implicit_edges.go:16-79 | Binding a task's params, evaluating its when expressions and substituting its resolver params read no results but those of the tasks implicitParamEdges returns |
| `Agreement.DependsOnlyOnWhen` | internal/resolver/resolver.go:470-535 | Where a text resolves, it depends on no results outside a set of tasks if and only if each of its references reads within the set |
| `Agreement.UnshapedIsMissed` | internal/engine/implicit_edges.go:10-16 | Every result reference without the accepted shape is read by the resolver and found by no scan |
| `Agreement.ReferenceAgreesWhen` | internal/engine/implicit_edges.go:10-79 | For one reference the scanned tasks suffice in every context if and only if the reference has the accepted shape |
| `Agreement.WrittenIsRead` | internal/resolver/resolver.go:470-491 | A reference written with a dotless task name reads that task and selector |
| `Agreement.UnderscoreIsMissed` | internal/engine/implicit_edges.go:10-16 | `$(tasks._a.results.r)` is such a reference |
| `Agreement.StarDependsOnlyOnWhen` | internal/resolver/resolver.go:282-313 | Where a whole-array argument resolves, it depends on no results outside a set of tasks if and only if the task it reads is in the set |
| `Agreement.StarIsScannedWhen` | internal/engine/implicit_edges.go:10-16 | The scan finds the task of a whole-array argument if and only if the argument has the accepted shape |
| `Resolver.SubstituteArgs` | internal/resolver/resolver.go:187-258 | The list is what the arguments contribute one after the other, whole-array references spliced, the first error winning, in all three modes |
| `Meanings.ParamMeans` | internal/resolver/resolver.go:440-446 | A string param stands for its value, before any array or object of the name is considered |
| `Meanings.IndexedParamMeans` | internal/resolver/resolver.go:447-453 | `$(params.a[n])` is the n-th element of the array from the front, counted from 0, and an error from the length on |
| `Meanings.FieldOfParamMeans` | internal/resolver/resolver.go:454-466 | `$(params.o.k)` is the field of the object, and an error when there is none |
| `Meanings.WholeResultMeans` | internal/resolver/resolver.go:470-503 | `$(tasks.t.results.r)` is the result, and an error for a task without results |
| `Meanings.IndexedResultMeans` | internal/resolver/resolver.go:507-518 | `$(tasks.t.results.r[n])` is the n-th element of the array the result holds, and an error from the length on |
| `Meanings.FieldOfResultMeans` | internal/resolver/resolver.go:519-535 | `$(tasks.t.results.r.k)` is the field of the object the result holds, and an error when there is none |
| `Meanings.AggregateStatusMeans` | internal/resolver/resolver.go:470-477 | `$(tasks.status)` is the aggregate status in a finally task, and an error elsewhere |
| `Meanings.TaskStatusMeans` | internal/resolver/resolver.go:478-487 | `$(tasks.t.status)` is the status of t in a finally task, and an error elsewhere or for an unknown task |
| `Meanings.ContextMeans` | internal/resolver/resolver.go:372-432 | `$(context.x)` is the context variable, and an error when there is none |
| `Meanings.ResultPathMeans` | internal/resolver/resolver.go:372-432 | `$(results.r.path)` is /tekton/results/r |
| `Meanings.StepResultPathMeans` | internal/resolver/resolver.go:372-432 | `$(step.results.r.path)` is /tekton/steps/s/results/r in step s, and an error in a strict pass outside of steps |
| `Meanings.StepResultMeans` | internal/resolver/resolver.go:372-432 | `$(steps.s.results.r)` is the result of the earlier step, and an error in a strict pass when there is none |
| `Meanings.WorkspacePathMeans` | internal/resolver/resolver.go:541-551 | `$(workspaces.w.path)` is where w is mounted, by default /workspace/w |
| `Meanings.BoundMeans` | internal/resolver/resolver.go:552-559 | `$(workspaces.w.bound)` is true or false where that is known, and an error elsewhere |
| `Meanings.ClaimMeans` | internal/resolver/resolver.go:560-561 | `$(workspaces.w.claim)` is empty |
| `Meanings.VolumeMeans` | internal/resolver/resolver.go:562-563 | `$(workspaces.w.volume)` is the workspace name |
| `Meanings.ForeignStays` | internal/resolver/resolver.go:365-376 | A reference of any other namespace stays as it is written |
| `Meanings.NoReferenceStays` | internal/resolver/resolver.go:102-137 | What begins like a reference but has a character outside the pattern stays as it is written |
| `WrittenForms.ArrayByElements` | internal/resolver/resolver.go:187-310 | The references to the elements 0 to n-1 of an array param come to the list that the whole-array reference splices, up to the escape mark (`NulFreeElements`: exactly, where no element holds a NUL byte), and the reference to element n fails |
| `WrittenForms.ArrayResultByElements` | internal/resolver/resolver.go:282-313 | The same for a result that holds an array |
| `WrittenForms.FirstErrorWins` | internal/resolver/resolver.go:102-137 | A text fails if and only if some reference in it does, and the error names the first |
| `WrittenForms.LiteralBinds` | internal/engine/substitution.go:196-233 | A string, array or object value without dollar signs and NUL bytes is bound as it is |
| `WrittenForms.StarBinds` | internal/engine/substitution.go:196-233 | A param given a whole array is bound to the array |
| `WrittenForms.WrittenIsScanned` | internal/engine/implicit_edges.go:10-16 | However a result is selected, plainly, by key, by index or whole, the scan finds exactly its task if the name is made of letters, digits, `_` and `-` and begins with a letter or digit, and nothing otherwise |
| `SubstitutionLaws.EscapeRoundTrip` | internal/resolver/resolver.go:102-137 | Doubling every dollar sign of any NUL-free text and substituting gives the text back, in every mode and context |
| `Templates.TwoPasses` | internal/resolver/resolver.go:102-137 | Two passes over a clean template are one pass whenever they are one pass over each reference |
| `SubstitutionLaws.StepActionComposition` | internal/engine/step_action.go:138-207 | The deferring inner pass followed by the task pass is one substitution: bound params stand for the task-scope value of what they are bound to, everything else for its task-scope value, errors of the task pass included; where the inner pass fails, so does that substitution, unless the text asks for a status the outer scope has |
| `SubstitutionLaws.InnerFailsToo` | internal/resolver/resolver.go:333-361 | What the inner pass gives up on, the one-pass meaning does not know either |
| `WrittenForms.InnerFailsWhen` | internal/resolver/resolver.go:333-361 | The StepAction pass fails exactly on a text with a reference that no scope could resolve or that asks for a status; every other reference it resolves or leaves to the task pass |
| `SubstitutionLaws.StatusIsLost` | internal/resolver/resolver.go:470-486 | Every status reference that the outer scope could resolve makes the inner pass fail |
| `SubstitutionLaws.MountedIsLost` | internal/resolver/resolver.go:541-566 | For every mounted workspace reference the composition law fails |
| `SubstitutionLaws.Staging` | internal/backend/docker/docker.go:556-591 | The task pass that leaves step references followed by the strict per-step pass is one strict pass under the merged context, with the same failures, and only step references are left in between |
| `SubstitutionLaws.ThreePasses` | internal/resolver/resolver.go:151-184 | All three passes over a StepAction body are one strict substitution, which fails when any of them fails |
| `SubstitutionLaws.PlainContextInserts` | internal/resolver/resolver.go:440-535 | A context that stores dollar-free strings inserts dollar-free strings, decoded arrays and objects included |
| `StepActions.BindParams` | internal/engine/step_action.go:149-166 | Defaults, then the step's values; fails exactly when some default is not a string |
| `StepActions.BindsAsPassed` | internal/engine/step_action.go:149-166 | A param is bound to the text of the last value the step passes, and to its last default when it passes none |
| `StepActions.InlineStepAction` | internal/engine/step_action.go:138-234 | Succeeds exactly when the defaults are strings and every body field resolves; the step keeps its identity, takes the substituted body, and unites the mounts |
| `StepActions.ResolveStepActions` | internal/engine/step_action.go:32-72 | Fails exactly when some step has a ref and a body, names an unknown StepAction or cannot be inlined; other steps stay as they are and no ref remains |
| `StepActions.InlinedStepMeans` | internal/engine/step_action.go:169-206 | Image, script, working directory and environment of an inlined step mean in the task's scope what the StepAction's text means with its params bound |
| `StepArguments.ComesDownTo` | internal/resolver/resolver.go:234-258 | The StepAction pass turns an argument into a whole-array reference exactly when one of its references is one or is bound to one and all others stand for nothing |
| `StepArguments.InlinedArgsMean` | internal/engine/step_action.go:189-196 | Args and command of an inlined step contribute in the task's scope the elements of the array they come down to, or else their one-pass meaning; where the StepAction pass fails on them they have no meaning |
| `StepArguments.BoundArrayIsSpliced` | internal/engine/step_action.go:189-196 | An argument that is a param bound to a whole-array reference contributes the array's elements |
| `Plans.UpstreamBlocksDispatch` | internal/engine/engine.go:728-788 | Blocks exactly when some ancestor group has a blocking outcome and no success, with the reason that tells failure from skipping |
| `Plans.MissingResultRefs` | internal/engine/engine.go:795-813 | Reports a reference exactly when some producer of it is terminal and none succeeded |
| `Aggregation.AggregateMatrixResults` | internal/engine/matrix.go:273-299 | For each result name of any row one array of the rows' values in row order is written into the parent's entry, whose other results stay |
| `Aggregation.AggregatedInRowOrder` | internal/engine/matrix.go:273-299 | Entry by entry: for each result of any row the parent has the encoding of the rows' values in row order, empty where a row has none, and everything else is as it was |
| `Aggregation.RecordedResults` | internal/engine/matrix.go:341-359 | Recording any outcome keeps the results map the function of the outcomes in which a matrix parent has its aggregate exactly when its last row is terminal |
| `Scheduler.MoveAccounted` | internal/engine/engine.go:321-390 | Every step keeps the accounts: a task has an outcome exactly when the loops have passed it and it is not in flight |
| `SchedulerInvariants.StepInv` | internal/engine/engine.go:236-390 | Every step keeps the invariant of the whole state and overwrites no outcome |
| `SchedulerInvariants.RunInv` | internal/engine/engine.go:213-466 | The invariant holds after every event sequence |
| `SchedulerTheorems.DispatchSafety` | internal/engine/engine.go:728-813 | While a main task is in flight every task with a path to it has its final outcome, every ancestor group has a success or consists of when-skips, and every referenced main task has a succeeded row |
| `SchedulerTheorems.NoAncestorIsAbsent` | internal/engine/engine.go:742-785 | In no reachable state is an ancestor of the examined task without outcome |
| `SchedulerTheorems.OutcomesAreFinal` | internal/engine/engine.go:238-290 | An outcome once recorded is the task's outcome in every later state |
| `SchedulerTheorems.EveryTaskHasAnOutcome` | internal/engine/engine.go:321-466 | A finished run has an outcome for every main and finally task and for nothing else |
| `SchedulerTheorems.MainIsTerminal` | internal/engine/engine.go:403-408 | From the first finally step on every main task has its outcome |
| `SchedulerTheorems.DirectPredecessorsSuffice` | internal/engine/engine.go:742-785 | Without matrices, in every reachable state, the test over all ancestors is the test over direct predecessors |
| `SchedulerTheorems.NotRunIsJustified` | internal/engine/engine.go:321-354 | Every main task that did not run was stopped, or a finite chain of blocked tasks leads to one that ran without success, one that was stopped, or a when-skipped one whose result is consumed; each link blocks: an ancestor whose group has no success, or a reference none of whose producers succeeded |
| `SchedulerTheorems.EveryCauseLeadsOn` | internal/engine/engine.go:321-354 | Whichever cause of a task that did not run is followed, it is such an end of the chain or a blocked task with a further cause |
| `SchedulerTheorems.CausesEnd` | internal/engine/engine.go:742-785 | Each cause lies on a lower level than its effect, so a chain of causes has at most as many tasks as there are levels up to that of its first, and following causes always ends |
| `SchedulerTheorems.FinalStatus` | internal/engine/engine.go:279-449 | The final status is cancelled, else timeout, else failed, else succeeded, as a join over outcomes and expired budgets |
| `Budgets.NothingBegins` | internal/engine/engine.go:321-388 | Once the run, the pipeline budget or the budget of a task's phase has ended, a task that had not begun is never recorded but as not run, stopped or blocked |
| `Budgets.LaterLevelsAreStopped` | internal/engine/engine.go:321-340 | ... and a main task of a level not yet entered is recorded as stopped, without being examined |
| `Budgets.StoppedMeansEnded` | internal/engine/engine.go:326-375 | A stopped task implies that a context of its phase had ended |
| `Budgets.ReportIsRecorded` | internal/engine/engine.go:295-306 | Whatever a task reports is recorded for good: a failure as timeout if a context of its phase had ended when it returned and the run was not cancelled, anything else with the reported status; results as reported, skipped marked as a when-skip |
| `Budgets.NeverRanWhen` | internal/engine/engine.go:238-290 | A task with an outcome has that of one that never ran if and only if nothing was reported for it |
| `Budgets.StatusOfRun` | internal/engine/engine.go:391-449 | The final status from the contexts and outcomes alone: cancelled; timeout if the pipeline or finally context ended, the main tasks' had ended when the finally phase began, or a task timed out; failed; or succeeded |
| `Confluence.SolutionIsUnique` | internal/engine/engine.go:321-390 | At most one assignment of outcomes gives every main task the outcome its ancestors' results require |
| `Confluence.MainConfluent` | internal/engine/engine.go:321-390 | In two finished runs in which no context ends and main tasks are functions of their ancestors' results, every main task has the same outcome, whatever the interleavings, the parallelism limits and the references of finally tasks |
| `Confluence.Confluent` | internal/engine/engine.go:321-439 | If no finally task refers to one listed before it: two finished runs in which no context ends, main tasks are functions of their ancestors' results and finally tasks of the main phase's results and outcomes, statuses included, have the same outcomes, results and status, whatever the interleavings and parallelism limits |
| `FinallyRaces.EarlierReferenceRaces` | internal/engine/engine.go:411-421 | If some finally task refers to one listed before it, two finished runs with the same behaviour of every task end differently: the task is blocked in one and runs in the other |
| `FinallyRaces.ConfluentWhen` | internal/engine/engine.go:397-439 | All finished runs end alike, for every behaviour of tasks, interleaving and limits, if and only if no finally task refers to one listed before it |
| `FinallyRaces.TwoFinallyTasks` | internal/validator/validator.go:434-448 | A well-formed plan of two finally tasks, the second of which refers to the first |
| `SnapshotRaces.SameLevelReadRaces` | internal/engine/engine.go:365-390 | For any two tasks of one level, if the later-listed one acts on whether the other's results are among those it is given, two finished runs with the same behaviour of every task give it different outcomes |
| `Termination.Progress` | internal/engine/engine.go:321-466 | With a nonzero limit some step is always possible until the run is over |
| `Termination.RunsAreBounded` | internal/engine/engine.go:321-466 | A run takes at most five steps per task and two per level besides context changes |
| `FinalState.FinishingRunExists` | internal/engine/engine.go:321-439 | Unless the limit is zero, every well-formed plan has a finished run for every behaviour of its tasks |
| `FinalState.OneFinalState` | internal/engine/engine.go:321-439 | If no finally task refers to one listed before it, the final outcomes, results and status exist and are those of every finished run with any limit |
| `FinallyStatus.CountGroups` | internal/engine/substitution.go:63-93 | The first loop's counts and group list are those of the tasks, and it notices exactly the unfinished ones |
| `FinallyStatus.ComputeFinallyStatus` | internal/engine/substitution.go:63-117 | None iff some task is unfinished, Failed iff all are done and some failed, Succeeded iff all succeeded; per group, Failed iff some row failed and Succeeded iff all rows did |
| `FinallyStatus.StatusIsKnown` | internal/engine/substitution.go:43-46 | In every reachable state of the finally phase all main tasks are done, so the aggregate is never None |
| `Engine.PreparedIsWellFormed` | internal/engine/engine.go:139-203 | The plan of a prepared pipeline is well formed |
| `Engine.EveryRowHasAnOutcome` | internal/engine/engine.go:139-466 | A finished run of a pipeline as written has an outcome for exactly the rows its tasks expand to |
| `Engine.InputsAreFinal` | internal/engine/engine.go:311-390 | A main task's params, when expressions and resolver params, evaluated with the results when they are copied for it, have the value they would have with the results at any later point of the run |
| `Engine.EntryIsReported` | internal/engine/engine.go:250-283 | In every reachable state a task that is no matrix has an entry exactly when it ran and reported results, and the entry is what it reported |
| `Engine.AggregateIsInRowOrder` | internal/engine/matrix.go:341-359 | In every reachable state a matrix task has an entry exactly when all its rows have outcomes and some row reported a result, and the entry holds for each such result the values in the rows' outcomes, in the order of the matrix, empty for a row that was skipped or did not report it |
| `Engine.AggregateIsFinal` | internal/engine/matrix.go:349-359 | Once there, the entry stays as it is to the end of the run |
| `Policy.RunOneWithPolicy` | internal/engine/policy.go:34-102 | runOne is called up to the one deciding attempt, the first that stops or the last allowed; task-retry is emitted exactly for the attempts before it; its outcome is reported, a passed own deadline rewritten to timeout; the recorded attempt is the number of calls unless a deadline or a dead parent ended the loop early |
| `RunStore.Index.constructor` | internal/runstore/index.go:61-96 | The opened index: a missing file starts at number 1, a file without a next number after its entries; the file itself is untouched |
| `RunStoreLaws.OpenedIsSoundWhen` | internal/runstore/index.go:86-94 | A file opens to a sound index if and only if it is sound or, without a next number, its entries are numbered 1, 2, 3 and so on |
| `RunStoreLaws.FallbackReusesANumber` | internal/runstore/index.go:91-93 | From any other file without a next number a later run gets a number that a recorded run still has |
| `RunStore.Index.Append` | internal/runstore/index.go:110-116 | Takes the next number, appends the entry under it and writes the file |
| `RunStore.Index.Update` | internal/runstore/index.go:119-127 | Changes the first entry with the number and nothing else, and writes the file; a missing number changes nothing and writes nothing |
| `RunStoreLaws.EndIsRecorded` | internal/runstore/store.go:109-116 | Finalizing sets end, exit code and status of the first entry with the number, and nothing else |
| `RunStore.Index.BySeq` | internal/runstore/index.go:145-152 | Finds an entry with the number, or fails exactly when there is none |
| `RunStore.Index.Latest` | internal/runstore/index.go:187-192 | The last entry, on an index in order the one with the greatest number |
| `RunStore.SortedProperties` | internal/runstore/gc.go:59-61 | The sort orders by number, keeps the entries and is stable |
| `RunStore.Index.Prune` | internal/runstore/gc.go:49-153 | The index becomes what retention leaves, the next number stays, the count is the number of deleted entries, and the file is written exactly when that is positive |
| `RunStoreLaws.Replay` | internal/runstore/store.go:56-116 | Operations that each open the index file anew take it through the states of the transition system |
| `RunStoreLaws.PruneIsExact` | internal/runstore/gc.go:82-118 | Deleted are exactly the well-formed entries that have ended or whose process is gone, and that All, or a positive KeepRuns with at least KeepRuns-Reserve newer such entries, or a positive KeepDays by age selects, and whose directory goes |
| `RunStoreLaws.PruneIsIdempotent` | internal/runstore/gc.go:49-153 | Pruning again at the same clock and liveness deletes nothing |
| `RunStoreLaws.InFlightIsKept` | internal/runstore/gc.go:82-88 | On an index in order no run in flight is deleted, whatever the options |
| `RunStoreLaws.InFlightIsLostWhen` | internal/runstore/gc.go:120-143 | On any index, a run in flight is deleted exactly when its own directory goes and retention selects another entry with its number that is not in flight |
| `RunStoreLaws.SharedNumberLosesARunningRun` | internal/runstore/gc.go:120-143 | An index on which that happens |
| `RunStoreLaws.NumbersAreConsecutive` | internal/runstore/index.go:110-116 | From a positive next number, new runs get consecutive numbers however much is pruned in between, the index being reopened for every operation |
| `RunStoreLaws.FirstNumbers` | internal/runstore/index.go:80-116 | The first run gets 1 without an index, the number after the entry count without a next number, and the next number otherwise |
| `RunStoreLaws.NegativeNumbers` | internal/runstore/index.go:86-116 | From a negative next number runs count up to minus one, and then start again after the entries |
| `RunStoreLaws.ConsecutiveWhen` | internal/runstore/index.go:86-116 | Whatever is done, new runs get consecutive numbers if and only if the index opens with a positive next number |
| `RunStoreLaws.NumbersAreNeverReused` | internal/runstore/index.go:110-116 | Over every interleaving of NewRun, Finalize and Prune from a sound index the numbers stay increasing and below the next one, and no new run gets a number that a run had before |
| `RunStoreLaws.PrunedRunsStayGone` | internal/runstore/gc.go:49-153 | Whatever a later index records under a number handed out earlier was recorded then as the same run |
| `RunStoreLaws.RunningRunsSurvive` | internal/runstore/liveness.go:43-63 | In every reachable index a prune keeps every run in flight |
| `CacheKeys.CacheKey` | internal/refresolver/refresolver.go:461-479 | The hash of the preimage in sorted key order, whatever the map iteration order |
| `CacheKeys.PreimageIsInjective` | internal/refresolver/refresolver.go:461-479 | For NUL-free strings and `=`-free names the preimage determines resolver and params |
| `CacheKeys.ContinuationCollides` | internal/refresolver/refresolver.go:470-477 | For every resolver, names `m` and `m=x` and every value, two different requests share a preimage |
| `CacheKeys.KeysTellApartWhen` | internal/refresolver/refresolver.go:461-479 | NUL-free requests with names from a set are told apart by their preimages if and only if no name of the set continues another with an `=` |
| `CacheKeys.EqualsInKeyCollides` | internal/refresolver/refresolver.go:470-477 | Two literal requests that share a preimage |
| `ResolverCache.DiskCache.Get` | internal/refresolver/cache.go:87-109 | Hits exactly when the entry exists and can be read, with its bytes |
| `ResolverCache.DiskCache.Put` | internal/refresolver/cache.go:113-146 | Overwrites the request's entry when the write succeeds |
| `ResolverCache.Registry.Resolve` | internal/refresolver/refresolver.go:332-428 | Allow-list before caches, per-run cache before disk, disk before the offline gate, then the fetch that fills both caches |
| `ResolverCacheLaws.CacheIsTransparent` | internal/refresolver/refresolver.go:332-428 | Over any calls by any runs sharing the disk, with evictions and disk failures, every successful answer has the bytes of a fresh fetch, if fetches do not depend on the kind and requests are NUL-free with names none of which continues another with an `=`; names without an `=` are such (`CleanNames`) |
| `ResolverCacheLaws.TransparentWhen` | internal/refresolver/refresolver.go:332-428 | For such names that holds if and only if fetches do not depend on the request's kind |
| `ResolverCacheLaws.ContinuationMisleads` | internal/refresolver/refresolver.go:461-479 | Where one name continues another with an `=`, some kind-independent upstream has a request answered with the bytes of another |
| `ResolverCacheLaws.TransparentForAll` | internal/refresolver/refresolver.go:332-479 | Every kind-independent upstream is cached transparently if and only if no name continues another with an `=` |
| `ResolverCacheLaws.EveryCallObeys` | internal/refresolver/refresolver.go:340-385 | An offline run never fetches and a name outside the allow-list is never answered, whatever is cached |
| `ResolverCacheLaws.FailsBecause` | internal/refresolver/refresolver.go:332-428 | Each error has its own reason, and a failing call changes no cache |
| `ResolverCacheLaws.SucceedsWith` | internal/refresolver/refresolver.go:350-428 | A call that does not go upstream says that its answer is cached; one that does gives what it got, with the digest filled in |
| `ResolverCacheLaws.AskedAgain` | internal/refresolver/refresolver.go:350-358 | The same request later in the run has the same answer without going upstream, whatever has become of the disk |
| `ResolverCacheLaws.HandedOver` | internal/refresolver/refresolver.go:362-380 | What one run fetched and wrote to disk another run that allows the resolver is given from there, offline or not |
| `ResolverCacheLaws.DirectoryIsPlain` | internal/refresolver/cache.go:344-362 | A resolver's directory is never empty and has neither dots nor slashes, and is its name where that is plain |
| `LogLines.LinesJoin` | internal/backend/loglines.go:16-21 | The simple splitter loses nothing: its lines, terminated again, are the text |
| `LogLines.NoByteIsLost` | internal/backend/loglines.go:22-63 | Over a whole text emitted, dropped and stripped bytes and newlines add up |
| `LogLines.LineIsEmitted` | internal/backend/loglines.go:25-38 | A line over 2^20 bytes is cut there, a carriage return at the cut included, and says how many bytes are missing; a line that fits loses one carriage return at its end |
| `LogLines.LinesComeBack` | internal/backend/loglines.go:16-21 | Lines shorter than the cap, each ended with a newline or a carriage return and a newline, and a last line left open come back as they were |
| `LogLines.ScanLogLines` | internal/backend/loglines.go:22-63 | However the stream is cut into reads, the emitted lines are those of the simple splitter, and written lines come back |
| `LogLines.ShownTells` | internal/backend/loglines.go:26-37 | An emitted line determines what was kept and how many bytes were dropped |

## Left out

- Docker, Kubernetes, SSH, image handling, sidecars and log following: what a task reports is an arbitrary outcome.
- The git, hub, http, bundle, cluster and remote resolvers: each is a function from a request to bytes or nothing; remote mode is in `Registry.Resolve`, and the transparency theorem is about direct mode.
- YAML and JSON: JSON decoding is a parameter of the resolver context, JSON array encoding a function of the plan.
- SHA-256: a function assumed injective where the cache laws need it. ULID syntax: a predicate.
- Clocks and contexts: flags that the environment may set at any step, and instants given as numbers; duration overflow for KeepDays beyond 292 years is not modelled.
- How a resolver param that is an array or an object is joined into one string: the substituted strings are in the model.
- Error messages, events other than task-retry, debug output, redaction, and the reporters.
- The CLI, the validator except rule 19, stepTemplate merging, workspaces, volumes and path containment.
- Integer overflow in the cross-product size and in sequence numbers: both are unbounded here.
- Crash points inside an index operation: each holds the lock from start to end, and a directory either goes or stays.
- `Resolve` of the run store, ULID prefixes and `meta.json`: lookups that add no harder property.
- Go's memory model: every access to the shared maps is under the mutex in the source, and is one step here.
- StepActionComposition: is about templates in which every dollar sign begins a complete reference, since `$$` is unescaped once per pass.
- Staging: asks in addition that task-scope values hold no dollar sign, since a value the task pass inserts is scanned again by the per-step pass.
- ExpandedHasLevels: is one way for a pipeline that names a single row of a matrix in runAfter or in a reference, where a cycle as written need not be one between rows.
- Confluent: says nothing of a main task whose steps read results of a task that is no ancestor, which the source can let happen because it scans params, when expressions and resolver params only; `SameLevelReadRaces` shows what becomes of such a read.
- InlinedArgsMean: its failing half asks that no task with results has a dot in its name; with one, the StepAction pass can fail on an argument that the task pass alone would splice.
