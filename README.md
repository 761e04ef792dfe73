# Multi-AI parallel development orchestrator: a verified model of its core

The orchestrator reads a YAML task file and turns it into a dependency graph. It runs the tasks in
parallel, each in its own git worktree and each with an AI tool adapter, within a concurrency limit
and a budget. This project models the parts of that system that make decisions, as Dafny, and proves
what those parts promise:

- **Dependency graph** (`DagTypes`, `DagBuilder`, `CycleDetector`, `TopologicalSort`, `Visualizer`):
  - building the graph from tasks, with the missing-dependency and cycle errors;
  - the depth-first cycle search over shared `visited`/`recStack`/`path` state;
  - Kahn's topological sort;
  - the "ready tasks" query;
  - the Mermaid rendering.
- **Scheduler** (`SchedulerTypes`, `TaskQueue`, `StateManager`, `Executor`):
  - the priority queue;
  - the run record with its state transitions, time stamps and retry counter;
  - one scheduling tick: enqueueing, admission up to the concurrency limit, and settlement with retries.
- **Git string logic** (`Branch`, `Worktree`, `Diff`):
  - branch-name sanitising;
  - the `git worktree list --porcelain` parser and the argument lists of `add` and `remove`;
  - diff fencing for an LLM prompt.
- **Policy** (`PolicyTypes`, `CostCalculator`, `Budget`, `ModelSelector`, `ModelProfileParser`):
  - token cost arithmetic;
  - the budget manager;
  - model selection by cost tier and complexity hint;
  - validation of model-profile entries.
- **Task files** (`TaskTypes`, `TaskValidator`, `TaskParser`):
  - the duplicate-id check;
  - error classification and inheritance of the file-level defaults.
- **Adapters** (`AdapterTypes`, `Registry`, `BaseAdapter`, `MockAdapter`):
  - the adapter registry;
  - the base adapter's default results;
  - the configurable mock adapter.
- **Shared modules** (`Wrappers`, `Seqs`, `Strings`, `Errors`, `Json`):
  - small helpers;
  - the error codes and the `[code] message` text;
  - a JSON-like value for parsed YAML.

Code that mutates state is modelled as imperative Dafny. The DFS, Kahn's loop, the builder's loops,
the porcelain loop and the validator's loop are methods with loop invariants. Each is proved against
a specification function, whose properties are lemmas.

The queue, the state manager, the executor, the budget manager, the registry and the mock adapter
are classes whose methods `modify` their fields. Pure code (the model selector, the branch sanitiser,
cost arithmetic, defaults) is functions and lemmas.

A JavaScript `Map` is modelled as a sequence of distinct keys in insertion order plus a Dafny `map`.
Clock readings (`new Date()`, `Date.now()`) are `now`/`elapsed` parameters. Money, tokens, tiers and
percentages are exact `real`s.

Where the code and its description disagree, the model follows the code:

- `selectModel`'s closest-tier fallback is modelled as written, and `ModelSelector.FilteredIsTier`
  proves that it cannot be reached. The final `sortedModels[0]` is left out of
  `ModelSelector.SelectModel`, since `ModelSelector.Filtered` ensures the candidates are never empty.
- The mock adapter's `review` with `shouldApprove` explicitly `undefined` reports `approved: true`
  but attaches one warning comment. This comes from `?? true` beside plain truthiness tests, and
  `MockAdapter.ReviewUnsetApproval` states it.
- The update of a task that is Pending again after a failed retry clears `error`
  (`error || undefined`).

## Model

Plain getters that return one field or its length have no row and no contract of their own: `TaskQueue.TaskQueue.Size`, `IsEmpty` and `GetAll` (src/scheduler/queue.ts:36-55), `Executor.Executor.IsExecuting`, `GetRunningTaskCount` and `GetMaxConcurrentTasks` (src/scheduler/executor.ts:156-166), and `MockAdapter.MockAdapter.GetName`, `IsAvailable`, `EstimateCost`, `GetExecutionCount` and `GetReviewCount`. `EstimateCost` returns `MockAdapter.Estimate`, which has a row.

| member | source | states |
|---|---|---|
| DagTypes.DepsInVertices | src/dag/cycle-detector.ts:24-30 | every dependency id, known or not, is a vertex the search may visit |
| DagTypes.RankedNoCycle | src/dag/cycle-detector.ts:4-15 | a strictly descending ranking of all nodes along dependency edges rules out every cycle (the finishing-time argument behind a null result) |
| DagTypes.ClosedSetHasCycle | src/dag/topological-sort.ts:17-31 | a non-empty set in which every node has a dependency inside the set contains a cycle of distinct nodes |
| DagTypes.CloseWalk | src/dag/cycle-detector.ts:35-39 | the slice of the path from the revisited node onward is a cycle of distinct nodes |
| DagBuilder.ToOrchestratorError | src/dag/builder.ts:22-28 | a missing dependency maps to TASK_DEPENDENCY_NOT_FOUND, a cycle to DAG_CYCLE_DETECTED |
| DagBuilder.BuildDag | src/dag/builder.ts:6-46 | the first missing dependency (in node order, then dependency order) is reported with its depId and taskId before any cycle check; otherwise the result is the linked graph exactly when it has no cycle, and the reported cycle is genuine and repetition-free |
| DagBuilder.InitialNodes | src/dag/builder.ts:10-16 | the initialisation loop builds the graph of `InitialDag` |
| DagBuilder.LinkDependents | src/dag/builder.ts:19-31 | the linking loop either returns the first missing dependency or the graph whose dependents lists all edges in order |
| DagBuilder.InitialWellFormed | src/dag/builder.ts:10-16 | the initial graph is a well-formed map whose nodes carry their own id and empty dependents |
| DagBuilder.InitialKeys | src/dag/builder.ts:10-16 | a node exists exactly for each task id |
| DagBuilder.InitialLastWins | src/dag/builder.ts:11 | with duplicate ids the last task's dependency list is kept |
| DagBuilder.InitialOrder | src/dag/builder.ts:10-16 | node keys follow first occurrence of the task ids |
| DagBuilder.LinkedMirrors | src/dag/builder.ts:19-31 | linking keeps keys and dependencies and makes b occur in a's dependents as often as a occurs in b's dependencies |
| DagBuilder.BuiltConsistent | src/dag/builder.ts:19-31 | a graph built without a missing dependency has closed, mirrored dependency and dependent lists |
| DagBuilder.NoneMissing | src/dag/builder.ts:19-28 | no missing dependency is reported exactly when every edge's target is a node |
| DagBuilder.TwoTaskExample | src/dag/builder.ts:6-46 | B depending on A yields nodes A and B in order and A's dependents are [B] |
| CycleDetector.IsCyclicUtil | src/dag/cycle-detector.ts:17-47 | a returned path is a repetition-free cycle; a null return leaves path and recStack as they were (an already visited v, met only from the outer loop with an empty path, changes nothing), marks v visited and keeps the search invariant |
| CycleDetector.VisitNew | src/dag/cycle-detector.ts:24-46 | an unvisited node is pushed, searched and, when no cycle is found, popped and ranked above all its dependencies |
| CycleDetector.VisitDependencies | src/dag/cycle-detector.ts:23-43 | the loop over v's dependencies either returns a genuine cycle or finishes all of them with path and recStack unchanged |
| CycleDetector.VisitDependency | src/dag/cycle-detector.ts:32-39 | one dependency: an unvisited one is searched; a visited one on the recursion stack yields exactly the path slice from its position, a repetition-free cycle; a visited one off the stack is skipped with no cycle; in every case it ends up finished |
| CycleDetector.Finish | src/dag/cycle-detector.ts:44-45 | popping v after its dependencies are finished restores the caller's stack and path and ranks v above everything finished |
| CycleDetector.DetectCycle | src/dag/cycle-detector.ts:4-15 | null exactly when the graph has no cycle; otherwise a repetition-free cycle |
| CycleDetector.SelfLoopCycle | src/dag/cycle-detector.ts:4-15 | a self-loop on A is a cycle and the only repetition-free cycle is [A] |
| CycleDetector.RingCycle | src/dag/cycle-detector.ts:4-15 | a three-node ring is a cycle and every repetition-free cycle of it has length 3 |
| TopologicalSort.InitInDegree | src/dag/topological-sort.ts:10-15 | the in-degree map and the seed queue of zero-dependency nodes, in node order |
| TopologicalSort.TopologicalSort | src/dag/topological-sort.ts:4-34 | the output starts with the seeds; for consistent graphs it has no repeats, only nodes, each after its dependencies, and for acyclic ones it is a permutation of all nodes |
| TopologicalSort.KahnStep | src/dag/topological-sort.ts:18-30 | one turn outputs the head of the queue, keeps Kahn's invariant and strictly shrinks the queue plus the positive degrees |
| TopologicalSort.KahnDone | src/dag/topological-sort.ts:17-33 | with the queue empty the output holds the seeds, is repetition-free, dependency-ordered, and a permutation of the nodes when acyclic |
| TopologicalSort.RelaxOne | src/dag/topological-sort.ts:24-28 | one dependent's degree drops by one and it is queued exactly when that reaches zero |
| TopologicalSort.RelaxDependents | src/dag/topological-sort.ts:21-29 | relaxing u's dependents lowers their degrees, appends those reaching 0, and keeps Kahn's invariant |
| TopologicalSort.AllDependenciesMet | src/dag/topological-sort.ts:43-45 | true exactly when every dependency is completed |
| TopologicalSort.GetParallelTasks | src/dag/topological-sort.ts:36-54 | the ready list equals the filter `ReadyUpTo` over the nodes in order |
| TopologicalSort.ReadyExactly | src/dag/topological-sort.ts:36-54 | the ready list has no repeats and holds exactly the uncompleted nodes whose dependencies are all completed |
| TopologicalSort.ReadyMonotone | src/dag/topological-sort.ts:43-46 | a node ready for S stays ready for any superset not containing it |
| TopologicalSort.ReadyWhenNoneCompleted | src/dag/topological-sort.ts:36-54 | with nothing completed the ready list is exactly the zero-dependency seeds |
| TopologicalSort.ReadyWhenAllCompleted | src/dag/topological-sort.ts:36-54 | with every node completed nothing is ready |
| TopologicalSort.CycleNotOrdered | src/dag/topological-sort.ts:23-28 | no node of a cycle can appear in a dependency-ordered output |
| TopologicalSort.ChainNotOrdered | src/dag/topological-sort.ts:23-28 | a node that reaches a cycle through dependencies never appears in a dependency-ordered output |
| TopologicalSort.AllReached | src/dag/topological-sort.ts:17-31 | when the queue empties on an acyclic graph, every node has been output |
| TopologicalSort.InitialInvariant | src/dag/topological-sort.ts:10-15 | the initial degrees and queue satisfy Kahn's invariant |
| Visualizer.GetMermaidGraph | src/dag/visualizer.ts:3-17 | the output is the header, one edge line per dependency by node then dependency, and a standalone line for isolated nodes, joined by newlines |
| Visualizer.LineCount | src/dag/visualizer.ts:4-16 | the line count is 1 + edges + isolated nodes and the first line is `graph TD` |
| Visualizer.StartsWithHeader | src/dag/visualizer.ts:4 | the rendered text starts with `graph TD` |
| Visualizer.LinesRecovered | src/dag/visualizer.ts:16 | for ids without newlines, splitting the text on newlines gives back the lines |
| Visualizer.EveryNodeDrawn | src/dag/visualizer.ts:6-13 | every dependency edge is drawn and every isolated node gets its standalone line |
| Visualizer.NoEdgesNoArrows | src/dag/visualizer.ts:6-9 | with no edges (and ids without `-->`), the text contains no arrow |
| TaskQueue.FindInsertIndex | src/scheduler/queue.ts:12-17 | the index of the first item the new one outranks, or -1 |
| TaskQueue.FindTaskIndex | src/scheduler/queue.ts:45 | -1 exactly when no item carries the id; otherwise the first such index |
| TaskQueue.TaskQueue.constructor | src/scheduler/queue.ts:7 | the queue starts empty and ordered |
| TaskQueue.TaskQueue.Enqueue | src/scheduler/queue.ts:9-26 | the items become the old items with the new one at its position, still in priority order |
| TaskQueue.TaskQueue.Dequeue | src/scheduler/queue.ts:28-30 | none and no change on an empty queue, otherwise the head is returned and removed |
| TaskQueue.TaskQueue.Peek | src/scheduler/queue.ts:32-34 | the head, or none exactly when empty |
| TaskQueue.TaskQueue.RemoveByTaskId | src/scheduler/queue.ts:44-51 | true exactly when a match existed; only the first match is removed and order is kept |
| TaskQueue.TaskQueue.Clear | src/scheduler/queue.ts:57-59 | the queue becomes empty |
| TaskQueue.InsertedSorted | src/scheduler/queue.ts:9-26 | insertion keeps priority-descending, timestamp-ascending order |
| TaskQueue.InsertedContents | src/scheduler/queue.ts:9-26 | insertion adds exactly the item, grows the size by one and keeps the others in order |
| TaskQueue.InsertedAfterEquals | src/scheduler/queue.ts:12-16 | an item is placed after every queued item it does not outrank, so equals are FIFO |
| TaskQueue.RemoveFirstAt | src/scheduler/queue.ts:44-51 | removal cuts out exactly the first matching item |
| TaskQueue.RemoveKeepsSorted | src/scheduler/queue.ts:44-51 | removal keeps the order, shrinks by one exactly when a match existed, and adds nothing |
| StateManager.IndexOfTask | src/scheduler/state-manager.ts:31-33 | the position of the first task with the id, or none when no task has it |
| StateManager.FindTask | src/scheduler/state-manager.ts:22-24 | the first task with that id in the list, present exactly when one exists |
| StateManager.StateManager.GetTask | src/scheduler/state-manager.ts:22-24 | the stored run's first task with that id, as `FindTask` of the stored tasks |
| StateManager.TasksInState | src/scheduler/state-manager.ts:80-82 | the filter keeps only tasks of the list that are in the state, and never more tasks than the list has (order and repeats: `StateFilterOrder`) |
| StateManager.StateFilterOrder | src/scheduler/state-manager.ts:80-82 | the state filter keeps list order and multiplicity: over a concatenation it yields the filtered tasks of each part in turn |
| StateManager.StateFilterSnoc | src/scheduler/state-manager.ts:80-82 | one more task at the end of the list is kept exactly when it is in the state |
| StateManager.IsReady | src/scheduler/state-manager.ts:89-99 | a ready task is Pending, and a dependency on an id no task has makes it not ready |
| StateManager.ReadyTasks | src/scheduler/state-manager.ts:88-100 | a task is in the ready list exactly when it is in the list and ready (order and repeats: `ReadyOrder`) |
| StateManager.ReadyOrder | src/scheduler/state-manager.ts:88-100 | the ready filter keeps list order and multiplicity: over a concatenation of candidates it yields the ready tasks of each part in turn |
| StateManager.StateManager.GetTasksByState | src/scheduler/state-manager.ts:80-82 | exactly the run's tasks in that state, as the list `TasksInState` of the stored tasks |
| StateManager.StateManager.GetPendingTasks | src/scheduler/state-manager.ts:84-86 | exactly the run's Pending tasks |
| StateManager.StateManager.GetReadyTasks | src/scheduler/state-manager.ts:88-100 | exactly the run's ready tasks, as the list `ReadyTasks` of the stored tasks |
| StateManager.StateManager.GetAllTasks | src/scheduler/state-manager.ts:113-115 | a copy of the task list, entry for entry |
| StateManager.Transition | src/scheduler/state-manager.ts:38-55 | the new state and error; start stamp and cleared end on Running, end stamp on Succeeded or Failed, cleared end and empty error on Pending; nothing else changes |
| StateManager.StateManager.constructor | src/scheduler/state-manager.ts:9-16 | the given id, no tasks, status running, started now |
| StateManager.StateManager.AddTask | src/scheduler/state-manager.ts:18-20 | the task is appended |
| StateManager.StateManager.UpdateTaskState | src/scheduler/state-manager.ts:26-57 | false and no change for an unknown id; otherwise only the first matching task is rewritten by `Transition` |
| StateManager.StateManager.IncrementRetryCount | src/scheduler/state-manager.ts:59-78 | adds one exactly when the task exists and is below its maximum, and keeps every retry count within its bound |
| StateManager.StateManager.SetRunStatus | src/scheduler/state-manager.ts:102-107 | the status is set; the end time is stamped for completed, failed and cancelled only |
| StateManager.FindIndex | src/scheduler/state-manager.ts:31-36 | the `findIndex` loop returns the first index with the id, or -1 |
| StateManager.StateFilter | src/scheduler/state-manager.ts:80-86 | the state filter keeps exactly the tasks in that state |
| StateManager.ReadyExactly | src/scheduler/state-manager.ts:88-100 | a task is ready exactly when it is Pending and each dependency names a task that has succeeded |
| StateManager.UnknownDependencyBlocks | src/scheduler/state-manager.ts:95-98 | a dependency on an unknown id is never satisfied |
| Executor.Settled | src/scheduler/executor.ts:116-130 | success gives Succeeded; a failure below the retry bound gives Pending with one more retry; otherwise Failed with the error; retry counts stay within bounds |
| Executor.MaxConcurrent | src/scheduler/executor.ts:31 | the given limit, or 5 when none is given |
| Executor.Priority | src/scheduler/executor.ts:141-149 | every task gets priority 1 |
| Executor.Admissions | src/scheduler/executor.ts:98-105 | at most one admitted task per dequeued entry |
| Executor.Outcome | src/scheduler/executor.ts:52-60 | the run succeeds exactly when it is not failing; success carries an output and no error, failure an error starting `Simulated failure for task ` and no output |
| Executor.Executor.IsTaskInQueue | src/scheduler/executor.ts:151-154 | true exactly when some queue entry carries the id |
| Executor.Executor.constructor | src/scheduler/executor.ts:29-34 | the concurrency limit defaults to 5, nothing runs and the queue is empty |
| Executor.Executor.ExecuteTask | src/scheduler/executor.ts:36-67 | an unknown id fails with `Task <id> not found` and changes nothing; a known one is moved to Running before the outcome |
| Executor.Executor.EnqueueReady | src/scheduler/executor.ts:74-91 | the ready tasks not running and not queued are enqueued in order, and the queue stays sorted and duplicate-free |
| Executor.Executor.AdmitTasks | src/scheduler/executor.ts:94-109 | up to the free slots are dequeued; items whose task is unknown or already running are dropped; admitted ids join the running set |
| Executor.Executor.AdmitOne | src/scheduler/executor.ts:99-105 | one dequeue: stops on an empty queue, else extends the admissions by that item's rule and grows the running set to match |
| Executor.Executor.Settle | src/scheduler/executor.ts:116-130 | the task's stored record becomes the one the retry rule gives, and nothing else changes |
| Executor.RunThenSettle | src/scheduler/executor.ts:112-134 | running a task and then settling it equals the one-step spec `RunOne` |
| Executor.AdmittedReleased | src/scheduler/executor.ts:131-134 | removing the admitted ids after the tick restores the running set |
| Executor.Executor.RunAndSettle | src/scheduler/executor.ts:112-134 | the task is run, settled by the retry rule and removed from the running set |
| Executor.Executor.RunAdmitted | src/scheduler/executor.ts:112-134 | every admitted task is settled in turn and leaves the running set |
| Executor.Executor.ExecuteReadyTasks | src/scheduler/executor.ts:69-139 | the admitted tasks are `Admissions` of the first n entries of the queue after the enqueue phase, n being one per free slot while entries last; the queue keeps the remaining entries; manager, queue and limit stay the same objects; the admissions never take the running set past the limit, the running set is back to its old value afterwards, and the task list is `RunAll` of the admissions |
| Executor.EnqueueKeepsValid | src/scheduler/executor.ts:74-91 | enqueueing keeps the queue sorted and never queues a task twice |
| Executor.EnqueueCovers | src/scheduler/executor.ts:74-91 | afterwards a task is queued exactly when it already was, or it is ready and not running |
| Executor.EnqueueLength | src/scheduler/executor.ts:74-91 | `EnqueuePhase`, the enqueue loop of the tick, drops no entry and adds at most one per ready task |
| Executor.ConsumedBounds | src/scheduler/executor.ts:93-109 | `Consumed`, the count of the dequeue loop, is one per free slot, stops early only when the queue runs out, and is zero without a free slot |
| Executor.RunOneFacts | src/scheduler/executor.ts:112-134 | `RunOne`, one admitted task run and settled, changes only the first record with its id, which ends Succeeded, Pending for a retry or Failed; an unknown id changes nothing |
| Executor.RunAllFacts | src/scheduler/executor.ts:111-138 | `RunAll`, the run-and-settle phase over all admissions, keeps the list's length and ids and leaves records that were not admitted unchanged |
| Executor.EnqueueAppends | src/scheduler/executor.ts:141-149 | with the constant priority 1 that enqueueing (line 79) uses, new items go to the back, so admission order is enqueue order |
| Executor.AdmissionsFacts | src/scheduler/executor.ts:98-105 | admissions are known tasks not already running, without repeats, at most one per dequeued item |
| Executor.AdmissionBound | src/scheduler/executor.ts:94-109 | the running set plus the admissions stays within `maxConcurrentTasks` |
| Branch.BranchManager.GenerateName | src/git/branch.ts:16-24 | the prefix followed by a string of `[a-z0-9-]` without doubled or edge hyphens |
| Branch.Sanitize | src/git/branch.ts:17-21 | the sanitised id is no longer than the id and uses only `[a-z0-9-]` |
| Branch.BranchManager.IsAIBranch | src/git/branch.ts:29-31 | a name is an AI branch exactly when it is the prefix followed by the rest of the name |
| Branch.NewBranchManager | src/git/branch.ts:9-11 | a missing or empty prefix becomes `feature/ai-` |
| Branch.SanitizeClean | src/git/branch.ts:17-21 | the sanitised id uses only lower-case letters, digits and single inner hyphens |
| Branch.SanitizeKeepsAlnums | src/git/branch.ts:18-19 | removing hyphens from the sanitised id gives exactly the lower-cased letters and digits of the id, in order |
| Branch.SanitizeIdempotent | src/git/branch.ts:17-21 | sanitising twice equals sanitising once |
| Branch.GeneratedIsAIBranch | src/git/branch.ts:29-31 | every generated name is recognised as an AI branch |
| Branch.AIBranchIff | src/git/branch.ts:29-31 | a name is an AI branch exactly when it starts with the prefix |
| Branch.ExamplePlain | src/git/branch.ts:16-24 | `PR-04` becomes `feature/ai-pr-04` |
| Branch.ExampleCustomPrefix | src/git/branch.ts:9-24 | with prefix `fix/`, `bug-fix` becomes `fix/bug-fix` |
| Branch.ExampleSanitized | src/git/branch.ts:16-24 | `Task #123: complex_title! ` becomes `feature/ai-task-123-complex-title` |
| Branch.ExampleRecognised | src/git/branch.ts:29-31 | `feature/ai-test` is an AI branch, `main` and `feature/other` are not |
| Diff.ParseRawDiff | src/git/diff.ts:13-15 | the raw diff is returned unchanged |
| Diff.FormatForLLM | src/git/diff.ts:20-23 | an empty diff gives `No changes.`; otherwise the diff sits between the opening and closing fences |
| Diff.UnfenceFormatted | src/git/diff.ts:20-23 | removing the fence gives back the diff |
| Diff.FormatInjective | src/git/diff.ts:20-23 | different diffs are formatted differently |
| Diff.FormattedContains | src/git/diff.ts:22 | the formatted non-empty diff contains the diff and the ```` ```diff ```` fence |
| Worktree.List | src/git/worktree.ts:30-49 | the porcelain loop returns `ParsePorcelain` of the newline-split output |
| Worktree.AddArgs | src/git/worktree.ts:17-24 | an existing local branch gives `worktree add <path> <branch>`, otherwise `worktree add -b <branch> <path>` |
| Worktree.RemoveArgs | src/git/worktree.ts:54-60 | `worktree remove <path>`, with `--force` appended only when forced |
| Worktree.RecordAfter | src/git/worktree.ts:36-46 | a `worktree <p>` line followed by other lines yields one record with path p and the last HEAD and branch values |
| Worktree.EmptyPathDropped | src/git/worktree.ts:36-46 | a record with an empty path is never emitted |
| Worktree.Preamble | src/git/worktree.ts:36-46 | lines before the first `worktree ` line yield no record |
| Worktree.RunBlock | src/git/worktree.ts:40-44 | HEAD and branch lines overwrite the current record's fields, later ones winning, and other lines are ignored |
| Worktree.RecordOrder | src/git/worktree.ts:36-46 | the records' paths are the non-empty `worktree ` paths in input order |
| Worktree.RecordCount | src/git/worktree.ts:36-46 | one record per `worktree ` line with a non-empty path |
| Worktree.AddArgsRead | src/git/worktree.ts:17-24 | the add arguments determine branch, path and whether a new branch is created |
| Worktree.RemoveArgsRead | src/git/worktree.ts:54-60 | the remove arguments are read back as the path and the force flag, and no other argument list reads that way |
| Errors.CodeString | src/errors/index.ts:1-40 | each code is a five-character string starting with `E` |
| Errors.ErrorText | src/errors/index.ts:42-51 | the reported text is `[code] message` |
| Errors.CodeStringInjective | src/errors/index.ts:1-40 | distinct codes have distinct strings |
| CostCalculator.CalculateCost | src/policy/cost-calculator.ts:6-22 | token counts echoed; each cost is tokens / 1000 times its rate; total is their sum |
| CostCalculator.ZeroTokens | src/policy/cost-calculator.ts:11-13 | zero tokens cost nothing |
| CostCalculator.Additive | src/policy/cost-calculator.ts:11-13 | the total cost is additive in the token counts |
| CostCalculator.Monotone | src/policy/cost-calculator.ts:11-13 | with non-negative rates the total grows with each token count |
| CostCalculator.Example | src/policy/cost-calculator.ts:6-22 | 1000 and 500 tokens at 0.03 and 0.06 cost 0.03, 0.03 and 0.06 |
| Budget.Spend | src/policy/budget-manager.ts:37-40 | spending adds exactly cost and tokens and keeps the limits |
| Budget.Exceeded | src/policy/budget-manager.ts:25-32 | an axis is exceeded exactly when it does not allow the new total: always under a zero limit, never under a negative one, above the limit under a positive one |
| Budget.Available | src/policy/budget-manager.ts:19-35 | a request is available exactly when both axes allow their new totals |
| Budget.Percent | src/policy/budget-manager.ts:62-70 | under a positive limit the percentage times the limit is spent times 100; otherwise 0 |
| Budget.Warning | src/policy/budget-manager.ts:75-81 | the warning fires exactly when one axis warns: its spent·100 reaches threshold·limit under a positive limit, or the threshold is at most 0 without one |
| Budget.PercentAxis | src/policy/budget-manager.ts:62-81 | one axis's utilisation reaches the threshold exactly when that axis warns |
| Budget.BudgetManager.GetState | src/policy/budget-manager.ts:15-17 | a copy of the state with the same limits and amounts spent |
| Budget.BudgetManager.IsBudgetAvailable | src/policy/budget-manager.ts:19-35 | true exactly when both axes allow the current state's totals plus the request |
| Budget.BudgetManager.GetRemainingBudget | src/policy/budget-manager.ts:42-56 | each remainder is at least 0 and at least limit minus spent, and equal to one of them |
| Budget.BudgetManager.GetUtilizationPercentage | src/policy/budget-manager.ts:58-73 | each utilisation times a positive limit is spent times 100, and 0 without a positive limit |
| Budget.BudgetManager.IsWarningThresholdExceeded | src/policy/budget-manager.ts:75-81 | true exactly when one axis warns at the manager's threshold |
| Budget.RemainingOf | src/policy/budget-manager.ts:42-56 | each remaining amount is `max(0, limit - spent)`, never negative |
| Budget.BudgetManager.constructor | src/policy/budget-manager.ts:10-13 | the initial state, and a warning threshold defaulting to 80 |
| Budget.BudgetManager.AddSpending | src/policy/budget-manager.ts:37-40 | the state becomes `Spend` of the old state, without consulting the limits |
| Budget.ZeroLimitDenies | src/policy/budget-manager.ts:25-32 | a zero monthly or daily limit denies every request |
| Budget.NegativeLimitsAllow | src/policy/budget-manager.ts:25-34 | a negative limit never refuses on its own axis whatever the other limit is, so the decision is the other axis's alone; with both negative every request is allowed |
| Budget.AvailableIff | src/policy/budget-manager.ts:19-35 | with positive limits a request is available exactly when both new totals stay within the limits |
| Budget.SpendAllowed | src/policy/budget-manager.ts:19-56 | spending an available amount stays within the limits and lowers the remaining budget by exactly that amount |
| Budget.SpendTwice | src/policy/budget-manager.ts:37-40 | two spendings equal one of their sum |
| Budget.PercentAtLeast | src/policy/budget-manager.ts:62-70 | utilisation reaches a threshold exactly when spent·100 ≥ threshold·limit |
| Budget.PercentBounds | src/policy/budget-manager.ts:62-70 | utilisation of a spend within the limit lies between 0 and 100 |
| Budget.WarningIff | src/policy/budget-manager.ts:75-81 | a warning is raised exactly when either utilisation reaches the threshold |
| Budget.NoLimitNoWarning | src/policy/budget-manager.ts:62-81 | without positive limits utilisation is 0, so a warning comes only from a threshold ≤ 0 |
| Budget.DefaultThreshold | src/policy/budget-manager.ts:75-81 | with the default threshold of 80 (line 10) a warning means 80% of a limit is reached |
| ModelSelector.MinOf | src/policy/model-selector.ts:23 | the minimum tier is one of the tiers and at most each |
| ModelSelector.MaxOf | src/policy/model-selector.ts:27 | the maximum tier is one of the tiers and at least each |
| ModelSelector.Dedup | src/policy/model-selector.ts:41 | the unique tiers are the same values without repeats |
| ModelSelector.MiddleIndex | src/policy/model-selector.ts:44-52 | both the even and the odd branch pick index (n-1)/2 |
| ModelSelector.Round | src/policy/model-selector.ts:60 | `Math.round` as the nearest integer with halves rounded up |
| ModelSelector.Closest | src/policy/model-selector.ts:61-65 | the reduce picks a model whose tier is nearest the target |
| ModelSelector.Filtered | src/policy/model-selector.ts:15-69 | the candidates are never empty and are all models of the sorted list |
| ModelSelector.SelectModel | src/policy/model-selector.ts:6-83 | no model exactly when the catalogue is empty, and otherwise one of the catalogue's models |
| ModelSelector.SortOrders | src/policy/model-selector.ts:15 | the sort orders by ascending tier |
| ModelSelector.SortPermutes | src/policy/model-selector.ts:15 | the sort is a permutation |
| ModelSelector.SortStable | src/policy/model-selector.ts:15 | models of equal tier keep their input order |
| ModelSelector.WithKeyMembers | src/policy/model-selector.ts:22-56 | the tier filter keeps exactly the models of that tier |
| ModelSelector.MiddleTier | src/policy/model-selector.ts:41-52 | the middle unique tier is present and has (distinct tiers - 1) / 2 distinct tiers below it |
| ModelSelector.FilteredIsTier | src/policy/model-selector.ts:15-69 | the candidates are never empty and are all models of one present tier: the least for low, the greatest for high, the middle otherwise, so the fallback is dead |
| ModelSelector.SelectCharacterised | src/policy/model-selector.ts:6-83 | a non-empty catalogue yields one of its models, of the tier the cost tier asks for, chosen by the hint among that tier in input order |
| ModelSelector.SelectFromFiltered | src/policy/model-selector.ts:71-82 | the choice is made by the hint among the filtered candidates |
| ModelSelector.PreferredIn | src/policy/model-selector.ts:72-82 | the hint preference always picks one of the candidates |
| ModelSelector.HintChosen | src/policy/model-selector.ts:72-74 | the hint matches are candidates |
| ModelSelector.SingleTier | src/policy/model-selector.ts:36-38 | when all tiers are equal every model is a candidate, whatever the cost tier |
| ModelProfileParser.NonEmptyString | src/policy/model-profile.ts:33-41 | accepted exactly when the value is a non-empty string |
| ModelProfileParser.Number | src/policy/model-profile.ts:42-50 | accepted exactly when the value is a number |
| ModelProfileParser.ArrayOf | src/policy/model-profile.ts:51-56 | accepted exactly when the value is an array; the same test guards `models` on line 23 |
| ModelProfileParser.ParseEntry | src/policy/model-profile.ts:33-71 | an accepted entry is an object whose nine fields are copied unchanged into the profile |
| ModelProfileParser.ParseEntries | src/policy/model-profile.ts:29-76 | a successful parse yields one profile per entry |
| ModelProfileParser.ParseModelProfiles | src/policy/model-profile.ts:19-81 | every error carries the `Failed to parse model profiles: ` prefix; a load error is passed through with it, a document without a `models` array gives the structure error, and success yields one profile per listed entry |
| ModelProfileParser.Parse | src/policy/model-profile.ts:19-81 | the loop's outcome is `ParseModelProfiles`: the structure error, the first failing entry's message, or one profile per entry |
| ModelProfileParser.EntriesOk | src/policy/model-profile.ts:29-76 | success exactly when every entry passes, with one profile per entry in order |
| ModelProfileParser.EntriesValues | src/policy/model-profile.ts:29-76 | a list that parses has every entry passing, and its i-th profile is the i-th entry's |
| ModelProfileParser.AllParse | src/policy/model-profile.ts:29-76 | a list whose every entry passes parses |
| ModelProfileParser.ErrorStops | src/policy/model-profile.ts:31-35 | once an entry fails, later entries do not change the outcome |
| ModelProfileParser.EntriesErr | src/policy/model-profile.ts:31-59 | the error reported is that of the first failing entry |
| ModelProfileParser.RenderParses | src/policy/model-profile.ts:61-71 | a profile written out as an entry parses back to itself |
| ModelProfileParser.RenderedListParses | src/policy/model-profile.ts:29-76 | the list of profiles written out as entries, one per profile, parses back to exactly that list |
| ModelProfileParser.FirstFailingField | src/policy/model-profile.ts:33-59 | the nine field checks run in source order (id, provider, model, the two costs, maxTokensPerCall, qualityTags, defaultUse, tier): when the first k pass and check k fails, the entry is rejected with check k's message |
| ModelProfileParser.AllFieldsPass | src/policy/model-profile.ts:33-71 | an object entry that passes all nine checks is parsed into a profile |
| ModelProfileParser.EmptyModels | src/policy/model-profile.ts:29-76 | an empty models list gives no profiles |
| ModelProfileParser.MissingModels | src/policy/model-profile.ts:23-80 | a missing or non-array `models` gives the prefixed structure error |
| TaskValidator.Ids | src/tasks/validator.ts:14 | the ids of the tasks, position by position |
| TaskValidator.Repeats | src/tasks/validator.ts:14-24 | the indices of repeat occurrences are task indices |
| TaskValidator.ValidateTasksSemantics | src/tasks/validator.ts:9-27 | the loop returns exactly `DuplicateErrors` of the tasks |
| TaskValidator.CheckTask | src/tasks/validator.ts:14-23 | a task whose id was already seen appends one DUPLICATE_TASK_ID error at its index and leaves the seen set alone; any other task adds its id and appends nothing |
| TaskValidator.RepeatsExactly | src/tasks/validator.ts:14-24 | an index is flagged exactly when its id occurred earlier, and flags come in index order |
| TaskValidator.RepeatsMembers | src/tasks/validator.ts:14-24 | an index is flagged exactly when its id occurred at an earlier index |
| TaskValidator.RepeatsIncreasing | src/tasks/validator.ts:14-24 | flagged indices come in strictly increasing order |
| TaskValidator.FirstNeverFlagged | src/tasks/validator.ts:15-22 | the first occurrence of an id is never flagged |
| TaskValidator.RepeatsCount | src/tasks/validator.ts:14-24 | the number of flags is the number of tasks minus the number of distinct ids |
| TaskValidator.NoErrorsIffDistinct | src/tasks/validator.ts:9-27 | no errors exactly when all ids are distinct |
| TaskValidator.ErrorsDescribeRepeats | src/tasks/validator.ts:14-24 | each error is DUPLICATE_TASK_ID with path tasks/index/id at a repeated index |
| TaskParser.OrElse | src/tasks/parser.ts:38-40 | an own value wins over the fallback |
| TaskParser.WithDefaults | src/tasks/parser.ts:36-41 | repo, tool and merge policy are filled from the file's defaults when absent, and nothing else changes |
| TaskParser.ApplyDefaults | src/tasks/parser.ts:36-46 | task count, order and top-level fields are kept and each task gets its defaults |
| TaskParser.ParseTasksFile | src/tasks/parser.ts:16-47 | a load failure gives `Failed to parse YAML: ` and its message without a schema report; a schema failure gives `Validation failed` with the schema's report; success exactly when both steps pass, with the schema's file after the defaults |
| TaskParser.LoadFailureFirst | src/tasks/parser.ts:18-23 | a YAML failure is reported as `Failed to parse YAML: …` whatever the schema |
| TaskParser.Classified | src/tasks/parser.ts:18-31 | load failures carry no schema report, schema failures carry one with `Validation failed`, and success needs both steps to pass |
| TaskParser.DefaultsIdempotent | src/tasks/parser.ts:36-41 | applying the defaults twice equals applying them once |
| TaskParser.DefaultsFill | src/tasks/parser.ts:36-41 | every task gets a merge policy, and a repo and tool when the file has defaults |
| TaskParser.IdsPreserved | src/tasks/parser.ts:33-46 | a successful parse keeps every task id in place, duplicates included |
| Registry.Without | src/adapters/registry.ts:74-76 | deleting a name keeps exactly the other names |
| Registry.ValuesOf | src/adapters/registry.ts:65-67 | the adapters of the names, in the names' order |
| Registry.AdapterRegistry.constructor | src/adapters/registry.ts:9 | the registry starts empty |
| Registry.AdapterRegistry.Register | src/adapters/registry.ts:16-25 | a new name is appended with its adapter; an existing one raises `already registered` and changes nothing |
| Registry.AdapterRegistry.Get | src/adapters/registry.ts:33-42 | the registered adapter, or the `not registered` error exactly when the name is absent |
| Registry.AdapterRegistry.Has | src/adapters/registry.ts:49-51 | true exactly when `get` finds the adapter, and false exactly when `get` raises `not registered` |
| Registry.AdapterRegistry.List | src/adapters/registry.ts:57-59 | every registered name, once, side by side with `getAll`'s adapters |
| Registry.AdapterRegistry.GetAll | src/adapters/registry.ts:57-67 | the adapters in registration order, one per listed name |
| Registry.AdapterRegistry.Unregister | src/adapters/registry.ts:74-76 | true exactly when the name was present; only that name is removed and the order of the rest is kept |
| Registry.AdapterRegistry.Clear | src/adapters/registry.ts:81-83 | the registry becomes empty |
| Registry.WithoutDistinct | src/adapters/registry.ts:74-76 | deleting keeps the names distinct and shrinks the list by one exactly when the name was there |
| Registry.WithoutKeepsOrder | src/adapters/registry.ts:74-76 | names left after a deletion keep their relative order |
| BaseAdapter.DefaultReview | src/adapters/base-adapter.ts:38-50 | the default review approves with the summary `No review performed`, no comments and zero tokens and duration |
| BaseAdapter.DefaultEstimate | src/adapters/base-adapter.ts:56-64 | the default estimate is all zeros with the adapter's name as model id |
| BaseAdapter.SuccessResult | src/adapters/base-adapter.ts:69-84 | success with the given fields and no error |
| BaseAdapter.ErrorResult | src/adapters/base-adapter.ts:89-104 | failure with the error, empty output and files, tokens and duration defaulting to 0 |
| BaseAdapter.HelpersDisjoint | src/adapters/base-adapter.ts:69-104 | a success result never equals an error result |
| MockAdapter.Override | src/adapters/mock-adapter.ts:147-149 | as in the constructor's spread (line 42), a supplied key, even undefined, overrides; an omitted one keeps the current value |
| MockAdapter.Estimate | src/adapters/mock-adapter.ts:109-120 | input is 10 per title character, output twice that, cost 0.0001 per token, model id the name |
| MockAdapter.MockAdapter.constructor | src/adapters/mock-adapter.ts:34-44 | the name defaults to `mock-adapter` and the given keys override the default configuration, the counters start at 0; `getName` returns this name |
| MockAdapter.MockAdapter.Execute | src/adapters/mock-adapter.ts:50-75 | the execution count goes up by one whatever the outcome, and the result is `ExecuteOutcome` |
| MockAdapter.MockAdapter.Review | src/adapters/mock-adapter.ts:77-107 | the review count goes up by one and the result is `ReviewOutcome` |
| MockAdapter.ExecuteOutcome | src/adapters/mock-adapter.ts:57-74 | success exactly when `shouldSucceed` is true, with an error exactly on failure; input tokens 100 and the duration the elapsed time plus the delay |
| MockAdapter.ReviewOutcome | src/adapters/mock-adapter.ts:85-106 | approval unless `shouldApprove` is false; no comments exactly when it is true; input tokens the diff length and the duration the elapsed time plus the delay |
| MockAdapter.MockAdapter.ResetCounters | src/adapters/mock-adapter.ts:139-142 | both counters become 0 and the configuration is kept |
| MockAdapter.MockAdapter.UpdateConfig | src/adapters/mock-adapter.ts:147-149 | only the supplied keys change |
| MockAdapter.NoUpdateKeeps | src/adapters/mock-adapter.ts:147-149 | an empty update changes nothing |
| MockAdapter.MergeThen | src/adapters/mock-adapter.ts:147-149 | two updates in a row equal one combined update |
| MockAdapter.Defaults | src/adapters/mock-adapter.ts:36-43 | by default execution succeeds, the adapter is available, reviews approve, the delay is 0 and the output is the default text |
| MockAdapter.ExecuteShapes | src/adapters/mock-adapter.ts:59-74 | success gives the custom output, one file `<worktree>/mock-output.ts` and tokens 100/50; failure gives `Mock execution failed`, tokens 100/0 and no files |
| MockAdapter.ReviewShapes | src/adapters/mock-adapter.ts:87-106 | approval comes with no comments and rejection with one warning; input tokens are the diff length |
| MockAdapter.ReviewUnsetApproval | src/adapters/mock-adapter.ts:88-102 | with `shouldApprove` undefined the review approves yet carries one comment |
| MockAdapter.EstimatePerCharacter | src/adapters/mock-adapter.ts:111-117 | the estimate costs 0.003 per title character |

## Left out

- `src/scheduler/persistence.ts` (SQLite storage) and `src/git/manager.ts` (thin `simple-git` calls) are not part of this model.
- The git commands themselves (`branchLocal`, `raw`, `prune`) are not modelled. The model computes the argument lists and parses the porcelain text; the list of local branches and the raw output are inputs.
- `yaml.load` and the Zod schemas are not modelled. Their outcomes are inputs: a `Result` of a JSON-like value for the model profiles, and a schema function for the task file.
- Async behaviour, `setTimeout`, `Promise.all` and `Math.random` are not modelled. Executor: the tasks admitted in a tick settle one after another, in admission order. The failures that `failureRate` would draw are a `set` of task ids given as a parameter. `Executor.ExecuteTask`'s simulated delay and `executeTask`'s `catch` branch (nothing in its body throws) are left out.
- Clock readings are parameters. `new Date()` and `Date.now()` become `now`, and the mock adapter's elapsed time becomes `elapsed`. A whole tick uses one `now`.
- Floating point is not modelled: costs, rates, tiers and percentages are exact reals. NaN, infinities and rounding error are not represented.
- Counts are integers: `maxConcurrentTasks`, `maxRetries`, `retryCount`, queue priorities and the adapters' token counts are `int`. The schemas accept any JavaScript number there, and fractional values are not represented. With a fractional limit the source behaves differently: `maxConcurrentTasks = 2.5` lets the admission loop dequeue three entries, and `maxRetries = 1.5` allows two retries.
- `Branch.Lower`: lower-cases ASCII only; every other character becomes `-`, as a non-ASCII letter would after the `[^a-z0-9]` replacement. Characters that `toLowerCase` maps into ASCII, such as the Kelvin sign, are not modelled.
- `MockAdapter.ReviewShapes` and `MockAdapter.ReviewOutcome`: `diff.length` counts UTF-16 code units; the model counts the string's characters, so a character outside the Basic Multilingual Plane counts 1 rather than 2.
- `TopologicalSort.TopologicalSort`: the ordering and permutation results are stated for consistent graphs, as `buildDag` produces. Consistent means each node is keyed by its own id, the dependency lists are closed and the dependents lists mirror them; `DagBuilder.BuiltConsistent` proves that built graphs have this property. The FIFO order among simultaneously ready nodes is not stated.
- `TopologicalSort.ReadyMonotone`: Dafny proves it directly from the definition of readiness, so the lemma has no proof body.
- `StateManager`: `getRunState`'s shallow copy, which shares the task array with the manager, is not modelled; the class's fields are the run state.
- The review and human states (Blocked, WaitingReview, WaitingHuman) exist as values only, as in the source, where nothing enters them. No budget or model-selection gate appears in admission, because the executor calls neither.
- The process-wide `defaultRegistry` singleton is not modelled. Registries are constructed explicitly, and an adapter's `getName` is the registry's `nameOf` function.
- `ModelProfileParser.ParseEntry`: a `null` entry fails with the engine's fixed `TypeError` text for reading `id`. Other non-object entries fail the `id` check, as they do in JavaScript. The `String(error)` branch for non-`Error` throws cannot arise from this code and is left out.
- `TaskParser.ParseTasksFile`: a thrown non-`Error` value's `String(e)` text is not distinguished. The load failure is already a message string.
- `MockAdapter.Estimate`: the `?? 50` fallback for a missing title is left out, because the task schema requires a title. `title.length` counts UTF-16 code units; the model counts the title's characters, so a one-emoji title is estimated at 10 input tokens rather than 20.
- `MockAdapter.EstimatePerCharacter`: the cost is 0.003 per title character, not per UTF-16 code unit, for the same reason.
- `Worktree.RemoveArgsRead`: Dafny proves it directly from the definitions of the argument list and its reading, so the lemma has no proof body.
- `Worktree.AddArgsRead`: reading the arguments back is stated for paths other than `-b`, since `add -b <path>` is ambiguous otherwise.
- `ModelSelector.Filtered`: the closest-tier fallback is modelled as written; `ModelSelector.FilteredIsTier` proves it is never reached.
- `ModelSelector.SelectModel`: the final `sortedModels[0]` fallback (line 82) is left out, because `ModelSelector.Filtered` proves the candidates are never empty.
