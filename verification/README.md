# Verified models of the hard cores

This project models, in Dafny, the parts of the repository that carry real algorithms or protocols, and proves what
they are for. Each component stands alone; the two components that search dependency graphs share one small library of
paths, reachability and cycles (`Graphs`). `Prelude` holds `Option` and a few facts about sequences.

`dafny verify dfyconfig.toml` checks the whole project.

## The components

**Task queue** (`4053-node-api-taskqueue`). Node runs each synchronous section without interleaving, so one section is
one atomic step. `TaskQueue` holds the database tables, the worker pool and the notification list as one `State` and
every section as a function on it; `TaskServer` is the object with those fields and the loops of the source, each method
proved to do what its function says. `TaskQueueRuns` defines steps and runs. A run is any sequence of steps: submission,
notification, promotion, starts, finishes, retries (a timed retry is a retry at any later moment), cancels, heartbeat
ticks, clock advances, and a crash of the process followed by a restart on the same database.
`TaskQueueTables` proves what holds of the task table in every reachable state, `TaskQueuePool` and `TaskQueueSafety`
what holds of the pool and the locks, and what one poll achieves; `TaskQueueLeases` says who owns lock rows, and when a
start is refused, in terms of tasks and the clock; `TaskQueueRecovery` says what a heartbeat tick and a restart do, and
`TaskQueueOutcomes` what every step writes to every row, and how often executions end; `TaskQueuePolls` says what
polling achieves over time; `TaskQueueWitnesses` holds the runs that show what the theorems leave possible. `CycleCheck`
is the depth-first search that guards submission.

**Parser library** (`4137-rust-parse-combinator`). `Pratt` is the expression parser over token sequences: its loop, its
recursive specification, the exact set of trees it returns, and the grammars its two shipped tables stand for.
`Combinators` is the set of non-recursive combinators as terms with an interpreter, with the loops of the repeating
ones; `and_then` chooses among finitely many parsers. `CombinatorRules` gives the combinators a meaning by inference
rules, and proves the interpreter exact for them. `BlockComment` is the depth-counting comment loop against a recursive
grammar and against the balance of delimiters.

**Plugin system** (`4115-python-plugin-system`). `TopologicalSort` is Kahn's algorithm with the separate search that
names a cycle. `ConfigTree`, `ConfigFlatten` and `ConfigStore` are the layered configuration: lookup, merging, and the
update that flattens a configuration into dotted keys.

**Small stateful cores.** `RegexCache` (`4140-python-form-validate`), `WebhookRetry` and `Deduplicator`
(`4024-go-mqtt-bridge`).

## What the proofs show about the code

Where the code does something other than its names, comments or tests suggest, the model follows the code, and the exact
condition is proved.

- A task that names a dependency twice is never promoted by the count-based query, but is promoted by a notification.
  The two promotion paths leave the same table exactly when there is no such task with a pending notification
  (`NotifyThenPromote`); a run reaches a state in which there is one (`NotificationMatters`).
- A task that names a resource twice in `locked_resources` never starts in any run: its own first row blocks the second
  (`RepeatedNeverStarts`).
- A poll fetches no more tasks than the pool has workers, so tasks that can never start can keep it from starting any:
  when enough of them come first, polling starts nothing for ever (`StarvesForever`), though a worker is free and a task
  could start (`StarvingRun`). While no more tasks are scheduled than a poll fetches, a poll leaves a worker free only
  when every scheduled task is blocked (`FullConservation`).
- Cancelling a running task keeps its worker busy until the execution returns, and its locks even longer: the
  transition that would release them is refused for a cancelled task. The rows stay exactly until the lease runs out or
  the worker is recovered (`CancelledRows`); a run shows a cancelled task whose execution has returned still keeping
  another task from starting (`CancelledStillBlocks`).
- Exclusion of resources ends with the lease, not with the execution. A start is refused exactly when the task repeats a
  resource or a lease holder needs one of them (`StartExact`), so a running task's resource is taken over exactly when
  no lease holder needs any resource of the other task (`TakeoverExact`); a run reaches two running tasks that share a
  resource (`LeaseRunsOut`). Within their leases they never do (`ExclusiveResources`).
- A process that dies leaves its tasks running on workers nobody has. After a minute of any activity of a new process on
  the same database, the next heartbeat tick leaves none of them so (`OrphansRecovered`).
- A path is missing from the merged configuration though layered lookup has it exactly when a scalar in a higher layer
  stands at a proper prefix of the path (`MergedExact`, `ConflictExample`). A dictionary differs in the two views exactly
  when it is blocked in this way or a lower layer adds something below it (`ValueExact`), which needs no conflict
  (`DictionaryExample`).
- Splitting a flattened key gives its path back exactly for dot-free keys not below an empty top-level key
  (`SplitInvertsDotted`, `EmptyTopKeyIsLost`). So `update` equals a deep merge on every layer exactly for configurations
  with such keys only and no dictionary without scalars (`UpdateIsMergeExactly`); `LostLevel` is an input where it does
  not. With such keys it equals the merge on one layer exactly when that layer already has a dictionary wherever the
  configuration has one without scalars (`SetAllMerges`, `UpdateIsMerge`).
- The trailing-separator flag works opposite to its name (`TrailingFlag`, `TrailingExample`).
- A separated list never returns from where its element and separator both match nothing (`StuckDiverges`,
  `DivergingExample`); with parts that return it returns from every position exactly when they never do
  (`SepReturnsExactly`). A term and all terms inside it return on an input exactly when that holds of every separated
  list inside (`ReturnsExactly`).
- `topological_sort` raises a `KeyError` exactly when a key outside the node set depends on a node
  (`MisplacedExample`); in all other cases it either sorts or names a genuine cycle, never `["unknown"]`.
- A webhook message gets one retry even when none is configured (`OneRetryAnyway`), so `maxRetries` bounds the retries
  of every message in every run exactly when it is positive (`BoundHoldsExactly`).
- The deduplicator reads the clock before it takes its lock, so a purge can overtake a question (`OvertakingPurge`). The
  purges of a run leave all answers as they are exactly when no question is overtaken (`PurgesUnobservableExactly`).

## Model

| member | source | states |
|---|---|---|
| CycleCheck.HasCycleFrom | 4053-node-api-taskqueue/database.js:364-407 | The shared-set recursion: it finds a closed path only if the root reaches a cycle, and otherwise leaves the stack as it was and extends a topological order of finished vertices by this one |
| CycleCheck.CheckCycle | 4053-node-api-taskqueue/database.js:364-407 | Terminates, and answers true exactly when a cycle is reachable from the task in the stored graph overlaid with the batch and the task |
| Graphs.OrderRefutesCycle | 4053-node-api-taskqueue/database.js:364-407 | No cycle starts at a vertex of a topological order: why a finished search vertex needs no second visit |
| Graphs.AcyclicExtension | 4053-node-api-taskqueue/database.js:364-407 | A closed acyclic graph extended by new rows stays acyclic exactly when no cycle is reachable from a new row |
| Graphs.FreshRowReachesNoCycle | 4053-node-api-taskqueue/queue.js:7-33 | A new row whose dependencies are all old rows reaches no cycle |
| TopologicalSort.TopologicalSort | 4115-python-plugin-system/plugin_system/utils.py:76-102 | Sorts exactly when the graph restricted to the nodes is acyclic, every in-set dependency before its dependents and every node once; otherwise names a genuine simple cycle; the key error exactly for a misplaced dependent |
| TopologicalSort.BuildGraph | 4115-python-plugin-system/plugin_system/utils.py:77-84 | Reverse lists and in-degrees count every edge with multiplicity, in any order of the entries |
| TopologicalSort.Drain | 4115-python-plugin-system/plugin_system/utils.py:86-97 | The queue loop lists distinct nodes in topological order and leaves in-degrees that count the dependencies not yet listed |
| TopologicalSort.TakeNode | 4115-python-plugin-system/plugin_system/utils.py:90-92 | Taking a node off the queue keeps Kahn's invariant with its dependents still to be counted down |
| TopologicalSort.CountDown | 4115-python-plugin-system/plugin_system/utils.py:94-97 | A dependent joins the queue exactly when its count reaches zero |
| TopologicalSort.NothingLeftOver | 4115-python-plugin-system/plugin_system/utils.py:99-101 | When a topological order exists, the loop leaves no node over |
| TopologicalSort.MisplacedExample | 4115-python-plugin-system/plugin_system/utils.py:80-84 | A dependency entry on which the first loop raises the key error |
| TopologicalSort.Dfs | 4115-python-plugin-system/plugin_system/utils.py:109-126 | Returns a genuine simple cycle, or finishes the node and restores the path |
| TopologicalSort.FindCycle | 4115-python-plugin-system/plugin_system/utils.py:105-134 | A genuine simple cycle among the nodes, or the unknown answer only when a topological order of all nodes exists |
| TaskQueueRuns.CountReadyExact | 4053-node-api-taskqueue/database.js:171-199 | The count-based readiness test holds exactly for duplicate-free lists of completed tasks |
| TaskQueueRuns.DrainInOnePass | 4053-node-api-taskqueue/queue.js:92-114 | Draining all notifications one by one equals one pass that schedules every pending task notified of a dependency and having all completed |
| TaskQueueRuns.NotifyThenPromote | 4053-node-api-taskqueue/scheduler.js:36-46 | Draining before promoting leaves the table promotion alone leaves, exactly when no notified ready task names a dependency twice |
| TaskQueueRuns.NothingReadyStaysPending | 4053-node-api-taskqueue/queue.js:76-86 | After a poll's promotion no duplicate-free task with all dependencies completed is pending |
| TaskQueueRuns.StepMoves | 4053-node-api-taskqueue/state.js:3-126 | Every step of every kind moves every row along `TRANSITIONS`, by a counted retry, or by recovery from running to scheduled, and deletes none |
| TaskQueueRuns.LifeCycle | 4053-node-api-taskqueue/state.js:3-18 | Along any run completed and cancelled are final, nothing becomes pending again, retry counts never fall, submitted fields never change |
| TaskQueueTables.BatchExact | 4053-node-api-taskqueue/queue.js:35-70 | For fresh distinct ids with known dependencies a batch is refused as circular exactly when it is cyclic, and accepted exactly when acyclic with priorities in range |
| TaskQueueTables.BatchAccepted | 4053-node-api-taskqueue/queue.js:35-70 | A batch is accepted exactly when its ids are new and distinct, every dependency is stored or declared in it, it closes no cycle, and priorities are in range |
| TaskQueueTables.EnqueueExact | 4053-node-api-taskqueue/queue.js:7-33 | A task under a fresh id is accepted exactly when its dependencies exist and its priority is in range, and never refused as circular; an accepted one adds exactly its row, scheduled exactly when it has no dependencies |
| TaskQueueTables.BatchAddsRows | 4053-node-api-taskqueue/queue.js:58-69 | An accepted batch adds exactly one row per item, scheduled exactly when it has no dependencies, and changes nothing else |
| TaskQueueTables.ObjectionExact | 4053-node-api-taskqueue/queue.js:43-56 | For known dependencies the checking loop objects exactly when some item reaches a cycle in the overlaid graph |
| TaskQueueTables.InsertSucceeds | 4053-node-api-taskqueue/database.js:286-317 | The inserting transaction succeeds for fresh ids exactly when all priorities are in range |
| TaskQueueTables.StepKeepsTable | 4053-node-api-taskqueue/queue.js:7-114 | Every step keeps the table sound |
| TaskQueueTables.ReachableTables | 4053-node-api-taskqueue/state.js:20-126 | In every reachable state scheduled, running, completed and failed tasks have all dependencies completed; dependencies are stored, the stored graph is acyclic, retries stay within the limit |
| TaskQueueTables.RetryConservation | 4053-node-api-taskqueue/state.js:80-113 | Over every run a task's failures equal its retry count, plus one when it is failed |
| TaskQueueTables.RetriesExhausted | 4053-node-api-taskqueue/state.js:80-113 | In every run a task fails at most 1 + max_retries times, and a failed one can be retried exactly until it has |
| TaskQueuePool.AcquireExact | 4053-node-api-taskqueue/worker.js:96-113 | Acquisition succeeds exactly when every resource is free and named once; then the task owns a row for each with the right lease; on failure it is left with none, and unexpired rows of others survive |
| TaskQueuePool.AssignKeepsSound | 4053-node-api-taskqueue/worker.js:66-94 | Assigning a scheduled task to a free worker keeps pool, executions, locks and leases sound, whether it starts or not |
| TaskQueuePool.FinishKeepsSound | 4053-node-api-taskqueue/worker.js:119-165 | Finishing an execution, successful or not and even after a cancel, keeps them sound |
| TaskQueuePool.TickSparesPool | 4053-node-api-taskqueue/worker.js:167-184 | A heartbeat tick never finds a pool worker dead: pool and rows of tasks in flight are untouched |
| TaskQueuePool.CrashKeepsSound | 4053-node-api-taskqueue/worker.js:21-34 | Restarting the process on the same database keeps the locks and leases sound |
| TaskQueuePool.QuietStep | 4053-node-api-taskqueue/state.js:115-126 | Steps that only cancel running rows or touch rows that do not run keep the server sound |
| TaskQueuePool.RecoverKeepsSound | 4053-node-api-taskqueue/database.js:278-284 | Recovering a worker outside the pool keeps executions, locks and leases sound and leaves the pool alone |
| TaskQueueSafety.StepKeepsServer | 4053-node-api-taskqueue/worker.js:66-184 | Every step keeps pool, executions, locks and leases sound |
| TaskQueueSafety.ReachableServers | 4053-node-api-taskqueue/worker.js:66-184 | Every reachable state is sound: at most one lock row per resource, each for a resource of a task that runs or was cancelled while running on the row's worker, expiring one lease after that task's start; and unexpired leases are complete |
| TaskQueueSafety.StepKeepsSound | 4053-node-api-taskqueue/worker.js:66-184 | Every step keeps table, pool, executions, locks and leases sound together |
| TaskQueueSafety.PollKeepsSound | 4053-node-api-taskqueue/scheduler.js:36-60 | So does a whole poll |
| TaskQueueSafety.SingleFlight | 4053-node-api-taskqueue/worker.js:66-165 | In every run distinct busy workers hold distinct tasks, each running under that worker's id or cancelled meanwhile |
| TaskQueueSafety.ExclusiveResources | 4053-node-api-taskqueue/worker.js:66-113 | In every run two tasks executing within their lease windows share no locked resource |
| TaskQueueRecovery.TickRecovers | 4053-node-api-taskqueue/worker.js:30-33 | In every state a heartbeat tick refreshes the rows of the pool; every other active row at least 60000 ms old becomes inactive, the tasks that ran on it are scheduled with no worker and no start time, its lock rows go, and nothing else changes |
| TaskQueueRecovery.OrphansRecovered | 4053-node-api-taskqueue/worker.js:167-184 | When the process dies and a new one runs in any way for 60000 ms, the next tick leaves no task running on a worker outside the pool |
| TaskQueueRecovery.CrashExact | 4053-node-api-taskqueue/worker.js:21-64 | A restart on the same database keeps tasks and lock rows and registers a full pool of idle workers under new ids |
| TaskQueueRecovery.PoolKeepsSize | 4053-node-api-taskqueue/worker.js:21-34 | In every run the pool has as many workers as the concurrency limit says |
| TaskQueueOutcomes.RowExact | 4053-node-api-taskqueue/state.js:3-126 | Every step, for every stored row: the status it gives and everything it writes |
| TaskQueueOutcomes.StatusExact | 4053-node-api-taskqueue/state.js:3-126 | A step gives a stored row a status it did not have exactly in the stated cases: a promotion, notification, retry or recovery schedules it, a start runs it, a finish of its holder completes or fails it, a cancel of it or its batch cancels it |
| TaskQueueOutcomes.OutcomeExact | 4053-node-api-taskqueue/worker.js:119-165 | A row is completed by a successful finish of its holder while it runs and by nothing else, and fails by an unsuccessful one and by nothing else |
| TaskQueueOutcomes.FailuresCounted | 4053-node-api-taskqueue/worker.js:136-139 | Over every run a task fails as often as an execution of it ends without success while its row says running |
| TaskQueueOutcomes.CompletionsCounted | 4053-node-api-taskqueue/worker.js:126-128 | Over every run a task is completed exactly when one execution of it ended with success while its row said running, and never a second one does |
| TaskQueueOutcomes.FinishExact | 4053-node-api-taskqueue/worker.js:119-165 | In every run the end of an execution frees its worker, completes or fails a row still running and removes its lock rows, and leaves row and lock rows of a task cancelled meanwhile |
| TaskQueueOutcomes.StartTakesFirst | 4053-node-api-taskqueue/worker.js:66-94 | In every run a start makes the first free worker busy with the task and names it in the row, or changes at most lock rows |
| TaskQueueOutcomes.NotificationsExact | 4053-node-api-taskqueue/queue.js:88-114 | A completed task announced joins the end of the notifications, a drain or a crash empties them, no other step touches them |
| TaskQueueLeases.RowsExact | 4053-node-api-taskqueue/worker.js:66-113 | In every run the unexpired lock rows are exactly those for the resources of tasks that run, or were cancelled while running, on a worker whose row is active, within one lease of their start |
| TaskQueueLeases.CancelledRows | 4053-node-api-taskqueue/state.js:20-78 | In every run a cancelled task owns an unexpired row for a resource exactly when it had started, needs the resource, its lease has not run out and its worker has not been recovered |
| TaskQueueLeases.AcquirableInTasks | 4053-node-api-taskqueue/worker.js:96-113 | Resources can be locked exactly when none is named twice and no lease holder needs one of them |
| TaskQueueLeases.StartExact | 4053-node-api-taskqueue/worker.js:66-113 | In every run a scheduled task with a free worker starts exactly when it names no resource twice and no lease holder needs one of them; otherwise no task changes |
| TaskQueueLeases.TakeoverExact | 4053-node-api-taskqueue/worker.js:96-113 | In every run a start beside a running task that shares a resource leaves both running exactly under that condition, and only when the other one's lease has run out |
| TaskQueueLeases.RepeatedNeverStarts | 4053-node-api-taskqueue/worker.js:96-113 | In every run a task that is running, completed or failed names no resource twice |
| TaskQueueWitnesses.LeaseRunsOut | 4053-node-api-taskqueue/worker.js:96-113 | A run that reaches two running tasks sharing a resource |
| TaskQueueWitnesses.CancelledStillBlocks | 4053-node-api-taskqueue/state.js:31-75 | A run in which a cancelled task whose execution has returned still owns its row and keeps another task from starting |
| TaskQueueSafety.AssignAllConserves | 4053-node-api-taskqueue/scheduler.js:47-52 | The assignment loop starts a subsequence of what was fetched and leaves a task only when no worker is free or one of its resources is locked |
| TaskQueueSafety.AssignAllIsARun | 4053-node-api-taskqueue/scheduler.js:47-52 | The assignment loop equals one start step per fetched task, so all run theorems cover it |
| TaskQueueSafety.PollConserves | 4053-node-api-taskqueue/scheduler.js:36-60 | After any run a poll over the best scheduled tasks is itself a run, starts a subsequence of them, and leaves a fetched task over only when it is blocked or no worker is free |
| TaskQueuePolls.FullConservation | 4053-node-api-taskqueue/scheduler.js:36-60 | After any run, with no more scheduled tasks than a poll fetches, the poll leaves a worker free only when every task still scheduled is blocked |
| TaskQueuePolls.FetchOrder | 4053-node-api-taskqueue/database.js:164-169 | A fetch lists higher priorities first, older tasks first within one, and leaves out no scheduled task that comes before a fetched one or for which there was room |
| TaskQueuePolls.AssignNothing | 4053-node-api-taskqueue/scheduler.js:47-52 | A poll that fetched only tasks naming a resource twice starts nothing and changes at most the lock rows |
| TaskQueuePolls.StarvesForever | 4053-node-api-taskqueue/scheduler.js:36-60 | When at least as many such tasks as a poll fetches come before all others, every poll starts nothing, leaves tasks and pool as they are, and leaves it so |
| TaskQueueWitnesses.StarvingRun | 4053-node-api-taskqueue/scheduler.js:47-52 | A run into such a state with a free worker and a task that could start |
| TaskQueueWitnesses.NotificationMatters | 4053-node-api-taskqueue/queue.js:92-114 | A run whose next poll schedules a task by a notification that promotion alone leaves pending |
| TaskServer.Server.constructor | 4053-node-api-taskqueue/worker.js:12-34 | An empty database with a started pool, a sound state |
| TaskServer.Server.StartPool | 4053-node-api-taskqueue/worker.js:21-34 | Spawns as many workers as the concurrency limit |
| TaskServer.Server.TransitionTo | 4053-node-api-taskqueue/state.js:20-78 | The in-place transition does what its function says, and nothing when it fails; a transition other than scheduling keeps the table sound |
| TaskServer.Server.RetryTask | 4053-node-api-taskqueue/state.js:80-113 | Succeeds exactly for a failed task with retries left, does what its function says, and nothing when refused; everything known of reachable states is kept |
| TaskServer.Server.CancelTask | 4053-node-api-taskqueue/state.js:115-126 | Succeeds exactly for a pending, scheduled or running task, does what its function says, and nothing when refused; everything known of reachable states is kept |
| TaskServer.Server.CancelBatch | 4053-node-api-taskqueue/database.js:319-324 | Cancels the pending and scheduled tasks of the batch and returns how many rows changed; everything known of reachable states is kept |
| TaskServer.Server.Enqueue | 4053-node-api-taskqueue/queue.js:7-33 | The checks, the insert and the scheduling give the specified outcome, a refusal leaves the state, and everything known of reachable states is kept |
| TaskServer.Server.CheckBatch | 4053-node-api-taskqueue/queue.js:43-56 | The checking loop raises the first objection in item order |
| TaskServer.Server.BatchEnqueue | 4053-node-api-taskqueue/queue.js:35-70 | The whole batch submission gives the specified outcome, a refusal leaves the state, and everything known of reachable states is kept |
| TaskServer.Server.BatchCreateTasks | 4053-node-api-taskqueue/database.js:286-317 | The transaction inserts all rows or rolls back |
| TaskServer.Server.InsertBatch | 4053-node-api-taskqueue/queue.js:58-69 | Insertion followed by the scheduling pass equals inserting each row in its final status |
| TaskServer.Server.NotifyDependents | 4053-node-api-taskqueue/queue.js:88-90 | The callback scheduled on completion appends the task to the notifications and keeps everything known of reachable states |
| TaskServer.Server.CheckAndPromotePendingTasks | 4053-node-api-taskqueue/queue.js:76-86 | Promotion row by row in any order equals one pass over the table, and keeps everything known of reachable states |
| TaskServer.Server.ProcessNotifications | 4053-node-api-taskqueue/queue.js:92-114 | The notification loop drains the list front to back, and keeps everything known of reachable states |
| TaskServer.Server.PromoteDependents | 4053-node-api-taskqueue/queue.js:96-112 | One notification schedules exactly its pending dependents whose dependencies are all completed, in any order |
| TaskServer.Server.AcquireResourceLocks | 4053-node-api-taskqueue/worker.js:96-113 | The lock loop with its rollback equals the specified acquisition |
| TaskServer.Server.AssignTask | 4053-node-api-taskqueue/worker.js:66-94 | The assignment equals the specified one in every branch; for a scheduled task and the free worker the pool offers it keeps everything known of reachable states |
| TaskServer.Server.FinishTask | 4053-node-api-taskqueue/worker.js:119-165 | The end of an execution frees the worker; a row still running is completed on success and failed otherwise and loses its lock rows, a cancelled one stays; everything known of reachable states is kept |
| TaskServer.Server.HeartbeatAll | 4053-node-api-taskqueue/worker.js:167-171 | The loop refreshes exactly the rows of the pool's workers |
| TaskServer.Server.HeartbeatTick | 4053-node-api-taskqueue/worker.js:30-33 | The timer refreshes the pool's rows and recovers every other active row at least 60000 ms old, with its tasks and lock rows; everything known of reachable states is kept |
| TaskServer.Server.RecoverDeadWorkers | 4053-node-api-taskqueue/worker.js:173-184 | The loop recovers every dead worker and refills the pool |
| TaskServer.Server.RecoverTasksForWorker | 4053-node-api-taskqueue/database.js:278-284 | Its running tasks are rescheduled, its locks dropped, its row deactivated; for a worker outside the pool everything known of reachable states is kept |
| TaskServer.Server.FetchReadyTasks | 4053-node-api-taskqueue/database.js:164-169 | Returns the best scheduled tasks up to the limit, in order, none better left out |
| TaskServer.Server.Poll | 4053-node-api-taskqueue/scheduler.js:36-60 | Draining, promoting, fetching and assigning equal the specified poll, and keep everything known of reachable states |
| Pratt.ParseExpr | 4137-rust-parse-combinator/src/expr.rs:146-203 | A success consumes at least one token and stays within the input |
| Pratt.RunParseExpr | 4137-rust-parse-combinator/src/expr.rs:146-203 | The loop over `left`, `pos` and `found`, scanning the tables in order, equals the recursive parser |
| Pratt.RunParsePrefix | 4137-rust-parse-combinator/src/expr.rs:205-223 | The prefix scan equals the recursive prefix parser |
| Pratt.ExprSound | 4137-rust-parse-combinator/src/expr.rs:146-223 | For any table, every success is a precedence-correct tree that prints as the consumed tokens, followed by no operator at or above the minimum |
| Pratt.Reparse | 4137-rust-parse-combinator/src/expr.rs:146-223 | With distinct symbols, a correct tree printed in the input and absorbing nothing after it is what the loop holds when it has read it |
| Pratt.ParseExprExact | 4137-rust-parse-combinator/src/expr.rs:146-223 | With distinct symbols, parsing returns a tree exactly when that tree is the correct maximal parse |
| Pratt.PrintingIsInjective | 4137-rust-parse-combinator/src/expr.rs:146-223 | Correct trees with the same text are equal |
| Pratt.CorrectIsTextbook | 4137-rust-parse-combinator/src/expr.rs:146-223 | For layered tables, postfix operators tighter or looser than prefix ones, the correct trees are those of the textbook rule comparing each operator with its operands' roots |
| Pratt.BuiltParserExact | 4137-rust-parse-combinator/src/expr.rs:119-143 | For layered tables the built parser returns a tree exactly when it obeys the textbook rule, prints as the consumed tokens and is followed by no operator |
| Pratt.GrammarExact | 4137-rust-parse-combinator/src/expr.rs:119-223 | A table that gives symbols to unary operators over two levels of left-associative binary ones builds exactly the terms of that grammar, stated by symbols alone, that print as the consumed tokens and are followed by no binary operator |
| Pratt.ArithmeticExact | 4137-rust-parse-combinator/src/expr.rs:258-264 | The arithmetic parser reads exactly the sums of products of signed atoms: no sum or difference under `*` or `/`, no binary operator under unary `-`, no operator of its own level in a right operand |
| Pratt.LogicalExact | 4137-rust-parse-combinator/src/expr.rs:284-291 | The logical parser reads exactly the disjunctions of conjunctions of negated atoms, with both spellings of each operator |
| Pratt.ArithmeticTable | 4137-rust-parse-combinator/src/expr.rs:258-264 | The arithmetic table has distinct symbols and is layered |
| Pratt.ArithmeticSymbols | 4137-rust-parse-combinator/src/expr.rs:258-264 | It gives products and quotients one level above sums and differences, all left-associative, and unary minus |
| Pratt.LogicalTable | 4137-rust-parse-combinator/src/expr.rs:284-291 | The logical table has distinct symbols and is layered |
| Pratt.LogicalSymbols | 4137-rust-parse-combinator/src/expr.rs:284-291 | It gives both conjunctions one level above both disjunctions, all left-associative, and two negations |
| Combinators.Run | 4137-rust-parse-combinator/src/primitives.rs:22-921 | A success never moves back, and never beyond the input unless it does not move at all; what it answers is stated by the rules below |
| CombinatorRules.RunExact | 4137-rust-parse-combinator/src/primitives.rs:22-921 | For every term, input and position the interpreter gives an answer exactly when the inference rules derive it, so it diverges exactly when they derive none |
| CombinatorRules.DerivationSound | 4137-rust-parse-combinator/src/primitives.rs:22-921 | Whatever a valid derivation concludes is what the interpreter answers |
| CombinatorRules.Derive | 4137-rust-parse-combinator/src/primitives.rs:22-921 | Every answer of the interpreter has a derivation from the calls it makes |
| CombinatorRules.AtomExact | 4137-rust-parse-combinator/src/primitives.rs:22-345 | A parser that calls no other one accepts exactly its characters, its text in any case for a keyword, or the end of the input, and fails without a cut everywhere else |
| CombinatorRules.SequenceSound | 4137-rust-parse-combinator/src/primitives.rs:398-486 | Sequences call the second part where the first one ended, keep the values they should, and answer the first failure |
| CombinatorRules.AlternativesSound | 4137-rust-parse-combinator/src/primitives.rs:488-551 | Alternatives are tried in order past ordinary failures only; the first other answer, a cut error included, is the answer |
| CombinatorRules.CutCommits | 4137-rust-parse-combinator/src/primitives.rs:503-544 | A cut error of the first alternative is the answer of `or` and of `choice`, whatever the others are |
| CombinatorRules.OrIsChoice | 4137-rust-parse-combinator/src/primitives.rs:495-544 | `or` is a choice of two |
| CombinatorRules.OrAssociates | 4137-rust-parse-combinator/src/primitives.rs:495-511 | `or` is associative and the failing parser is its unit on both sides |
| CombinatorRules.OptionalIsOr | 4137-rust-parse-combinator/src/primitives.rs:616-632 | `optional` is the parser with its value marked, or the absent value, cut errors kept |
| CombinatorRules.Projections | 4137-rust-parse-combinator/src/primitives.rs:443-486 | The sequences that drop a value are the projections of the one that keeps both |
| Combinators.RunMany | 4137-rust-parse-combinator/src/primitives.rs:640-668 | The loop of `Many` gives the interpreter's answer |
| Combinators.RunMany1 | 4137-rust-parse-combinator/src/primitives.rs:676-704 | The loop of `Many1` gives the interpreter's answer |
| Combinators.RunSkipMany | 4137-rust-parse-combinator/src/primitives.rs:832-858 | The loop of `SkipMany` gives the interpreter's answer |
| Combinators.RunSkipMany1 | 4137-rust-parse-combinator/src/primitives.rs:867-893 | The loop of `SkipMany1` gives the interpreter's answer |
| Combinators.RunSepBy | 4137-rust-parse-combinator/src/primitives.rs:715-823 | The loops of `SepBy` and `SepBy1`, flag included, give the interpreter's answer whenever it is not divergence |
| Combinators.EmptyMatchesFlagged | 4137-rust-parse-combinator/src/primitives.rs:22-921 | A parser that matches nothing somewhere is flagged by the syntactic test |
| Combinators.SepReturnsExactly | 4137-rust-parse-combinator/src/primitives.rs:715-823 | A separated list of parts that return returns from every position of an input exactly when the parts never both match nothing there |
| Combinators.StuckDiverges | 4137-rust-parse-combinator/src/primitives.rs:715-823 | Where element and separator both match nothing the list never comes back |
| Combinators.ReturnsExactly | 4137-rust-parse-combinator/src/primitives.rs:495-921 | A term and all terms inside it return on an input, from every position, exactly when no separated list inside has parts that both match nothing somewhere |
| Combinators.Terminates | 4137-rust-parse-combinator/src/primitives.rs:495-921 | So a term without such a list returns on that input from every position |
| Combinators.ProductiveNeverStuck | 4137-rust-parse-combinator/src/primitives.rs:495-921 | A term in which no list has two parts that may match nothing, as read off the term, has no such list on any input |
| Combinators.DivergingExample | 4137-rust-parse-combinator/src/primitives.rs:715-770 | A list that never comes back from the empty input |
| Combinators.ClearedByRunning | 4137-rust-parse-combinator/src/primitives.rs:715-770 | A list that the reading of the term does not clear although it returns on every input |
| Combinators.SepLoopFaithful | 4137-rust-parse-combinator/src/primitives.rs:715-823 | Divergence is reported exactly when the loop as written is still running after every number of rounds |
| Combinators.Many1Law | 4137-rust-parse-combinator/src/primitives.rs:640-704 | `Many1` is the parser followed by `Many` of it, errors kept |
| Combinators.SkipLaw | 4137-rust-parse-combinator/src/primitives.rs:832-893 | The skipping repetitions are the collecting ones with results forgotten |
| Combinators.ManyIsGreedy | 4137-rust-parse-combinator/src/primitives.rs:640-668 | `Many` stops only where the parser fails without a cut or matches nothing |
| Combinators.SepByLaw | 4137-rust-parse-combinator/src/primitives.rs:715-823 | `SepBy` is `SepBy1` or the empty list where no element matches, cut errors kept |
| Combinators.TrailingFlag | 4137-rust-parse-combinator/src/primitives.rs:757-763 | With the flag the list stops before a separator no element follows, without it that separator is consumed; values and errors agree |
| Combinators.TrailingExample | 4137-rust-parse-combinator/src/primitives.rs:757-763 | The input on which the flag is seen to act opposite to its name |
| BlockComment.ReadBody | 4137-rust-parse-combinator/src/combinators.rs:251-285 | The recursive reading ends between its start and the end of the input |
| BlockComment.BodyCloses | 4137-rust-parse-combinator/src/combinators.rs:250-286 | The text read is the printed nested body followed by the closing delimiter |
| BlockComment.TurnCloses | 4137-rust-parse-combinator/src/combinators.rs:264-274 | One turn of the loop keeps what is left to close |
| BlockComment.ParseBlockComment | 4137-rust-parse-combinator/src/combinators.rs:251-285 | Wherever the loop ends at all it answers exactly as the recursive grammar, with content and end |
| BlockComment.EmptyOpenNeverEnds | 4137-rust-parse-combinator/src/combinators.rs:264-268 | With an empty opening delimiter and input left, the loop is still running after every number of turns |
| BlockComment.EmptyClose | 4137-rust-parse-combinator/src/combinators.rs:264-278 | With an empty closing delimiter a comment is accepted exactly when input is left after the opening delimiters in a row, and ends there |
| BlockComment.StopsAtBalance | 4137-rust-parse-combinator/src/combinators.rs:264-278 | A comment is accepted exactly when the depth comes back to zero, and ends with the first delimiter that brings it there |
| ConfigTree.LookupMerge | 4115-python-plugin-system/plugin_system/config_store.py:257-262 | What any path finds in a deep merge of any two trees |
| ConfigTree.SetExact | 4115-python-plugin-system/plugin_system/config_store.py:55-62 | What any path finds after any node, dictionaries included, was set at a path: it at the path and beyond, a dictionary on the way, and elsewhere what was there |
| ConfigTree.SetThenGet | 4115-python-plugin-system/plugin_system/config_store.py:132-152 | After a set in one layer, layered lookup of the path answers the value unless a higher layer has the path |
| ConfigTree.MergedExact | 4115-python-plugin-system/plugin_system/config_store.py:250-262 | For every stack of layers the merged view has a path, or shows a scalar at it, exactly when layered lookup does and no higher layer blocks it |
| ConfigTree.MergedAgrees | 4115-python-plugin-system/plugin_system/config_store.py:132-137 | Without a path that is a scalar in one layer and a dictionary in another, merged view and layered lookup agree on the presence of every path and on every scalar |
| ConfigTree.MergeAddsNothing | 4115-python-plugin-system/plugin_system/config_store.py:257-262 | A deep merge leaves the upper tree as it is exactly when every path of the lower one is in it or ends beyond one of its scalars |
| ConfigTree.ValueExact | 4115-python-plugin-system/plugin_system/config_store.py:250-262 | The merged view shows the whole value layered lookup answers, dictionaries included, exactly when no layer has the path, or it is unblocked and lower layers add nothing below it |
| ConfigTree.DictionaryExample | 4115-python-plugin-system/plugin_system/config_store.py:250-262 | Two layers without conflict whose common dictionary differs in the two views |
| ConfigTree.ConflictExample | 4115-python-plugin-system/plugin_system/config_store.py:250-262 | A conflict on which the two views differ |
| ConfigFlatten.SplitInvertsDotted | 4115-python-plugin-system/plugin_system/config_store.py:169-177 | Splitting a dotted key gives back the path it was built from exactly for dot-free keys not below an empty top-level key |
| ConfigFlatten.EmptyTopKeyIsLost | 4115-python-plugin-system/plugin_system/config_store.py:169-177 | Below an empty top-level key the level is lost |
| ConfigFlatten.LeavesDetermine | 4115-python-plugin-system/plugin_system/config_store.py:169-177 | Trees without leafless dictionaries are determined by their leaves |
| ConfigFlatten.SetLeaf | 4115-python-plugin-system/plugin_system/config_store.py:55-62 | Setting a free path adds exactly that leaf |
| ConfigFlatten.SetCommutes | 4115-python-plugin-system/plugin_system/config_store.py:55-62 | Setting a path after a merge equals merging after setting it |
| ConfigFlatten.PrunedMerge | 4115-python-plugin-system/plugin_system/config_store.py:80-85 | Merging a tree without its leafless dictionaries equals merging the tree exactly when the target covers those dictionaries |
| ConfigStore.FlattenDict | 4115-python-plugin-system/plugin_system/config_store.py:169-177 | The recursion produces a dotted key for every leaf and nothing else, in any key order |
| ConfigStore.DeepUpdate | 4115-python-plugin-system/plugin_system/config_store.py:257-262 | The key-by-key recursion equals the merge, in any key order |
| ConfigStore.Store.constructor | 4115-python-plugin-system/plugin_system/config_store.py:89-99 | Four empty layers in ascending priority |
| ConfigStore.Store.GetLayer | 4115-python-plugin-system/plugin_system/config_store.py:108-112 | The first layer of that name |
| ConfigStore.Store.LayerGet | 4115-python-plugin-system/plugin_system/config_store.py:45-53 | The cursor walk equals lookup along the split key |
| ConfigStore.Store.Get | 4115-python-plugin-system/plugin_system/config_store.py:132-137 | The answer of the highest layer that has the key |
| ConfigStore.Store.ToDict | 4115-python-plugin-system/plugin_system/config_store.py:250-255 | All layers merged, lowest priority first |
| ConfigStore.Store.Set | 4115-python-plugin-system/plugin_system/config_store.py:139-152 | Sets the path in the named layer only; a missing layer is refused and nothing changes |
| ConfigStore.Store.Update | 4115-python-plugin-system/plugin_system/config_store.py:164-167 | Fails exactly for a missing layer with something to set; otherwise the layer, and no other, has the dotted key of every scalar set once, in some order |
| ConfigStore.SetAllMerges | 4115-python-plugin-system/plugin_system/config_store.py:164-177 | For good keys the order does not matter: the keys set one by one leave the layer deep-merged with the configuration without its leafless dictionaries |
| ConfigStore.UpdateIsMergeExactly | 4115-python-plugin-system/plugin_system/config_store.py:164-177 | Setting the flattened keys one by one is a deep merge on every layer exactly for configurations with dot-free keys, no dictionary below an empty top-level key and no dictionary without scalars |
| ConfigStore.LostLevel | 4115-python-plugin-system/plugin_system/config_store.py:169-177 | A configuration with dot-free keys and no empty dictionary on which update and merge differ |
| ConfigStore.ApplyOne | 4115-python-plugin-system/plugin_system/config_store.py:164-167 | For good keys nothing set earlier stands in the way of the next key |
| ConfigStore.UpdateIsMerge | 4115-python-plugin-system/plugin_system/config_store.py:77-85 | The key-by-key update equals one deep merge exactly when the layer covers the leafless dictionaries; always when there are none |
| RegexCache.RecencyMeaning | 4140-python-form-validate/formvalidate/cache.py:22-38 | The recency list holds exactly the requested keys, once each, in the order of their last requests |
| RegexCache.RequestOnLast | 4140-python-form-validate/formvalidate/cache.py:22-38 | One request on the whole recency list, seen through its last entries, is the cache's own move, append or evict |
| RegexCache.Cache.constructor | 4140-python-form-validate/formvalidate/cache.py:9-12 | An empty valid cache |
| RegexCache.Cache.Get | 4140-python-form-validate/formvalidate/cache.py:22-38 | Every answer equals compiling the request; map and access list keep holding the `max_size` most recently requested distinct keys, in recency order; a failed compilation changes nothing |
| RegexCache.Cache.Clear | 4140-python-form-validate/formvalidate/cache.py:40-42 | Empties the cache and its history |
| WebhookRetry.InsertionPoint | 4024-go-mqtt-bridge/webhook/webhook.go:163-173 | The position after every job due no later and before the first due strictly later |
| WebhookRetry.InsertByTime | 4024-go-mqtt-bridge/webhook/webhook.go:163-173 | The scan inserts at that position |
| WebhookRetry.InsertExact | 4024-go-mqtt-bridge/webhook/webhook.go:163-173 | A sorted list stays sorted, gains exactly the new job, and keeps the others in order |
| WebhookRetry.StepKeepsSound | 4024-go-mqtt-bridge/webhook/webhook.go:62-161 | Every step keeps order, conservation and the request counts |
| WebhookRetry.RunsConserve | 4024-go-mqtt-bridge/webhook/webhook.go:62-161 | In every run each message sent is in exactly one of queued, pending, delivered, permanently failed or dropped, with the exact number of requests that goes with it; at most 1 + max(1, maxRetries) in all; no retry before it is due; the pending list sorted and the queue within capacity |
| WebhookRetry.BackOffKept | 4024-go-mqtt-bridge/webhook/webhook.go:62-152 | In every run, of two consecutive requests of one message the earlier one failed and the later one is made by the timer, due when the clock read after that failure says plus the back-off for the number of requests before both, and not made earlier |
| WebhookRetry.BackOffDoubles | 4024-go-mqtt-bridge/webhook/webhook.go:102-109 | The back-off starts at the base and doubles until it reaches the cap |
| WebhookRetry.DroppedExactly | 4024-go-mqtt-bridge/webhook/webhook.go:62-72 | In every run a message is dropped exactly when its first request fails while 1024 jobs are queued |
| WebhookRetry.ReceivesOldest | 4024-go-mqtt-bridge/webhook/webhook.go:129-130 | In every run the loop receives the queued message that was sent first, and only moves it |
| WebhookRetry.OneRetryAnyway | 4024-go-mqtt-bridge/webhook/webhook.go:141-152 | A run in which a message gets a retry though none is configured |
| WebhookRetry.BoundHoldsExactly | 4024-go-mqtt-bridge/webhook/webhook.go:141-152 | Every message of every run gets at most 1 + `maxRetries` requests exactly when `maxRetries` is positive |
| WebhookRetry.EarliestFirst | 4024-go-mqtt-bridge/webhook/webhook.go:131-141 | A timer tick sends exactly when some pending job is due, and then the one due first |
| WebhookRetry.Sender.constructor | 4024-go-mqtt-bridge/webhook/webhook.go:34-53 | An empty sender |
| WebhookRetry.Sender.Send | 4024-go-mqtt-bridge/webhook/webhook.go:62-77 | A first request delivers, queues, or drops when the queue is full |
| WebhookRetry.Sender.Receive | 4024-go-mqtt-bridge/webhook/webhook.go:129-130 | The loop moves the oldest queued job into the pending list |
| WebhookRetry.Sender.TimerFires | 4024-go-mqtt-bridge/webhook/webhook.go:131-158 | The timer case puts back, delivers, gives up, or reschedules for the clock read after the failure plus the back-off of the attempt |
| WebhookRetry.Sender.Failed | 4024-go-mqtt-bridge/webhook/webhook.go:142-152 | A failed retry gives up at the limit and is otherwise inserted again with the next attempt |
| WebhookRetry.Sender.Enqueue | 4024-go-mqtt-bridge/webhook/webhook.go:66-70 | A job is queued, or its message dropped when the channel is full |
| Deduplicator.PurgeExact | 4024-go-mqtt-bridge/deduplicator/deduplicator.go:72-81 | A purge changes an answer exactly when the question's clock reading is before the expiry and the purge's is not |
| Deduplicator.TablesAlike | 4024-go-mqtt-bridge/deduplicator/deduplicator.go:48-81 | From the last purge on, a table with purges answers like the table without |
| Deduplicator.PurgeUnobservable | 4024-go-mqtt-bridge/deduplicator/deduplicator.go:48-81 | Purges inserted anywhere leave all answers as they are, if no question reads a clock older than an earlier purge |
| Deduplicator.PurgeUnobservableOverTime | 4024-go-mqtt-bridge/deduplicator/deduplicator.go:48-81 | In particular for a clock that never goes backwards |
| Deduplicator.PurgesUnobservableExactly | 4024-go-mqtt-bridge/deduplicator/deduplicator.go:48-81 | The purges of any run leave all answers as they are exactly when no question reads a clock before the expiry of its key's last acceptance while a purge since then read one at or after it |
| Deduplicator.SeenExact | 4024-go-mqtt-bridge/deduplicator/deduplicator.go:48-81 | After any run the table holds exactly the keys whose last acceptance no later purge found expired, with that expiry |
| Deduplicator.OvertakingPurge | 4024-go-mqtt-bridge/deduplicator/deduplicator.go:48-81 | A run in which a purge overtakes a question and changes its answer, with the default window |
| Deduplicator.DuplicateExact | 4024-go-mqtt-bridge/deduplicator/deduplicator.go:48-57 | A question is answered duplicate exactly when its key was accepted less than one window before |
| Deduplicator.AcceptedApart | 4024-go-mqtt-bridge/deduplicator/deduplicator.go:48-57 | Accepted occurrences of one key are at least one window apart |
| Deduplicator.Deduplicator.constructor | 4024-go-mqtt-bridge/deduplicator/deduplicator.go:21-32 | An empty table; a window that is not positive becomes five seconds |
| Deduplicator.Deduplicator.IsDuplicate | 4024-go-mqtt-bridge/deduplicator/deduplicator.go:48-57 | Answers by the table and records an accepted key |
| Deduplicator.Deduplicator.Purge | 4024-go-mqtt-bridge/deduplicator/deduplicator.go:72-81 | The deleting loop, in any order, leaves exactly the unexpired entries |

## Left out

- HTTP servers and routes, command lines, React pages, demo scripts and documentation: no algorithm in them.
- The other projects of the repository and the rest of these: thin wrappers, formatting, and mostly single-branch facts that would only add easy members.
- SQL itself: tables are maps, a query's ties come in any order, JSON columns are values. Constraint failures are the primary key and the priority range.
- Task columns that no decision reads: payload, progress, result, error text, completion time, callback, webhook delivery.
- Ids: integers, so an id named like a property every JavaScript object inherits, which `virtualDeps` would find, is not modelled; fresh worker ids are new row numbers.
- `deleteTask`, `getStats`, pool `stop()` and several server processes on one database.
- Clock readings inside one synchronous section: one reading each.
- The back-off of timed task retries: a retry may come at any moment, any number of times.
- Pool workers: values in a sequence, so aliasing between the pool's map and a worker record held across the await is not modelled; `FinishAt` names the worker by position.
- Token level: `Pratt` takes atoms and operator symbols as tokens, so operator symbols that are prefixes of each other or of atoms are not modelled; operator tables are literals instead of builder calls; the `apply` functions build trees; `precedence + 1` does not wrap at 32 bits.
- Recursive combinators, number parsing, UTF-8 byte widths, error messages and spans; errors are cut or ordinary.
- Combinators.RunMany: returns only where its element parser returns; `Diverges` stands for a call that never does, and the same holds for the other loops.
- BlockComment.ParseBlockComment: requires a non-empty opening delimiter unless no input is left, because otherwise the source's loop never ends, as EmptyOpenNeverEnds states.
- BlockComment.StopsAtBalance: states the balance for a non-empty closing delimiter; EmptyClose states the other case.
- CombinatorRules.RunExact: `and_then` is modelled for functions that choose among finitely many parsers, not for those that build infinitely many different ones.
- Configuration schemas, change callbacks, locking, persistence, and aliasing of nested dictionaries between layers: trees are values. Every value that is not a dictionary is a scalar.
- `add_layer` with other priorities: the theorems hold for every stack of layers, the object has the four standard ones.
- ConfigStore.Store.Set: does not model the refusal of a value by a registered schema, nor the change notification.
- The cache's singleton and its thread lock; a request whose compilation raises leaves the cache as it was.
- Goroutines, tickers and stop channels: the webhook loop's cases and the deduplicator's operations are steps in any order. A first request and the queueing after it are one step, since the request shares no state. The hash of a message is its key.
- Integer widths of times and durations; the webhook back-off is computed on integers instead of floats.
