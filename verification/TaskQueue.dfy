/** The task queue: database tables, worker pool and notification list as one state, and every synchronous section
    of the server as a function on it. Sections run without interleaving, so each is one atomic step. */
module TaskQueue {
  import opened Prelude
  import opened Graphs
  import CycleCheck

  type TaskId = int
  type ResourceId = int
  type BatchId = int
  type WorkerId = nat
  type Time = int

  datatype Status = Pending | Scheduled | Running | Completed | Failed | Cancelled

  datatype Task = Task(batch: Option<BatchId>, priority: int, created: Time, deps: seq<TaskId>,
                       resources: seq<ResourceId>,
                       maxRetries: int, status: Status, retryCount: nat,
                       worker: Option<WorkerId>, started: Option<Time>)

  datatype Lock = Lock(resource: ResourceId, task: TaskId, worker: WorkerId, expires: Time)

  datatype WorkerRow = WorkerRow(heartbeat: Time, active: bool)

  datatype PoolWorker = PoolWorker(id: WorkerId, active: bool, currentTask: Option<TaskId>)

  /** `locks` is keyed by its autoincrement id; the row of worker `w` is `workers[w]`, so a fresh id is a new row. */
  datatype State = State(now: Time, tasks: map<TaskId, Task>, locks: map<nat, Lock>, nextLock: nat,
                         workers: seq<WorkerRow>,
                         pool: seq<PoolWorker>, runningTasks: int, maxConcurrency: nat, notifications: seq<TaskId>)

  const LOCK_DURATION: Time := 120000
  const DEAD_AFTER: Time := 60000

  // ---------------------------------------------------------------------------------------------
  // state.js

  predicate IsValidTransition(from: Status, to: Status) {
    match from
    case Pending => to == Scheduled || to == Cancelled
    case Scheduled => to == Running || to == Cancelled
    case Running => to == Completed || to == Failed || to == Cancelled
    case Failed => to == Scheduled
    case Completed => false
    case Cancelled => false
  }

  function ReleaseLocks(locks: map<nat, Lock>, id: TaskId): map<nat, Lock> {
    map k | k in locks && locks[k].task != id :: locks[k]
  }

  /** `transitionTo`; `None` is the thrown error, which leaves the database untouched. */
  function TransitionTo(s: State, id: TaskId, to: Status, worker: Option<WorkerId>): Option<State> {
    if id !in s.tasks then None
    else
      var t := s.tasks[id];
      if t.status == to then Some(s)
      else if !IsValidTransition(t.status, to) then None
      else
        var t' := if to == Running
                  then t.(status := to, started := Some(s.now), worker := if worker.Some? then worker else t.worker)
                  else t.(status := to);
        var locks' := if to == Completed || to == Failed then ReleaseLocks(s.locks, id) else s.locks;
        Some(s.(tasks := s.tasks[id := t'], locks := locks'))
  }

  function RetryTask(s: State, id: TaskId): Option<State> {
    if id !in s.tasks || s.tasks[id].status != Failed then None
    else
      var t := s.tasks[id];
      if t.retryCount + 1 > t.maxRetries then None
      else Some(s.(tasks := s.tasks[id := t.(status := Scheduled, retryCount := t.retryCount + 1, started := None)]))
  }

  function CancelTask(s: State, id: TaskId): Option<State> {
    if id !in s.tasks || s.tasks[id].status == Completed || s.tasks[id].status == Cancelled then None
    else TransitionTo(s, id, Cancelled, None)
  }

  function CancelBatch(s: State, batch: BatchId): State {
    s.(tasks := map id | id in s.tasks ::
         var t := s.tasks[id];
         if t.batch == Some(batch) && (t.status == Pending || t.status == Scheduled)
             then t.(status := Cancelled) else t)
  }

  // ---------------------------------------------------------------------------------------------
  // queue.js

  datatype TaskSpec = TaskSpec(batch: Option<BatchId>, priority: int, deps: seq<TaskId>, resources: seq<ResourceId>,
                               maxRetries: int)

  datatype Item = Item(id: TaskId, spec: TaskSpec)

  datatype Refusal = MissingDependency(dep: TaskId) | CircularDependency | ConstraintViolation

  datatype Outcome = Accepted(state: State) | Refused(error: Refusal)

  /** The dependency graph of the task table. */
  function Stored(tasks: map<TaskId, Task>): Graph<TaskId> {
    map id | id in tasks :: tasks[id].deps
  }

  function NewTask(spec: TaskSpec, now: Time): Task {
    Task(spec.batch, spec.priority, now, spec.deps, spec.resources, spec.maxRetries, Pending, 0, None, None)
  }

  /** A new task is scheduled at once when it has no dependencies. */
  function Submitted(spec: TaskSpec, now: Time): Task {
    if spec.deps == [] then NewTask(spec, now).(status := Scheduled) else NewTask(spec, now)
  }

  /** The first dependency that is neither stored nor part of the batch. */
  function FirstMissing(s: State, batch: set<TaskId>, deps: seq<TaskId>): (r: Option<TaskId>)
    ensures r.Some? ==> r.value in deps && r.value !in s.tasks && r.value !in batch
    ensures r.None? ==> forall d | d in deps :: d in s.tasks || d in batch
  {
    if deps == [] then None
    else if deps[0] !in s.tasks && deps[0] !in batch then Some(deps[0])
    else FirstMissing(s, batch, deps[1..])
  }

  predicate RowAllowed(s: State, item: Item) {
    item.id !in s.tasks && 0 <= item.spec.priority <= 9
  }

  /** `enqueue`. */
  ghost function Enqueue(s: State, item: Item): Outcome {
    var missing := FirstMissing(s, {}, item.spec.deps);
    if missing.Some? then Refused(MissingDependency(missing.value))
    else if item.spec.deps != []
            && CycleReachable(CycleCheck.Overlay(Stored(s.tasks), map[], item.id, item.spec.deps), item.id)
    then Refused(CircularDependency)
    else if !RowAllowed(s, item) then Refused(ConstraintViolation)
    else Accepted(s.(tasks := s.tasks[item.id := Submitted(item.spec, s.now)]))
  }

  /** The dependencies the batch declares; a repeated id keeps its last entry. */
  function VirtualDeps(items: seq<Item>): Graph<TaskId> {
    if items == [] then map[]
    else VirtualDeps(items[..|items| - 1])[items[|items| - 1].id := items[|items| - 1].spec.deps]
  }

  /** The first objection the checking loop of `batchEnqueue` raises, items in order. */
  ghost function FirstObjection(s: State, virtualDeps: Graph<TaskId>, items: seq<Item>): Option<Refusal> {
    if items == [] then None
    else
      var item := items[0];
      var missing := FirstMissing(s, virtualDeps.Keys, item.spec.deps);
      if missing.Some? then Some(MissingDependency(missing.value))
      else if item.spec.deps != []
              && CycleReachable(CycleCheck.Overlay(Stored(s.tasks), virtualDeps, item.id, item.spec.deps), item.id)
      then Some(CircularDependency)
      else FirstObjection(s, virtualDeps, items[1..])
  }

  /** The inserting transaction; a violated constraint rolls everything back. */
  function InsertAll(s: State, items: seq<Item>): Option<State>
    decreases |items|
  {
    if items == [] then Some(s)
    else if !RowAllowed(s, items[0]) then None
    else InsertAll(s.(tasks := s.tasks[items[0].id := Submitted(items[0].spec, s.now)]), items[1..])
  }

  /** `batchEnqueue`. */
  ghost function BatchEnqueue(s: State, items: seq<Item>): Outcome {
    var objection := FirstObjection(s, VirtualDeps(items), items);
    if objection.Some? then Refused(objection.value)
    else
      var inserted := InsertAll(s, items);
      if inserted.None? then Refused(ConstraintViolation) else Accepted(inserted.value)
  }

  predicate IsCompleted(tasks: map<TaskId, Task>, id: TaskId) {
    id in tasks && tasks[id].status == Completed
  }

  /** The test of `processNotifications`. */
  predicate AllCompleted(tasks: map<TaskId, Task>, deps: seq<TaskId>) {
    forall d | d in deps :: IsCompleted(tasks, d)
  }

  /** The test of `getPendingTasksWithMetDeps`: as many completed rows as entries in the dependency list. */
  predicate CountReady(tasks: map<TaskId, Task>, deps: seq<TaskId>) {
    |set d | d in deps && IsCompleted(tasks, d)| == |deps|
  }

  function PromoteTask(t: Task, ready: bool): Task {
    if t.status == Pending && ready then t.(status := Scheduled) else t
  }

  /** `checkAndPromotePendingTasks`. */
  function Promote(s: State): State {
    s.(tasks := map id | id in s.tasks :: PromoteTask(s.tasks[id], CountReady(s.tasks, s.tasks[id].deps)))
  }

  /** Handling one notification: its pending dependents whose dependencies are all completed are scheduled. */
  function NotifyOne(s: State, done: TaskId): State {
    s.(tasks := map id | id in s.tasks ::
         PromoteTask(s.tasks[id], done in s.tasks[id].deps && AllCompleted(s.tasks, s.tasks[id].deps)))
  }

  /** `processNotifications` drains the list front to back. */
  function ProcessNotifications(s: State): State
    decreases |s.notifications|
  {
    if s.notifications == [] then s
    else ProcessNotifications(NotifyOne(s, s.notifications[0]).(notifications := s.notifications[1..]))
  }

  // ---------------------------------------------------------------------------------------------
  // Resource locks

  function PurgeExpired(locks: map<nat, Lock>, now: Time): map<nat, Lock> {
    map k | k in locks && !(locks[k].expires < now) :: locks[k]
  }

  predicate IsLocked(locks: map<nat, Lock>, resource: ResourceId) {
    exists k | k in locks :: locks[k].resource == resource
  }

  /** `acquireResourceLocks`: one purge, test and insert per resource; all rows of the task go when one is taken. */
  function AcquireLocks(s: State, id: TaskId, resources: seq<ResourceId>, worker: WorkerId): (bool, State)
    decreases |resources|
  {
    if resources == [] then (true, s)
    else
      var locks := PurgeExpired(s.locks, s.now);
      if IsLocked(locks, resources[0]) then (false, s.(locks := ReleaseLocks(locks, id)))
      else
        var lock := Lock(resources[0], id, worker, s.now + LOCK_DURATION);
        AcquireLocks(s.(locks := locks[s.nextLock := lock], nextLock := s.nextLock + 1), id, resources[1..], worker)
  }

  // ---------------------------------------------------------------------------------------------
  // worker.js

  function FindWorker(pool: seq<PoolWorker>, id: WorkerId): (r: Option<nat>)
    ensures r.Some? ==> r.value < |pool| && pool[r.value].id == id
    ensures r.None? ==> forall w | w in pool :: w.id != id
  {
    if pool == [] then None
    else if pool[|pool| - 1].id == id then Some(|pool| - 1)
    else FindWorker(pool[..|pool| - 1], id)
  }

  /** `getAvailableWorker`: the first free worker in insertion order. */
  function AvailableWorker(pool: seq<PoolWorker>): (r: Option<WorkerId>)
    ensures r.Some? ==> exists i | 0 <= i < |pool| ::
                          pool[i].id == r.value && pool[i].active && pool[i].currentTask.None?
    ensures r.None? ==> forall w | w in pool :: !w.active || w.currentTask.Some?
  {
    if pool == [] then None
    else if pool[0].active && pool[0].currentTask.None? then Some(pool[0].id)
    else AvailableWorker(pool[1..])
  }

  /** `assignTask`, for a task read from the table. */
  function AssignTask(s: State, workerId: WorkerId, id: TaskId): (bool, State)
    requires id in s.tasks
  {
    var i := FindWorker(s.pool, workerId);
    if i.None? || !s.pool[i.value].active then (false, s)
    else
      var (acquired, s1) := AcquireLocks(s, id, s.tasks[id].resources, workerId);
      if !acquired then (false, s1)
      else
        var s2 := TransitionTo(s1, id, Running, Some(workerId));
        if s2.None? then (false, s1.(locks := ReleaseLocks(s1.locks, id)))
        else (true, s2.value.(pool := s.pool[i.value := s.pool[i.value].(currentTask := Some(id))],
                              runningTasks := s.runningTasks + 1))
  }

  /** The part of `executeTask` after its await, for the pool worker at `i`. */
  function Finish(s: State, i: nat, ok: bool): State
    requires i < |s.pool| && s.pool[i].currentTask.Some?
  {
    var moved := TransitionTo(s, s.pool[i].currentTask.value, if ok then Completed else Failed, None);
    (if moved.Some? then moved.value else s)
    .(pool := s.pool[i := s.pool[i].(currentTask := None)], runningTasks := s.runningTasks - 1)
  }

  function SpawnWorker(s: State): (s': State)
    ensures |s'.workers| == |s.workers| + 1
  {
    s.(pool := s.pool + [PoolWorker(|s.workers|, true, None)], workers := s.workers + [WorkerRow(s.now, true)])
  }

  function SpawnWorkers(s: State, n: nat): State
    decreases n
  {
    if n == 0 then s else SpawnWorkers(SpawnWorker(s), n - 1)
  }

  function HeartbeatAll(s: State): (s': State)
    ensures |s'.workers| == |s.workers|
  {
    s.(workers := seq(|s.workers|, w requires 0 <= w < |s.workers| =>
         if exists p | p in s.pool :: p.id == w then WorkerRow(s.now, true) else s.workers[w]))
  }

  /** `getDeadWorkers` among the first `n` rows. */
  function DeadWorkers(s: State, n: nat): (dead: seq<WorkerId>)
    requires n <= |s.workers|
    ensures forall i | 0 <= i < |dead| :: dead[i] < n
    ensures forall w: nat :: w in dead <==> w < n && s.workers[w].active && s.workers[w].heartbeat <= s.now - DEAD_AFTER
  {
    if n == 0 then []
    else if s.workers[n - 1].active && s.workers[n - 1].heartbeat <= s.now - DEAD_AFTER
        then DeadWorkers(s, n - 1) + [n - 1]
    else DeadWorkers(s, n - 1)
  }

  /** `recoverTasksForWorker`. */
  function RecoverTasks(s: State, w: WorkerId): State
    requires w < |s.workers|
  {
    s.(tasks := map id | id in s.tasks ::
         var t := s.tasks[id];
         if t.worker == Some(w) && t.status == Running
             then t.(status := Scheduled, worker := None, started := None) else t,
       locks := map k | k in s.locks && s.locks[k].worker != w :: s.locks[k],
       workers := s.workers[w := s.workers[w].(active := false)])
  }

  /** One round of the loop in `recoverDeadWorkers`. */
  function RecoverWorker(s: State, w: WorkerId): (s': State)
    requires w < |s.workers|
    ensures |s'.workers| >= |s.workers|
  {
    var i := FindWorker(s.pool, w);
    var s1 := RecoverTasks(s, w);
    if i.None? then s1
    else
      var s2 := s1.(pool := s.pool[..i.value] + s.pool[i.value + 1..]);
      if |s2.pool| < s2.maxConcurrency then SpawnWorker(s2) else s2
  }

  function RecoverWorkers(s: State, dead: seq<WorkerId>): State
    requires forall i | 0 <= i < |dead| :: dead[i] < |s.workers|
    decreases |dead|
  {
    if dead == [] then s else RecoverWorkers(RecoverWorker(s, dead[0]), dead[1..])
  }

  /** The heartbeat timer: `heartbeatAll` then `recoverDeadWorkers` at one clock reading. */
  function HeartbeatTick(s: State): State {
    var s1 := HeartbeatAll(s);
    RecoverWorkers(s1, DeadWorkers(s1, |s1.workers|))
  }

  /** The process dies and a new one opens the same database: executions, notifications and the pool are lost. */
  function Restart(s: State): State {
    SpawnWorkers(s.(pool := [], runningTasks := 0, notifications := []), s.maxConcurrency)
  }

  // ---------------------------------------------------------------------------------------------
  // scheduler.js

  /** Strictly ahead in `ORDER BY priority DESC, created_at ASC`. */
  predicate Ahead(a: Task, b: Task) {
    a.priority > b.priority || (a.priority == b.priority && a.created < b.created)
  }

  /** `fetched` is an answer to `getScheduledTasks(limit)`; the order of ties is SQLite's choice. */
  ghost predicate IsFetch(tasks: map<TaskId, Task>, limit: nat, fetched: seq<TaskId>) {
    && NoDup(fetched) && |fetched| <= limit
    && (forall id | id in fetched :: id in tasks && tasks[id].status == Scheduled)
    && (forall i, j | 0 <= i < j < |fetched| :: !Ahead(tasks[fetched[j]], tasks[fetched[i]]))
    && (forall id | id in tasks && tasks[id].status == Scheduled && id !in fetched ::
          |fetched| == limit && forall f | f in fetched :: !Ahead(tasks[id], tasks[f]))
  }

  /** The assignment loop of `poll`; the sequence is the tasks it starts. */
  function AssignAll(s: State, fetched: seq<TaskId>): (r: (State, seq<TaskId>))
    requires forall id | id in fetched :: id in s.tasks
    ensures r.0.tasks.Keys == s.tasks.Keys
    decreases |fetched|
  {
    if fetched == [] then (s, [])
    else
      var w := AvailableWorker(s.pool);
      if w.None? then (s, [])
      else
        AssignKeepsKeys(s, w.value, fetched[0]);
        var (started, s1) := AssignTask(s, w.value, fetched[0]);
        var (s2, rest) := AssignAll(s1, fetched[1..]);
        (s2, if started then [fetched[0]] + rest else rest)
  }

  lemma AcquireKeepsTasks(s: State, id: TaskId, resources: seq<ResourceId>, worker: WorkerId)
    ensures var s' := AcquireLocks(s, id, resources, worker).1;
            s' == s.(locks := s'.locks, nextLock := s'.nextLock)
    decreases |resources|
  {
    if resources != [] {
      var locks := PurgeExpired(s.locks, s.now);
      if !IsLocked(locks, resources[0]) {
        var lock := Lock(resources[0], id, worker, s.now + LOCK_DURATION);
        AcquireKeepsTasks(s.(locks := locks[s.nextLock := lock], nextLock := s.nextLock + 1),
                        id, resources[1..], worker);
      }
    }
  }

  lemma AssignKeepsKeys(s: State, workerId: WorkerId, id: TaskId)
    requires id in s.tasks
    ensures AssignTask(s, workerId, id).1.tasks.Keys == s.tasks.Keys
  {
    AcquireKeepsTasks(s, id, s.tasks[id].resources, workerId);
  }

  /** Everything `poll` does before it fetches. */
  function PreparePoll(s: State): State {
    Promote(ProcessNotifications(s))
  }
}
