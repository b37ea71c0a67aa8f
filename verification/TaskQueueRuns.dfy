/** Runs of the task queue, and what every step does to the task table. */
module TaskQueueRuns {
  import opened Prelude
  import opened Graphs
  import CycleCheck
  import opened TaskQueue

  /** One synchronous section of the server. `poll` is `DrainNotifications`, `PromotePending` and one `Start` per
      assignment tried; a timed retry is a `Retry` at any later moment. */
  datatype Step =
    | Advance(now: Time)
    | SubmitOne(item: Item)
    | SubmitMany(items: seq<Item>)
    | Announce(done: TaskId)
    | DrainNotifications
    | PromotePending
    | Start(id: TaskId)
    | FinishAt(index: nat, ok: bool)
    | Retry(id: TaskId)
    | Cancel(id: TaskId)
    | CancelAll(batch: BatchId)
    | Heartbeat
    | Crash

  function OrSame(r: Option<State>, s: State): State {
    if r.Some? then r.value else s
  }

  ghost function OrUnchanged(r: Outcome, s: State): State {
    if r.Accepted? then r.state else s
  }

  /** The effect of a section; refused requests and sections that cannot happen now leave the state as it is. */
  ghost function Apply(s: State, step: Step): State {
    match step
    case Advance(t) => if t >= s.now then s.(now := t) else s
    case SubmitOne(item) => OrUnchanged(Enqueue(s, item), s)
    case SubmitMany(items) => OrUnchanged(BatchEnqueue(s, items), s)
    case Announce(id) => if IsCompleted(s.tasks, id) then s.(notifications := s.notifications + [id]) else s
    case DrainNotifications => ProcessNotifications(s)
    case PromotePending => Promote(s)
    case Start(id) =>
      var w := AvailableWorker(s.pool);
      if id in s.tasks && s.tasks[id].status == Scheduled && w.Some? then AssignTask(s, w.value, id).1 else s
    case FinishAt(i, ok) => if i < |s.pool| && s.pool[i].currentTask.Some? then Finish(s, i, ok) else s
    case Retry(id) => OrSame(RetryTask(s, id), s)
    case Cancel(id) => OrSame(CancelTask(s, id), s)
    case CancelAll(batch) => CancelBatch(s, batch)
    case Heartbeat => HeartbeatTick(s)
    case Crash => Restart(s)
  }

  /** A server freshly started on an empty database. */
  function Init(now: Time, maxConcurrency: nat): State {
    Restart(State(now, map[], map[], 0, [], [], 0, maxConcurrency, []))
  }

  ghost function Exec(s: State, steps: seq<Step>): State {
    if steps == [] then s else Apply(Exec(s, steps[..|steps| - 1]), steps[|steps| - 1])
  }

  // ---------------------------------------------------------------------------------------------
  // The life cycle of a task

  /** The only ways a row changes: along `TRANSITIONS`, by a retry, or back to scheduled when its worker died. */
  ghost predicate Moves(tasks: map<TaskId, Task>, t: Task, t': Task) {
    && t'.deps == t.deps && t'.resources == t.resources && t'.maxRetries == t.maxRetries
    && t'.batch == t.batch && t'.priority == t.priority && t'.created == t.created
    && if t.status == Failed && t'.status == Scheduled
       then t'.retryCount == t.retryCount + 1 && t'.retryCount <= t.maxRetries
       else
         && t'.retryCount == t.retryCount
         && (|| t'.status == t.status
             || IsValidTransition(t.status, t'.status)
             || (t.status == Running && t'.status == Scheduled))
         && (t.status == Pending && t'.status == Scheduled ==> AllCompleted(tasks, t.deps))
  }

  /** A row as `INSERT` and the scheduling after it leave it. */
  ghost predicate FreshRow(t: Task) {
    && t.retryCount == 0 && t.worker.None? && t.started.None?
    && (t.status == Pending || (t.status == Scheduled && t.deps == []))
  }

  ghost predicate TableStep(tasks: map<TaskId, Task>, tasks': map<TaskId, Task>) {
    && tasks.Keys <= tasks'.Keys
    && (forall id | id in tasks :: Moves(tasks, tasks[id], tasks'[id]))
    && (forall id | id in tasks' && id !in tasks :: FreshRow(tasks'[id]))
  }

  /** The count-based readiness test holds exactly for duplicate-free lists of completed tasks. */
  lemma CountReadyExact(tasks: map<TaskId, Task>, deps: seq<TaskId>)
    ensures CountReady(tasks, deps) <==> NoDup(deps) && AllCompleted(tasks, deps)
  {
    var done := set d | d in deps && IsCompleted(tasks, d);
    ElemsBound(deps);
    if AllCompleted(tasks, deps) {
      assert done == Elems(deps);
    } else {
      var d :| d in deps && !IsCompleted(tasks, d);
      assert d in Elems(deps) && d !in done;
      assert done < Elems(deps);
      SubsetSize(done, Elems(deps));
    }
  }

  // ---------------------------------------------------------------------------------------------
  // The two promotion paths

  ghost predicate Notified(notifications: seq<TaskId>, deps: seq<TaskId>) {
    exists n :: n in notifications && n in deps
  }

  /** `processNotifications` in closed form: one pass over the table. */
  ghost function NotifyAll(tasks: map<TaskId, Task>, notifications: seq<TaskId>): map<TaskId, Task> {
    map id | id in tasks ::
      PromoteTask(tasks[id], Notified(notifications, tasks[id].deps) && AllCompleted(tasks, tasks[id].deps))
  }

  /** Promoting rows does not change which tasks are completed. */
  lemma SameCompleted(tasks: map<TaskId, Task>, tasks': map<TaskId, Task>, deps: seq<TaskId>)
    requires tasks'.Keys == tasks.Keys
    requires forall id | id in tasks :: tasks'[id] == tasks[id] || tasks'[id] == PromoteTask(tasks[id], true)
    ensures AllCompleted(tasks', deps) == AllCompleted(tasks, deps)
    ensures CountReady(tasks', deps) == CountReady(tasks, deps)
  {
    assert forall d :: IsCompleted(tasks', d) == IsCompleted(tasks, d);
    CountReadyExact(tasks, deps);
    CountReadyExact(tasks', deps);
  }

  lemma {:induction false} DrainInOnePass(s: State)
    ensures ProcessNotifications(s) == s.(tasks := NotifyAll(s.tasks, s.notifications), notifications := [])
    decreases |s.notifications|
  {
    var goal := NotifyAll(s.tasks, s.notifications);
    if s.notifications == [] {
      assert forall id | id in s.tasks :: goal[id] == s.tasks[id];
    } else {
      var n, rest := s.notifications[0], s.notifications[1..];
      assert s.notifications == [n] + rest;
      var s1 := NotifyOne(s, n).(notifications := rest);
      DrainInOnePass(s1);
      forall id | id in s.tasks
        ensures NotifyAll(s1.tasks, rest)[id] == goal[id]
      {
        SameCompleted(s.tasks, s1.tasks, s.tasks[id].deps);
        hide AllCompleted;
        assert Notified(s.notifications, s.tasks[id].deps)
            <==> n in s.tasks[id].deps || Notified(rest, s.tasks[id].deps);
      }
      assert NotifyAll(s1.tasks, rest) == goal;
    }
  }

  /** Both tables, row by row. */
  lemma PreparedRow(s: State, id: TaskId)
    requires id in s.tasks
    ensures PreparePoll(s).tasks.Keys == Promote(s).tasks.Keys == s.tasks.Keys
    ensures var t := s.tasks[id]; var done := AllCompleted(s.tasks, t.deps);
            && PreparePoll(s).tasks[id] == PromoteTask(t, done && (NoDup(t.deps) || Notified(s.notifications, t.deps)))
            && Promote(s).tasks[id] == PromoteTask(t, done && NoDup(t.deps))
  {
    DrainInOnePass(s);
    CountReadyExact(s.tasks, s.tasks[id].deps);
    SameCompleted(s.tasks, ProcessNotifications(s).tasks, s.tasks[id].deps);
    hide AllCompleted, CountReady, Notified, NoDup;
  }

  /** A pending task that names a dependency twice, has them all completed, and was notified of one. */
  ghost predicate OnlyNotified(s: State, id: TaskId) {
    && id in s.tasks && s.tasks[id].status == Pending && !NoDup(s.tasks[id].deps)
    && AllCompleted(s.tasks, s.tasks[id].deps) && Notified(s.notifications, s.tasks[id].deps)
  }

  lemma RowDiffers(s: State, id: TaskId)
    requires id in s.tasks
    ensures PreparePoll(s).tasks.Keys == Promote(s).tasks.Keys == s.tasks.Keys
    ensures PreparePoll(s).tasks[id] != Promote(s).tasks[id] <==> OnlyNotified(s, id)
  {
    PreparedRow(s, id);
    hide AllCompleted, Notified, NoDup, PreparePoll, Promote;
  }

  /** Draining the notifications before promoting leaves the table promotion alone leaves, except for tasks that name
      a dependency twice: a notification schedules those, the count-based promotion never does. */
  lemma NotifyThenPromote(s: State)
    ensures PreparePoll(s).tasks == Promote(s).tasks <==> forall id :: !OnlyNotified(s, id)
  {
    assert PreparePoll(s).tasks.Keys == Promote(s).tasks.Keys == s.tasks.Keys by { DrainInOnePass(s); }
    hide PreparePoll, Promote;
    forall id | id in s.tasks
      ensures PreparePoll(s).tasks[id] != Promote(s).tasks[id] <==> OnlyNotified(s, id)
    {
      RowDiffers(s, id);
    }
    hide OnlyNotified;
    if forall id | id in s.tasks :: !OnlyNotified(s, id) {
      assert forall id | id in s.tasks :: PreparePoll(s).tasks[id] == Promote(s).tasks[id];
    }
  }

  /** After a poll's promotion steps a task is pending only if its list repeats an entry or names
      a task not completed. */
  lemma NothingReadyStaysPending(s: State, id: TaskId)
    requires id in PreparePoll(s).tasks && PreparePoll(s).tasks[id].status == Pending
    ensures var s' := PreparePoll(s); !(NoDup(s'.tasks[id].deps) && AllCompleted(s'.tasks, s'.tasks[id].deps))
  {
    var s1 := ProcessNotifications(s);
    CountReadyExact(s1.tasks, s1.tasks[id].deps);
    assert forall d :: IsCompleted(Promote(s1).tasks, d) == IsCompleted(s1.tasks, d);
  }

  // ---------------------------------------------------------------------------------------------
  // Every step moves every row along its life cycle

  lemma TransitionMoves(s: State, id: TaskId, to: Status, worker: Option<WorkerId>)
    requires to != Scheduled
    ensures TransitionTo(s, id, to, worker).Some? ==> TableStep(s.tasks, TransitionTo(s, id, to, worker).value.tasks)
  {
  }

  lemma SubmitMoves(s: State, item: Item)
    ensures TableStep(s.tasks, OrUnchanged(Enqueue(s, item), s).tasks)
  {
  }

  lemma {:induction false} InsertMoves(s: State, items: seq<Item>)
    ensures var r := InsertAll(s, items);
            r.Some? ==> && r.value == s.(tasks := r.value.tasks)
                        && s.tasks.Keys <= r.value.tasks.Keys
                        && (forall id | id in s.tasks :: r.value.tasks[id] == s.tasks[id])
                        && (forall id | id in r.value.tasks && id !in s.tasks :: FreshRow(r.value.tasks[id]))
    decreases |items|
  {
    if items != [] && RowAllowed(s, items[0]) {
      InsertMoves(s.(tasks := s.tasks[items[0].id := Submitted(items[0].spec, s.now)]), items[1..]);
    }
  }

  lemma PromoteMoves(s: State)
    ensures TableStep(s.tasks, Promote(s).tasks)
  {
    forall id | id in s.tasks ensures Moves(s.tasks, s.tasks[id], Promote(s).tasks[id]) {
      CountReadyExact(s.tasks, s.tasks[id].deps);
    }
  }

  lemma AssignMoves(s: State, w: WorkerId, id: TaskId)
    requires id in s.tasks
    ensures TableStep(s.tasks, AssignTask(s, w, id).1.tasks)
  {
    AcquireKeepsTasks(s, id, s.tasks[id].resources, w);
    TransitionMoves(AcquireLocks(s, id, s.tasks[id].resources, w).1, id, Running, Some(w));
  }

  /** Rows stay, or go from running back to scheduled. */
  ghost predicate Recovery(tasks: map<TaskId, Task>, tasks': map<TaskId, Task>) {
    && tasks.Keys == tasks'.Keys
    && forall id | id in tasks ::
         || tasks'[id] == tasks[id]
         || (tasks[id].status == Running
             && tasks'[id] == tasks[id].(status := Scheduled, worker := None, started := None))
  }

  lemma ComposeRecovery(a: map<TaskId, Task>, b: map<TaskId, Task>, c: map<TaskId, Task>)
    requires Recovery(a, b) && Recovery(b, c)
    ensures Recovery(a, c)
  {
  }

  lemma RecoveryMoves(tasks: map<TaskId, Task>, tasks': map<TaskId, Task>)
    requires Recovery(tasks, tasks')
    ensures TableStep(tasks, tasks')
  {
  }

  lemma {:induction false} RecoverMoves(s: State, dead: seq<WorkerId>)
    requires forall i | 0 <= i < |dead| :: dead[i] < |s.workers|
    ensures Recovery(s.tasks, RecoverWorkers(s, dead).tasks)
    decreases |dead|
  {
    if dead != [] {
      var s1 := RecoverWorker(s, dead[0]);
      RecoverMoves(s1, dead[1..]);
      ComposeRecovery(s.tasks, s1.tasks, RecoverWorkers(s1, dead[1..]).tasks);
    }
  }

  lemma {:induction false} SpawnKeepsTasks(s: State, n: nat)
    ensures SpawnWorkers(s, n).tasks == s.tasks && SpawnWorkers(s, n).locks == s.locks
            && SpawnWorkers(s, n).now == s.now
    decreases n
  {
    if n > 0 { SpawnKeepsTasks(SpawnWorker(s), n - 1); }
  }

  lemma SameMoves(tasks: map<TaskId, Task>)
    ensures TableStep(tasks, tasks)
  {
  }

  lemma RetryMoves(s: State, id: TaskId)
    ensures TableStep(s.tasks, OrSame(RetryTask(s, id), s).tasks)
  {
  }

  lemma BatchMoves(s: State, items: seq<Item>)
    ensures TableStep(s.tasks, OrUnchanged(BatchEnqueue(s, items), s).tasks)
  {
    InsertMoves(s, items);
  }

  lemma CancelAllMoves(s: State, batch: BatchId)
    ensures TableStep(s.tasks, CancelBatch(s, batch).tasks)
  {
  }

  lemma NotifyMoves(s: State)
    ensures TableStep(s.tasks, ProcessNotifications(s).tasks)
  {
    DrainInOnePass(s);
  }

  /** Every step of the server moves every row along its life cycle and deletes none. */
  lemma StepMoves(s: State, step: Step)
    ensures TableStep(s.tasks, Apply(s, step).tasks)
  {
    hide TableStep, TransitionTo, AssignTask, InsertAll, BatchEnqueue, Enqueue, RetryTask, CancelBatch, Promote,
         ProcessNotifications, RecoverWorkers, SpawnWorkers, HeartbeatAll;
    SameMoves(s.tasks);
    match step
    case Advance(_) =>
    case SubmitOne(item) => SubmitMoves(s, item);
    case SubmitMany(items) => BatchMoves(s, items);
    case Announce(_) =>
    case DrainNotifications => NotifyMoves(s);
    case PromotePending => PromoteMoves(s);
    case Start(id) =>
      var w := AvailableWorker(s.pool);
      if id in s.tasks && w.Some? { AssignMoves(s, w.value, id); }
    case FinishAt(i, ok) =>
      if i < |s.pool| && s.pool[i].currentTask.Some? {
        TransitionMoves(s, s.pool[i].currentTask.value, if ok then Completed else Failed, None);
      }
    case Retry(id) => RetryMoves(s, id);
    case Cancel(id) => TransitionMoves(s, id, Cancelled, None);
    case CancelAll(batch) => CancelAllMoves(s, batch);
    case Heartbeat =>
      var s1 := HeartbeatAll(s);
      HeartbeatKeepsTasks(s);
      RecoverMoves(s1, DeadWorkers(s1, |s1.workers|));
      RecoveryMoves(s.tasks, HeartbeatTick(s).tasks);
    case Crash => SpawnKeepsTasks(s.(pool := [], runningTasks := 0, notifications := []), s.maxConcurrency);
  }

  lemma HeartbeatKeepsTasks(s: State)
    ensures HeartbeatAll(s) == s.(workers := HeartbeatAll(s).workers)
  {
  }

  /** Along any run a row is never deleted, never becomes pending again, keeps what it was submitted with, and stays
      completed or cancelled once it is. */
  lemma {:induction false} LifeCycle(s: State, steps: seq<Step>, id: TaskId)
    requires id in s.tasks
    ensures id in Exec(s, steps).tasks
    ensures var t, t' := s.tasks[id], Exec(s, steps).tasks[id];
            && t'.deps == t.deps && t'.resources == t.resources && t'.priority == t.priority && t'.created == t.created
            && (t.status != Pending ==> t'.status != Pending)
            && (t.status == Completed || t.status == Cancelled ==> t'.status == t.status)
            && t.retryCount <= t'.retryCount
    decreases |steps|
  {
    if steps != [] {
      var before := steps[..|steps| - 1];
      LifeCycle(s, before, id);
      StepMoves(Exec(s, before), steps[|steps| - 1]);
      hide Apply, AllCompleted;
      assert Moves(Exec(s, before).tasks, Exec(s, before).tasks[id], Exec(s, steps).tasks[id]);
    }
  }
}
