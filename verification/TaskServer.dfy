/** The server object: the tables, the pool and the notification list as mutable fields, and the operations with their
    loops. Each is proved to do what its function in `TaskQueue` says. */
module TaskServer {
  import opened Prelude
  import opened Graphs
  import CycleCheck
  import opened TaskQueue
  import opened TaskQueueRuns
  import opened TaskQueueTables
  import opened TaskQueuePool
  import Outcomes = TaskQueueOutcomes
  import Recovery = TaskQueueRecovery
  import Safety = TaskQueueSafety

  class Server {
    var now: Time
    var tasks: map<TaskId, Task>
    var locks: map<nat, Lock>
    var nextLock: nat
    var workers: seq<WorkerRow>
    var pool: seq<PoolWorker>
    var runningTasks: int
    var maxConcurrency: nat
    var notifications: seq<TaskId>

    function Snapshot(): State
      reads this
    {
      State(now, tasks, locks, nextLock, workers, pool, runningTasks, maxConcurrency, notifications)
    }

    /** Everything that the theorems about runs say of a state. */
    ghost predicate Sound()
      reads this
    {
      Safety.Sound(Snapshot())
    }

    /** A server on an empty database, its pool started. */
    constructor (now: Time, maxConcurrency: nat)
      ensures Sound()
      ensures Snapshot() == Restart(State(now, map[], map[], 0, [], [], 0, maxConcurrency, []))
    {
      this.now, tasks, locks, nextLock, workers, pool := now, map[], map[], 0, [], [];
      runningTasks, this.maxConcurrency, notifications := 0, maxConcurrency, [];
      new;
      StartPool();
      Safety.FreshIsSound(now, maxConcurrency);
      hide Safety.Sound, SpawnWorkers;
    }

    /** `start`: spawns the pool's workers. */
    method StartPool()
      modifies this`pool, this`workers
      ensures Snapshot() == SpawnWorkers(old(Snapshot()), maxConcurrency)
    {
      for i := 0 to maxConcurrency
        invariant Snapshot() == old(Snapshot()).(pool := pool, workers := workers)
        invariant SpawnWorkers(Snapshot(), maxConcurrency - i) == SpawnWorkers(old(Snapshot()), maxConcurrency)
      {
        SpawnWorker();
      }
    }

    // ---- state.js -----------------------------------------------------------------------------

    method TransitionTo(id: TaskId, to: Status, worker: Option<WorkerId>) returns (ok: bool)
      modifies this`tasks, this`locks
      ensures ok == TaskQueue.TransitionTo(old(Snapshot()), id, to, worker).Some?
      ensures Snapshot() == if ok then TaskQueue.TransitionTo(old(Snapshot()), id, to, worker).value
                              else old(Snapshot())
      ensures to != Scheduled && old(SoundTable(tasks)) ==> SoundTable(tasks)
    {
      if to != Scheduled { TransitionKeepsTable(Snapshot(), id, to, worker); }
      hide SoundTable;
      if id !in tasks { return false; }
      var t := tasks[id];
      if t.status == to { return true; }
      if !IsValidTransition(t.status, to) { return false; }
      var t' := t.(status := to);
      if to == Running {
        t' := t'.(started := Some(now));
        if worker.Some? { t' := t'.(worker := worker); }
      }
      tasks := tasks[id := t'];
      if to == Completed || to == Failed { locks := ReleaseLocks(locks, id); }
      return true;
    }

    /** `transitionTo` as the promotion loops use it. */
    method ScheduleRow(id: TaskId)
      requires id in tasks && (tasks[id].status == Pending || tasks[id].status == Scheduled)
      modifies this`tasks, this`locks
      ensures Snapshot() == old(Snapshot()).(tasks := old(tasks)[id := old(tasks)[id].(status := Scheduled)])
    {
      var _ := TransitionTo(id, Scheduled, None);
      assert tasks == old(tasks)[id := old(tasks)[id].(status := Scheduled)];
    }

    method RetryTask(id: TaskId) returns (ok: bool)
      modifies this`tasks
      ensures ok == TaskQueue.RetryTask(old(Snapshot()), id).Some?
      ensures ok == old(HasStatus(tasks, id, Failed) && tasks[id].retryCount < tasks[id].maxRetries)
      ensures Snapshot() == if ok then TaskQueue.RetryTask(old(Snapshot()), id).value else old(Snapshot())
      ensures old(Sound()) ==> Sound()
    {
      Safety.StepKeepsSound(Snapshot(), Retry(id));
      hide Safety.Sound;
      if id !in tasks || tasks[id].status != Failed { return false; }
      var newRetryCount := tasks[id].retryCount + 1;
      if newRetryCount > tasks[id].maxRetries { return false; }
      tasks := tasks[id := tasks[id].(status := Scheduled, retryCount := newRetryCount, started := None)];
      return true;
    }

    method CancelTask(id: TaskId) returns (ok: bool)
      modifies this`tasks, this`locks
      ensures ok == TaskQueue.CancelTask(old(Snapshot()), id).Some?
      ensures ok == old(id in tasks && (Waiting(tasks[id]) || tasks[id].status == Running))
      ensures Snapshot() == if ok then TaskQueue.CancelTask(old(Snapshot()), id).value else old(Snapshot())
      ensures old(Sound()) ==> Sound()
    {
      Safety.StepKeepsSound(Snapshot(), Cancel(id));
      hide Safety.Sound, SoundTable;
      if id !in tasks || tasks[id].status == Completed || tasks[id].status == Cancelled { return false; }
      ok := TransitionTo(id, Cancelled, None);
    }

    method CancelBatch(batch: BatchId) returns (changes: nat)
      modifies this`tasks
      ensures Snapshot() == TaskQueue.CancelBatch(old(Snapshot()), batch)
      ensures changes == |set id | id in tasks && tasks[id] != old(tasks)[id]|
      ensures old(Sound()) ==> Sound()
    {
      Safety.CancelBatchKeepsSound(Snapshot(), batch);
      hide Safety.Sound;
      var hit := set id | id in tasks && tasks[id].batch == Some(batch)
                          && (tasks[id].status == Pending || tasks[id].status == Scheduled);
      tasks := map id | id in tasks :: if id in hit then tasks[id].(status := Cancelled) else tasks[id];
      changes := |hit|;
      assert hit == set id | id in tasks && tasks[id] != old(tasks)[id];
    }

    // ---- queue.js -----------------------------------------------------------------------------

    method CheckDependencies(batch: set<TaskId>, deps: seq<TaskId>) returns (missing: Option<TaskId>)
      ensures missing == FirstMissing(Snapshot(), batch, deps)
    {
      for i := 0 to |deps|
        invariant FirstMissing(Snapshot(), batch, deps) == FirstMissing(Snapshot(), batch, deps[i..])
      {
        if deps[i] !in tasks && deps[i] !in batch { return Some(deps[i]); }
      }
      return None;
    }

    method Enqueue(item: Item) returns (refusal: Option<Refusal>)
      modifies this`tasks, this`locks
      ensures match TaskQueue.Enqueue(old(Snapshot()), item)
              case Accepted(s) => refusal == None && Snapshot() == s
              case Refused(e) => refusal == Some(e) && Snapshot() == old(Snapshot())
      ensures old(Sound()) ==> Sound()
    {
      Safety.StepKeepsSound(Snapshot(), SubmitOne(item));
      hide Safety.Sound, SoundTable;
      if item.spec.deps != [] {
        var missing := CheckDependencies({}, item.spec.deps);
        if missing.Some? { return Some(MissingDependency(missing.value)); }
        var cyclic := CycleCheck.CheckCycle(item.id, item.spec.deps, Stored(tasks), map[]);
        if cyclic { return Some(CircularDependency); }
      }
      if !RowAllowed(Snapshot(), item) { return Some(ConstraintViolation); }
      tasks := tasks[item.id := NewTask(item.spec, now)];
      if item.spec.deps == [] {
        var _ := TransitionTo(item.id, Scheduled, None);
      }
      return None;
    }

    /** The checking loop of `batchEnqueue`. */
    method CheckBatch(items: seq<Item>, virtualDeps: Graph<TaskId>) returns (objection: Option<Refusal>)
      ensures objection == FirstObjection(Snapshot(), virtualDeps, items)
    {
      for i := 0 to |items|
        invariant FirstObjection(Snapshot(), virtualDeps, items) == FirstObjection(Snapshot(), virtualDeps, items[i..])
      {
        var item := items[i];
        assert items[i..][1..] == items[i + 1..];
        if item.spec.deps != [] {
          var missing := CheckDependencies(virtualDeps.Keys, item.spec.deps);
          if missing.Some? { return Some(MissingDependency(missing.value)); }
          var cyclic := CycleCheck.CheckCycle(item.id, item.spec.deps, Stored(tasks), virtualDeps);
          if cyclic { return Some(CircularDependency); }
        }
      }
      return None;
    }

    method BatchEnqueue(items: seq<Item>) returns (refusal: Option<Refusal>)
      modifies this`tasks, this`locks
      ensures match TaskQueue.BatchEnqueue(old(Snapshot()), items)
              case Accepted(s) => refusal == None && Snapshot() == s
              case Refused(e) => refusal == Some(e) && Snapshot() == old(Snapshot())
      ensures old(Sound()) ==> Sound()
    {
      Safety.StepKeepsSound(Snapshot(), SubmitMany(items));
      hide Safety.Sound;
      var virtualDeps: Graph<TaskId> := map[];
      for i := 0 to |items|
        invariant virtualDeps == VirtualDeps(items[..i])
      {
        assert items[..i + 1][..i] == items[..i];
        virtualDeps := virtualDeps[items[i].id := items[i].spec.deps];
      }
      assert items[..|items|] == items;
      refusal := CheckBatch(items, virtualDeps);
      if refusal.None? {
        hide InsertAll;
        refusal := InsertBatch(items);
      }
    }

    /** `batchCreateTasks`: one transaction, rolled back when a row is not allowed. */
    method BatchCreateTasks(items: seq<Item>) returns (ok: bool)
      modifies this`tasks
      ensures ok == InsertAll(old(Snapshot()), items).Some?
      ensures if ok then Snapshot() == old(Snapshot()).(tasks := tasks) && AddedBy(old(tasks), tasks, items)
                         && InsertAll(old(Snapshot()), items)
                             == Some(old(Snapshot()).(tasks := Settled(old(tasks), tasks)))
              else Snapshot() == old(Snapshot())
    {
      ghost var s0 := Snapshot();
      var before := tasks;
      SettledSame(before);
      for i := 0 to |items|
        invariant Snapshot() == s0.(tasks := tasks)
        invariant InsertAll(s0, items) == InsertAll(s0.(tasks := Settled(before, tasks)), items[i..])
        invariant AddedBy(before, tasks, items[..i])
      {
        hide AddedBy;
        assert items[i..][1..] == items[i + 1..] && items[..i + 1] == items[..i] + [items[i]];
        if !RowAllowed(Snapshot(), items[i]) {
          tasks := before;
          return false;
        }
        SettledInsert(before, tasks, items[..i], items[i], now);
        tasks := tasks[items[i].id := NewTask(items[i].spec, now)];
      }
      assert items[..|items|] == items;
      return true;
    }

    /** The inserting transaction, then the second pass that schedules the tasks without dependencies. */
    method InsertBatch(items: seq<Item>) returns (refusal: Option<Refusal>)
      modifies this`tasks, this`locks
      ensures match InsertAll(old(Snapshot()), items)
              case Some(s) => refusal == None && Snapshot() == s
              case None => refusal == Some(ConstraintViolation) && Snapshot() == old(Snapshot())
    {
      ghost var s0 := Snapshot();
      ghost var before := tasks;
      var ok := BatchCreateTasks(items);
      if !ok { return Some(ConstraintViolation); }
      hide InsertAll;
      ghost var goal := Settled(before, tasks);
      for i := 0 to |items|
        invariant Snapshot() == s0.(tasks := tasks)
        invariant Settled(before, tasks) == goal && AddedBy(before, tasks, items)
        invariant FinalUpTo(before, tasks, items, i)
      {
        hide AddedBy, Settled, FinalUpTo;
        SettledRow(before, tasks, items, i);
        if tasks[items[i].id].deps == [] { ScheduleRow(items[i].id); }
      }
      SettledDone(before, tasks, items);
      return None;
    }

    /** Called by a timer of its own once the task is completed. */
    method NotifyDependents(done: TaskId)
      modifies this`notifications
      ensures Snapshot() == old(Snapshot()).(notifications := old(notifications) + [done])
      ensures IsCompleted(tasks, done) && old(Sound()) ==> Sound()
    {
      Safety.StepKeepsSound(Snapshot(), Announce(done));
      hide Safety.Sound;
      notifications := notifications + [done];
    }

    /** `checkAndPromotePendingTasks`; the rows the query returns come in any order. */
    method CheckAndPromotePendingTasks() returns (count: nat)
      modifies this`tasks, this`locks
      ensures Snapshot() == Promote(old(Snapshot()))
      ensures old(Sound()) ==> Sound()
    {
      Safety.PromoteKeepsSound(Snapshot());
      hide Safety.Sound;
      ghost var s0 := Snapshot();
      var ready := set id | id in tasks && tasks[id].status == Pending && CountReady(tasks, tasks[id].deps);
      count := |ready|;
      var todo := ready;
      PromotedNone(tasks);
      assert ready - todo == {};
      hide CountReady, PromotedSo;
      while todo != {}
        invariant todo <= ready
        invariant Snapshot() == s0.(tasks := PromotedSo(s0.tasks, ready - todo))
        decreases todo
      {
        ghost var _ := SomeElement(todo);
        var id :| id in todo;
        PromotedCompleted(s0.tasks, ready - todo, id);
        PromoteMore(s0.tasks, ready - todo, id);
        assert ready - (todo - {id}) == ready - todo + {id};
        ScheduleRow(id);
        todo := todo - {id};
      }
      PromotedAll(s0, ready);
    }

    /** `processNotifications`: front to back; the dependents of one notification come in any order. */
    method ProcessNotifications()
      modifies this`tasks, this`locks, this`notifications
      ensures Snapshot() == TaskQueue.ProcessNotifications(old(Snapshot()))
      ensures old(Sound()) ==> Sound()
    {
      Safety.StepKeepsSound(Snapshot(), DrainNotifications);
      hide Safety.Sound;
      while notifications != []
        invariant TaskQueue.ProcessNotifications(Snapshot()) == TaskQueue.ProcessNotifications(old(Snapshot()))
        decreases |notifications|
      {
        var done := notifications[0];
        ghost var s0 := Snapshot();
        notifications := notifications[1..];
        PromoteDependents(done);
        assert Snapshot() == NotifyOne(s0, done).(notifications := s0.notifications[1..]);
      }
    }

    method PromoteDependents(finished: TaskId)
      modifies this`tasks, this`locks
      ensures Snapshot() == NotifyOne(old(Snapshot()), finished)
    {
      ghost var s0 := Snapshot();
      var dependents := set id | id in tasks && tasks[id].status == Pending && finished in tasks[id].deps;
      var todo := dependents;
      ghost var done := {};
      PromotedNone(tasks);
      hide PromotedSo;
      while todo != {}
        invariant todo <= dependents
        invariant done == set id | id in dependents - todo && AllCompleted(s0.tasks, s0.tasks[id].deps)
        invariant Snapshot() == s0.(tasks := PromotedSo(s0.tasks, done))
        decreases todo
      {
        ghost var _ := SomeElement(todo);
        var id :| id in todo;
        PromotedCompleted(s0.tasks, done, id);
        if AllCompleted(tasks, tasks[id].deps) {
          PromoteMore(s0.tasks, done, id);
          ScheduleRow(id);
          done := done + {id};
        }
        todo := todo - {id};
      }
      PromotedNotified(s0, finished, done);
    }

    // ---- worker.js ----------------------------------------------------------------------------

    method SpawnWorker()
      modifies this`pool, this`workers
      ensures Snapshot() == TaskQueue.SpawnWorker(old(Snapshot()))
    {
      pool := pool + [PoolWorker(|workers|, true, None)];
      workers := workers + [WorkerRow(now, true)];
    }

    /** `acquireResourceLocks`: one lock per turn of the loop, all given back when one is taken. */
    method AcquireResourceLocks(id: TaskId, resources: seq<ResourceId>, workerId: WorkerId) returns (ok: bool)
      modifies this`locks, this`nextLock
      ensures (ok, Snapshot()) == AcquireLocks(old(Snapshot()), id, resources, workerId)
    {
      var expiresAt := now + LOCK_DURATION;
      for i := 0 to |resources|
        invariant now == old(now)
        invariant AcquireLocks(Snapshot(), id, resources[i..], workerId)
            == AcquireLocks(old(Snapshot()), id, resources, workerId)
      {
        assert resources[i..][1..] == resources[i + 1..];
        locks := PurgeExpired(locks, now);
        if IsLocked(locks, resources[i]) {
          locks := ReleaseLocks(locks, id);
          return false;
        }
        locks, nextLock := locks[nextLock := Lock(resources[i], id, workerId, expiresAt)], nextLock + 1;
      }
      return true;
    }

    method AssignTask(workerId: WorkerId, id: TaskId) returns (ok: bool)
      requires id in tasks
      modifies this`tasks, this`locks, this`nextLock, this`pool, this`runningTasks
      ensures (ok, Snapshot()) == TaskQueue.AssignTask(old(Snapshot()), workerId, id)
      ensures old(AvailableWorker(pool) == Some(workerId) && tasks[id].status == Scheduled && Sound()) ==> Sound()
    {
      Safety.StepKeepsSound(Snapshot(), Start(id));
      hide Safety.Sound, SoundTable;
      AcquireKeepsTasks(Snapshot(), id, tasks[id].resources, workerId);
      var i := FindWorker(pool, workerId);
      if i.None? || !pool[i.value].active { return false; }
      if tasks[id].resources != [] {
        var acquired := AcquireResourceLocks(id, tasks[id].resources, workerId);
        if !acquired { return false; }
      }
      var moved := TransitionTo(id, Running, Some(workerId));
      if !moved {
        locks := ReleaseLocks(locks, id);
        return false;
      }
      pool := pool[i.value := pool[i.value].(currentTask := Some(id))];
      runningTasks := runningTasks + 1;
      return true;
    }

    /** The rest of `executeTask` once its await settled. */
    method FinishTask(i: nat, ok: bool)
      requires i < |pool| && pool[i].currentTask.Some?
      modifies this`tasks, this`locks, this`pool, this`runningTasks
      ensures Snapshot() == Finish(old(Snapshot()), i, ok)
      ensures old(Sound()) ==> Sound() && Outcomes.EndedBy(old(Snapshot()), i, ok, Snapshot())
    {
      Outcomes.FinishSound(Snapshot(), i, ok);
      hide Safety.Sound, SoundTable, Outcomes.EndedBy;
      var _ := TransitionTo(pool[i].currentTask.value, if ok then Completed else Failed, None);
      pool := pool[i := pool[i].(currentTask := None)];
      runningTasks := runningTasks - 1;
    }

    method HeartbeatAll()
      requires forall p | p in pool :: p.id < |workers|
      modifies this`workers
      ensures Snapshot() == TaskQueue.HeartbeatAll(old(Snapshot()))
    {
      ghost var before := workers;
      for i := 0 to |pool|
        invariant Snapshot() == old(Snapshot()).(workers := workers) && |workers| == |before|
        invariant forall w | 0 <= w < |workers| ::
                    workers[w] == if exists j | 0 <= j < i :: pool[j].id == w then WorkerRow(now, true) else before[w]
      {
        assert pool[i] in pool;
        workers := workers[pool[i].id := WorkerRow(now, true)];
      }
      assert workers == TaskQueue.HeartbeatAll(old(Snapshot())).workers;
    }

    /** What the heartbeat timer does. */
    method HeartbeatTick()
      requires forall p | p in pool :: p.id < |workers|
      modifies this`tasks, this`locks, this`workers, this`pool
      ensures Snapshot() == TaskQueue.HeartbeatTick(old(Snapshot()))
      ensures Recovery.TickEffect(old(Snapshot()), Snapshot())
      ensures old(Sound()) ==> Sound()
    {
      Safety.StepKeepsSound(Snapshot(), Heartbeat);
      Recovery.TickRecovers(Snapshot());
      hide Safety.Sound, Recovery.TickEffect;
      HeartbeatAll();
      RecoverDeadWorkers();
    }

    method RecoverDeadWorkers()
      modifies this`tasks, this`locks, this`workers, this`pool
      ensures Snapshot() == RecoverWorkers(old(Snapshot()), DeadWorkers(old(Snapshot()), |old(workers)|))
    {
      var dead := DeadWorkers(Snapshot(), |workers|);
      hide DeadWorkers, FindWorker, RecoverTasks, NotInPool, Safety.Sound;
      for i := 0 to |dead|
        invariant |workers| >= |old(workers)|
        invariant RecoverWorkers(Snapshot(), dead[i..]) == RecoverWorkers(old(Snapshot()), dead)
      {
        ghost var s0 := Snapshot();
        var wasInPool := FindWorker(pool, dead[i]);
        RecoverTasksForWorker(dead[i]);
        if wasInPool.Some? {
          pool := pool[..wasInPool.value] + pool[wasInPool.value + 1..];
          if |pool| < maxConcurrency { SpawnWorker(); }
        }
        assert Snapshot() == RecoverWorker(s0, dead[i]);
        assert dead[i..][1..] == dead[i + 1..];
      }
    }

    /** The three statements of `recoverTasksForWorker`. */
    method RecoverTasksForWorker(w: WorkerId)
      requires w < |workers|
      modifies this`tasks, this`locks, this`workers
      ensures Snapshot() == RecoverTasks(old(Snapshot()), w)
      ensures old(Sound()) && NotInPool(pool, w) ==> Sound()
    {
      if Sound() && NotInPool(pool, w) { RecoveryKeepsSound(Snapshot(), w); }
      hide Safety.Sound, NotInPool;
      tasks := map id | id in tasks ::
        if tasks[id].worker == Some(w) && tasks[id].status == Running
        then tasks[id].(status := Scheduled, worker := None, started := None) else tasks[id];
      locks := map k | k in locks && locks[k].worker != w :: locks[k];
      workers := workers[w := workers[w].(active := false)];
    }

    // ---- scheduler.js -------------------------------------------------------------------------

    /** The query `getScheduledTasks`: some best remaining row at a time, ties in any order. */
    method FetchReadyTasks(limit: nat) returns (fetched: seq<TaskId>)
      ensures IsFetch(tasks, limit, fetched)
    {
      fetched := [];
      var todo := set id | id in tasks && tasks[id].status == Scheduled;
      while |fetched| < limit && todo != {}
        invariant |fetched| <= limit && NoDup(fetched)
        invariant forall i | 0 <= i < |fetched| :: fetched[i] in tasks && tasks[fetched[i]].status == Scheduled
        invariant forall id | id in todo :: id in tasks && tasks[id].status == Scheduled
        invariant forall id | id in tasks && tasks[id].status == Scheduled :: id in fetched || id in todo
        invariant forall id | id in fetched :: id !in todo
        invariant forall i, j | 0 <= i < j < |fetched| :: !Ahead(tasks[fetched[j]], tasks[fetched[i]])
        invariant forall i, id | 0 <= i < |fetched| && id in todo :: !Ahead(tasks[id], tasks[fetched[i]])
        decreases todo
      {
        BestExists(tasks, todo);
        var best :| best in todo && forall id | id in todo :: !Ahead(tasks[id], tasks[best]);
        fetched, todo := fetched + [best], todo - {best};
      }
    }

    /** `poll`; `fetched` records the query's answer for the caller. */
    method Poll() returns (fetched: seq<TaskId>)
      modifies this`tasks, this`locks, this`nextLock, this`pool, this`runningTasks, this`notifications
      ensures IsFetch(PreparePoll(old(Snapshot())).tasks, old(maxConcurrency), fetched)
      ensures AssignAllReady(PreparePoll(old(Snapshot())), fetched)
      ensures Snapshot() == AssignAll(PreparePoll(old(Snapshot())), fetched).0
      ensures old(Sound()) ==> Sound()
    {
      hide Safety.Sound;
      ProcessNotifications();
      var _ := CheckAndPromotePendingTasks();
      ghost var s1 := Snapshot();
      fetched := FetchReadyTasks(maxConcurrency);
      Safety.PollKeepsSound(old(Snapshot()), fetched);
      for i := 0 to |fetched|
        invariant tasks.Keys == s1.tasks.Keys
        invariant AssignAll(Snapshot(), fetched[i..]).0 == AssignAll(s1, fetched).0
      {
        assert fetched[i] in fetched;
        assert fetched[i..][1..] == fetched[i + 1..];
        var worker := AvailableWorker(pool);
        if worker.None? { return; }
        AssignKeepsKeys(Snapshot(), worker.value, fetched[i]);
        var _ := AssignTask(worker.value, fetched[i]);
      }
    }
  }

  lemma TransitionKeepsTable(s: State, id: TaskId, to: Status, worker: Option<WorkerId>)
    requires to != Scheduled
    ensures var r := TaskQueue.TransitionTo(s, id, to, worker);
            r.Some? && SoundTable(s.tasks) ==> SoundTable(r.value.tasks)
  {
    TransitionMoves(s, id, to, worker);
    var r := TaskQueue.TransitionTo(s, id, to, worker);
    if r.Some? && SoundTable(s.tasks) { MovesKeepTable(s.tasks, r.value.tasks); }
  }

  ghost predicate NotInPool(pool: seq<PoolWorker>, w: WorkerId) {
    forall p | p in pool :: p.id != w
  }

  lemma RecoveryKeepsSound(s: State, w: WorkerId)
    requires w < |s.workers| && Safety.Sound(s) && NotInPool(s.pool, w)
    ensures Safety.Sound(RecoverTasks(s, w))
  {
    RecoverKeepsSound(s, w);
    RecoveryMoves(s.tasks, RecoverTasks(s, w).tasks);
    MovesKeepTable(s.tasks, RecoverTasks(s, w).tasks);
    hide SoundTable, SoundServer;
  }

  /** New rows without dependencies, as they will be once scheduled. */
  ghost function Settled(before: map<TaskId, Task>, tasks: map<TaskId, Task>): map<TaskId, Task> {
    map id | id in tasks :: PromoteTask(tasks[id], id !in before && tasks[id].deps == [])
  }

  /** `tasks` is `before` with pending or scheduled rows for exactly these items added. */
  ghost predicate AddedBy(before: map<TaskId, Task>, tasks: map<TaskId, Task>, items: seq<Item>) {
    && (forall id | id in before :: id in tasks && tasks[id] == before[id])
    && (forall id | id in tasks && id !in before :: exists j | 0 <= j < |items| :: items[j].id == id)
    && (forall j | 0 <= j < |items| :: items[j].id in tasks && items[j].id !in before
                                       && (tasks[items[j].id].status == Pending
                                           || tasks[items[j].id].status == Scheduled))
  }

  lemma SettledSame(before: map<TaskId, Task>)
    ensures Settled(before, before) == before && AddedBy(before, before, [])
  {
    assert forall id | id in before :: Settled(before, before)[id] == before[id];
  }

  lemma SettledInsert(before: map<TaskId, Task>, tasks: map<TaskId, Task>, items: seq<Item>, item: Item, now: Time)
    requires AddedBy(before, tasks, items) && item.id !in tasks
    ensures Settled(before, tasks[item.id := NewTask(item.spec, now)])
         == Settled(before, tasks)[item.id := Submitted(item.spec, now)]
    ensures AddedBy(before, tasks[item.id := NewTask(item.spec, now)], items + [item])
  {
    var tasks' := tasks[item.id := NewTask(item.spec, now)];
    assert forall j | 0 <= j < |items| :: (items + [item])[j] == items[j];
    assert (items + [item])[|items|] == item;
  }

  /** The rows of the first `n` items are as they will be in the end. */
  ghost predicate FinalUpTo(before: map<TaskId, Task>, tasks: map<TaskId, Task>, items: seq<Item>, n: nat) {
    forall j | 0 <= j < n && j < |items| :: items[j].id in tasks
        && Settled(before, tasks)[items[j].id] == tasks[items[j].id]
  }

  /** Scheduling a new row without dependencies early changes nothing in the end. */
  lemma SettledRow(before: map<TaskId, Task>, tasks: map<TaskId, Task>, items: seq<Item>, i: nat)
    requires AddedBy(before, tasks, items) && i < |items| && FinalUpTo(before, tasks, items, i)
    ensures items[i].id in tasks && (tasks[items[i].id].status == Pending || tasks[items[i].id].status == Scheduled)
    ensures var id := items[i].id; var t := tasks[id];
            var tasks' := if t.deps == [] then tasks[id := t.(status := Scheduled)] else tasks;
            && AddedBy(before, tasks', items) && Settled(before, tasks') == Settled(before, tasks)
            && FinalUpTo(before, tasks', items, i + 1)
  {
  }

  lemma SettledDone(before: map<TaskId, Task>, tasks: map<TaskId, Task>, items: seq<Item>)
    requires AddedBy(before, tasks, items) && FinalUpTo(before, tasks, items, |items|)
    ensures Settled(before, tasks) == tasks
  {
    assert forall id | id in tasks :: Settled(before, tasks)[id] == tasks[id];
  }

  /** The rows promoted so far. */
  ghost function PromotedSo(tasks: map<TaskId, Task>, done: set<TaskId>): map<TaskId, Task> {
    map id | id in tasks :: PromoteTask(tasks[id], id in done)
  }

  lemma PromoteMore(tasks: map<TaskId, Task>, done: set<TaskId>, id: TaskId)
    requires id in tasks && tasks[id].status == Pending
    ensures PromotedSo(tasks, done + {id}) == PromotedSo(tasks, done)[id := tasks[id].(status := Scheduled)]
  {
  }

  lemma PromotedCompleted(tasks: map<TaskId, Task>, done: set<TaskId>, id: TaskId)
    requires id in tasks && id !in done
    ensures id in PromotedSo(tasks, done) && PromotedSo(tasks, done)[id] == tasks[id]
    ensures AllCompleted(PromotedSo(tasks, done), tasks[id].deps) == AllCompleted(tasks, tasks[id].deps)
  {
    assert forall d :: IsCompleted(PromotedSo(tasks, done), d) == IsCompleted(tasks, d);
  }

  lemma PromotedNone(tasks: map<TaskId, Task>)
    ensures PromotedSo(tasks, {}) == tasks
  {
    assert forall id | id in tasks :: PromotedSo(tasks, {})[id] == tasks[id];
  }

  lemma PromotedAll(s: State, ready: set<TaskId>)
    requires ready == set id | id in s.tasks && s.tasks[id].status == Pending && CountReady(s.tasks, s.tasks[id].deps)
    ensures PromotedSo(s.tasks, ready) == Promote(s).tasks
  {
    hide CountReady;
    assert forall id | id in s.tasks :: PromotedSo(s.tasks, ready)[id] == Promote(s).tasks[id];
  }

  lemma PromotedNotified(s: State, finished: TaskId, done: set<TaskId>)
    requires done == set id | id in s.tasks && s.tasks[id].status == Pending && finished in s.tasks[id].deps
                              && AllCompleted(s.tasks, s.tasks[id].deps)
    ensures PromotedSo(s.tasks, done) == NotifyOne(s, finished).tasks
  {
    hide AllCompleted;
    assert forall id | id in s.tasks :: PromotedSo(s.tasks, done)[id] == NotifyOne(s, finished).tasks[id];
  }

  lemma {:induction false} BestExists(tasks: map<TaskId, Task>, todo: set<TaskId>)
    requires todo != {} && forall id | id in todo :: id in tasks
    ensures exists best :: best in todo && forall id | id in todo :: !Ahead(tasks[id], tasks[best])
  {
    var x := SomeElement(todo);
    var rest := todo - {x};
    if rest == {} {
      assert todo == {x};
    } else {
      BestExists(tasks, rest);
      var best :| best in rest && forall id | id in rest :: !Ahead(tasks[id], tasks[best]);
      var winner := if Ahead(tasks[x], tasks[best]) then x else best;
      assert forall id | id in todo :: id in rest || id == x;
      assert winner in todo && forall id | id in todo :: !Ahead(tasks[id], tasks[winner]);
    }
  }

  /** The rows a poll assigns exist. */
  ghost predicate AssignAllReady(s: State, fetched: seq<TaskId>) {
    forall id | id in fetched :: id in s.tasks
  }
}
