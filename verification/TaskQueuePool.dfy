/** What holds of the worker pool and the resource locks in every reachable state. */
module TaskQueuePool {
  import opened Prelude
  import opened TaskQueue
  import opened TaskQueueRuns

  /** The task is held by that worker: running under its id, or cancelled while running under it. */
  predicate HeldBy(t: Task, w: WorkerId) {
    t.worker == Some(w) && t.started.Some? && (t.status == Running || t.status == Cancelled)
  }

  function BusyCount(pool: seq<PoolWorker>): nat {
    if pool == [] then 0
    else BusyCount(pool[..|pool| - 1]) + if pool[|pool| - 1].currentTask.Some? then 1 else 0
  }

  ghost predicate SoundPool(s: State) {
    && (forall i, j | 0 <= i < j < |s.pool| :: s.pool[i].id != s.pool[j].id)
    && (forall i | 0 <= i < |s.pool| ::
          s.pool[i].active && s.pool[i].id < |s.workers| && s.workers[s.pool[i].id].active)
    && s.runningTasks == BusyCount(s.pool)
  }

  predicate Waiting(t: Task) {
    t.status == Pending || t.status == Scheduled
  }

  /** The task runs, or was cancelled while it ran, and the row of its worker is active: it may own lock rows. */
  predicate Claims(t: Task, workers: seq<WorkerRow>) {
    && (t.status == Running || t.status == Cancelled) && t.started.Some?
    && t.worker.Some? && t.worker.value < |workers| && workers[t.worker.value].active
  }

  predicate Claimed(tasks: map<TaskId, Task>, workers: seq<WorkerRow>, id: TaskId) {
    id in tasks && Claims(tasks[id], workers)
  }

  /** A busy worker holds its task; a running task has an active worker, and when that worker is in the pool it is busy
      with the task; a task waiting for its turn has no start time; every worker named has a row. */
  ghost predicate SoundExecutions(s: State) {
    && (forall i | 0 <= i < |s.pool| && s.pool[i].currentTask.Some? ::
          var id := s.pool[i].currentTask.value; id in s.tasks && HeldBy(s.tasks[id], s.pool[i].id))
    && (forall id | id in s.tasks && s.tasks[id].status == Running :: Claims(s.tasks[id], s.workers))
    && (forall id, i | id in s.tasks && s.tasks[id].status == Running && 0 <= i < |s.pool|
                       && s.tasks[id].worker == Some(s.pool[i].id) :: s.pool[i].currentTask == Some(id))
    && (forall id | id in s.tasks && Waiting(s.tasks[id]) :: s.tasks[id].started.None?)
    && (forall id | id in s.tasks && s.tasks[id].worker.Some? :: s.tasks[id].worker.value < |s.workers|)
  }

  /** The row a claiming task owns for one of its resources. */
  function LeaseRow(t: Task, id: TaskId, r: ResourceId): Lock
    requires t.worker.Some? && t.started.Some?
  {
    Lock(r, id, t.worker.value, t.started.value + LOCK_DURATION)
  }

  /** At most one row per resource, each the lease row of a claiming task for one of its resources. */
  ghost predicate SoundLocks(tasks: map<TaskId, Task>, workers: seq<WorkerRow>, locks: map<nat, Lock>, nextLock: nat) {
    && (forall k | k in locks ::
          var l := locks[k];
          && k < nextLock && Claimed(tasks, workers, l.task) && l.resource in tasks[l.task].resources
          && l == LeaseRow(tasks[l.task], l.task, l.resource))
    && (forall k, k' | k in locks && k' in locks && locks[k].resource == locks[k'].resource :: k == k')
  }

  predicate HasLock(locks: map<nat, Lock>, lock: Lock) {
    exists k | k in locks :: locks[k] == lock
  }

  /** Until its lease runs out the task owns a row for each of its resources. */
  ghost predicate LeaseKept(now: Time, locks: map<nat, Lock>, id: TaskId, t: Task) {
    && t.worker.Some? && t.started.Some?
    && (t.started.value + LOCK_DURATION < now || forall r | r in t.resources :: HasLock(locks, LeaseRow(t, id, r)))
  }

  ghost predicate SoundLeases(now: Time, tasks: map<TaskId, Task>, workers: seq<WorkerRow>, locks: map<nat, Lock>) {
    forall id | Claimed(tasks, workers, id) :: LeaseKept(now, locks, id, tasks[id])
  }

  ghost predicate SoundServer(s: State) {
    && SoundPool(s) && SoundExecutions(s) && SoundLocks(s.tasks, s.workers, s.locks, s.nextLock)
    && SoundLeases(s.now, s.tasks, s.workers, s.locks)
  }

  ghost predicate InFlight(s: State, id: TaskId) {
    exists i | 0 <= i < |s.pool| :: s.pool[i].currentTask == Some(id)
  }

  /** The task executes, or its row says it does. */
  ghost predicate Holding(s: State, id: TaskId) {
    id in s.tasks && (s.tasks[id].status == Running || InFlight(s, id))
  }

  lemma HoldingClaims(s: State, id: TaskId)
    requires SoundPool(s) && SoundExecutions(s) && Holding(s, id)
    ensures Claimed(s.tasks, s.workers, id)
  {
  }

  // ---------------------------------------------------------------------------------------------
  // Steps that leave executions alone

  /** Running rows stay as they are or are cancelled, cancelled rows stay, nothing starts running, nothing that ended
      is cancelled, a task that starts waiting has no start time, and no worker is assigned. */
  ghost predicate Quiet(tasks: map<TaskId, Task>, tasks': map<TaskId, Task>) {
    && (forall id | id in tasks ::
          && id in tasks'
          && (tasks[id].status == Running ==> tasks'[id] == tasks[id] || tasks'[id] == tasks[id].(status := Cancelled))
          && (tasks[id].status == Cancelled ==> tasks'[id] == tasks[id]))
    && (forall id | id in tasks' :: QuietRow(tasks, id, tasks'[id]))
  }

  ghost predicate QuietRow(tasks: map<TaskId, Task>, id: TaskId, t': Task) {
    && (t'.worker.Some? ==> id in tasks && t'.worker == tasks[id].worker)
    && (t'.status == Running ==> id in tasks && tasks[id].status == Running)
    && (t'.status == Cancelled ==>
          && id in tasks && (tasks[id].status == Cancelled || tasks[id].status == Running || Waiting(tasks[id]))
          && t' == tasks[id].(status := Cancelled))
    && (Waiting(t') ==> t'.started.None? || (id in tasks && Waiting(tasks[id]) && t'.started == tasks[id].started))
  }

  lemma QuietStep(s: State, s': State)
    requires SoundServer(s) && Quiet(s.tasks, s'.tasks) && s'.now >= s.now
    requires s' == s.(now := s'.now, tasks := s'.tasks, notifications := s'.notifications)
    ensures SoundServer(s')
  {
    QuietExecutions(s, s');
    QuietClaims(s, s');
    hide Quiet, SoundExecutions, SoundPool;
    assert SoundPool(s') by { SamePool(s, s'); }
    QuietLeases(s, s');
  }

  lemma SamePool(s: State, s': State)
    requires SoundPool(s) && s'.pool == s.pool && s'.workers == s.workers && s'.runningTasks == s.runningTasks
    ensures SoundPool(s')
  {
  }

  lemma QuietExecutions(s: State, s': State)
    requires SoundExecutions(s) && Quiet(s.tasks, s'.tasks) && s'.pool == s.pool && s'.workers == s.workers
    ensures SoundExecutions(s')
  {
  }

  /** The claiming tasks stay the same, with the same leases. */
  lemma QuietClaims(s: State, s': State)
    requires SoundExecutions(s) && Quiet(s.tasks, s'.tasks)
    ensures SameClaims(s.tasks, s'.tasks, s.workers, s.workers)
  {
  }

  ghost predicate SameClaims(tasks: map<TaskId, Task>, tasks': map<TaskId, Task>, workers: seq<WorkerRow>,
                             workers': seq<WorkerRow>) {
    && (forall id | Claimed(tasks, workers, id) :: Claimed(tasks', workers', id))
    && (forall id | Claimed(tasks', workers', id) ::
          && Claimed(tasks, workers, id)
          && tasks'[id].worker == tasks[id].worker && tasks'[id].started == tasks[id].started
          && tasks'[id].resources == tasks[id].resources)
  }

  lemma QuietLeases(s: State, s': State)
    requires SoundLocks(s.tasks, s.workers, s.locks, s.nextLock) && SoundLeases(s.now, s.tasks, s.workers, s.locks)
    requires SameClaims(s.tasks, s'.tasks, s.workers, s'.workers)
    requires s'.locks == s.locks && s'.nextLock == s.nextLock && s'.now >= s.now
    ensures SoundLocks(s'.tasks, s'.workers, s'.locks, s'.nextLock)
    ensures SoundLeases(s'.now, s'.tasks, s'.workers, s'.locks)
  {
    forall id | Claimed(s'.tasks, s'.workers, id) ensures LeaseKept(s'.now, s'.locks, id, s'.tasks[id]) {
      assert LeaseKept(s.now, s.locks, id, s.tasks[id]);
    }
  }

  // ---------------------------------------------------------------------------------------------
  // Acquiring locks

  /** Can every one of these resources be locked now? An unexpired row or a repeated entry stands in the way. */
  ghost predicate Acquirable(locks: map<nat, Lock>, now: Time, resources: seq<ResourceId>) {
    && NoDup(resources)
    && forall k | k in locks && locks[k].resource in resources :: locks[k].expires < now
  }

  ghost predicate UniqueRows(locks: map<nat, Lock>, nextLock: nat) {
    && (forall k | k in locks :: k < nextLock)
    && (forall k, k' | k in locks && k' in locks && locks[k].resource == locks[k'].resource :: k == k')
  }

  lemma AcquirableStep(locks: map<nat, Lock>, now: Time, r: ResourceId, rest: seq<ResourceId>, key: nat, lock: Lock)
    requires key !in locks && lock.resource == r && lock.expires >= now
    requires !IsLocked(PurgeExpired(locks, now), r)
    ensures Acquirable(locks, now, [r] + rest) <==> Acquirable(PurgeExpired(locks, now)[key := lock], now, rest)
  {
    var purged := PurgeExpired(locks, now);
    var locks' := purged[key := lock];
    if Acquirable(locks, now, [r] + rest) {
      assert ([r] + rest)[0] == r;
      assert forall i | 0 <= i < |rest| :: rest[i] == ([r] + rest)[i + 1] && rest[i] != r;
    }
    if Acquirable(locks', now, rest) {
      assert locks'[key].resource !in rest;
      assert forall k | k in locks && locks[k].expires >= now ::
               k in locks' && locks'[k] == locks[k] && locks[k].resource != r;
    }
  }

  /** Rows of others survive unless expired; new rows are the task's own leases; a failed task keeps no row. */
  ghost predicate AcquireEffect(s: State, ok: bool, s': State, id: TaskId, resources: seq<ResourceId>,
                                worker: WorkerId) {
    && UniqueRows(s'.locks, s'.nextLock)
    && s.nextLock <= s'.nextLock
    && (forall k | k in s'.locks ::
          if k < s.nextLock then k in s.locks && s'.locks[k] == s.locks[k]
          else
            && ok && s'.locks[k].resource in resources
            && s'.locks[k] == Lock(s'.locks[k].resource, id, worker, s.now + LOCK_DURATION))
    && (forall k | k in s.locks && k !in s'.locks :: s.locks[k].expires < s.now || (!ok && s.locks[k].task == id))
    && (!ok ==> forall k | k in s'.locks :: s'.locks[k].task != id)
  }

  ghost predicate AcquireSpec(s: State, ok: bool, s': State, id: TaskId, resources: seq<ResourceId>, worker: WorkerId) {
    && ok == Acquirable(s.locks, s.now, resources)
    && AcquireEffect(s, ok, s', id, resources, worker)
    && (ok ==> forall r | r in resources :: HasLock(s'.locks, Lock(r, id, worker, s.now + LOCK_DURATION)))
  }

  lemma AcquireBlocked(s: State, id: TaskId, resources: seq<ResourceId>, worker: WorkerId)
    requires UniqueRows(s.locks, s.nextLock) && resources != []
    requires IsLocked(PurgeExpired(s.locks, s.now), resources[0])
    ensures AcquireSpec(s, false, s.(locks := ReleaseLocks(PurgeExpired(s.locks, s.now), id)), id, resources, worker)
  {
    var locks := PurgeExpired(s.locks, s.now);
    var k :| k in locks && locks[k].resource == resources[0];
    assert k in s.locks && s.locks[k].resource in resources && !(s.locks[k].expires < s.now);
  }

  lemma AcquireInserts(s: State, s1: State, ok: bool, s': State, id: TaskId, r: ResourceId, rest: seq<ResourceId>,
                       worker: WorkerId)
    requires UniqueRows(s.locks, s.nextLock) && !IsLocked(PurgeExpired(s.locks, s.now), r)
    requires var lock := Lock(r, id, worker, s.now + LOCK_DURATION);
             s1 == s.(locks := PurgeExpired(s.locks, s.now)[s.nextLock := lock], nextLock := s.nextLock + 1)
    requires AcquireSpec(s1, ok, s', id, rest, worker)
    ensures AcquireSpec(s, ok, s', id, [r] + rest, worker)
  {
    var lock := Lock(r, id, worker, s.now + LOCK_DURATION);
    AcquirableStep(s.locks, s.now, r, rest, s.nextLock, lock);
    assert s.nextLock in s1.locks;
    assert ok ==> s.nextLock in s'.locks && s'.locks[s.nextLock] == lock;
    hide Acquirable;
  }

  lemma AcquireNothing(s: State, id: TaskId, worker: WorkerId)
    requires UniqueRows(s.locks, s.nextLock)
    ensures AcquireSpec(s, true, s, id, [], worker)
  {
  }

  /** Acquisition is all or nothing: it succeeds exactly when every resource is free, and then the task owns a row
      for each of them; when it fails the task is left with no row. */
  lemma {:induction false} AcquireExact(s: State, id: TaskId, resources: seq<ResourceId>, worker: WorkerId)
    requires UniqueRows(s.locks, s.nextLock)
    ensures AcquireSpec(s, AcquireLocks(s, id, resources, worker).0, AcquireLocks(s, id, resources, worker).1,
                        id, resources, worker)
    decreases |resources|
  {
    var locks := PurgeExpired(s.locks, s.now);
    if resources == [] {
      AcquireNothing(s, id, worker);
    } else if IsLocked(locks, resources[0]) {
      AcquireBlocked(s, id, resources, worker);
    } else {
      var r, rest := resources[0], resources[1..];
      var s1 := s.(locks := locks[s.nextLock := Lock(r, id, worker, s.now + LOCK_DURATION)],
                   nextLock := s.nextLock + 1);
      InsertUnique(s.locks, s.now, s.nextLock, Lock(r, id, worker, s.now + LOCK_DURATION));
      hide AcquireSpec, UniqueRows, PurgeExpired, IsLocked;
      AcquireExact(s1, id, rest, worker);
      var a := AcquireLocks(s1, id, rest, worker);
      AcquireInserts(s, s1, a.0, a.1, id, r, rest, worker);
      assert [r] + rest == resources;
    }
  }

  lemma InsertUnique(locks: map<nat, Lock>, now: Time, key: nat, lock: Lock)
    requires UniqueRows(locks, key) && !IsLocked(PurgeExpired(locks, now), lock.resource)
    ensures UniqueRows(PurgeExpired(locks, now)[key := lock], key + 1)
  {
  }

  // ---------------------------------------------------------------------------------------------
  // Starting a task

  lemma LocksUnique(s: State)
    requires SoundLocks(s.tasks, s.workers, s.locks, s.nextLock)
    ensures UniqueRows(s.locks, s.nextLock)
  {
  }

  lemma BusySnoc(pool: seq<PoolWorker>, w: PoolWorker)
    ensures BusyCount(pool + [w]) == BusyCount(pool) + if w.currentTask.Some? then 1 else 0
  {
    assert (pool + [w])[..|pool|] == pool;
  }

  lemma {:induction false} BusyUpdate(pool: seq<PoolWorker>, i: nat, w: PoolWorker)
    requires i < |pool|
    ensures BusyCount(pool[i := w]) == BusyCount(pool) + (if w.currentTask.Some? then 1 else 0)
                                       - (if pool[i].currentTask.Some? then 1 else 0)
  {
    var n := |pool| - 1;
    if i == n {
      assert pool[i := w][..n] == pool[..n];
    } else {
      BusyUpdate(pool[..n], i, w);
      assert pool[i := w][..n] == pool[..n][i := w];
    }
  }

  /** A lease survives when the unexpired rows it rests on do. */
  lemma KeptRows(now: Time, locks: map<nat, Lock>, locks': map<nat, Lock>, id: TaskId, t: Task)
    requires LeaseKept(now, locks, id, t)
    requires forall k | k in locks && locks[k].task == id && !(locks[k].expires < now)
                        && t.worker == Some(locks[k].worker) :: k in locks' && locks'[k] == locks[k]
    ensures LeaseKept(now, locks', id, t)
  {
    if !(t.started.value + LOCK_DURATION < now) {
      forall r | r in t.resources ensures HasLock(locks', LeaseRow(t, id, r)) {
        var k :| k in locks && locks[k] == LeaseRow(t, id, r);
        assert k in locks' && locks'[k] == locks[k];
      }
    }
  }

  /** The locks a failed attempt leaves still satisfy the lock and lease invariants. */
  lemma LocksShrink(s: State, locks: map<nat, Lock>, nextLock: nat)
    requires SoundServer(s) && nextLock >= s.nextLock
    requires forall k | k in locks :: k in s.locks && locks[k] == s.locks[k]
    requires forall k | k in s.locks && k !in locks :: s.locks[k].expires < s.now
    ensures SoundServer(s.(locks := locks, nextLock := nextLock))
  {
    var s' := s.(locks := locks, nextLock := nextLock);
    assert SoundPool(s') && SoundExecutions(s');
    hide SoundPool, SoundExecutions;
    assert SoundLocks(s'.tasks, s'.workers, locks, nextLock);
    forall id | Claimed(s'.tasks, s'.workers, id) ensures LeaseKept(s'.now, locks, id, s'.tasks[id]) {
      KeptRows(s.now, s.locks, locks, id, s.tasks[id]);
    }
  }

  /** The state after a successful start on the worker at `i`. */
  function Started(s: State, s1: State, i: nat, id: TaskId): State
    requires i < |s.pool| && id in s.tasks
  {
    var w := s.pool[i];
    s1.(tasks := s.tasks[id := s.tasks[id].(status := Running, started := Some(s.now), worker := Some(w.id))],
        pool := s.pool[i := w.(currentTask := Some(id))], runningTasks := s.runningTasks + 1)
  }

  ghost predicate CanStart(s: State, s1: State, i: nat, id: TaskId) {
    && SoundServer(s) && s1 == s.(locks := s1.locks, nextLock := s1.nextLock)
    && i < |s.pool| && s.pool[i].currentTask.None? && id in s.tasks && s.tasks[id].status == Scheduled
    && AcquireSpec(s, true, s1, id, s.tasks[id].resources, s.pool[i].id)
  }

  lemma StartKeepsSound(s: State, s1: State, i: nat, id: TaskId)
    requires CanStart(s, s1, i, id)
    ensures SoundServer(Started(s, s1, i, id))
  {
    StartKeepsPool(s, s1, i, id);
    StartKeepsExecutions(s, s1, i, id);
    StartKeepsLocks(s, s1, i, id);
    var s' := Started(s, s1, i, id);
    forall x | Claimed(s'.tasks, s'.workers, x) ensures LeaseKept(s'.now, s'.locks, x, s'.tasks[x]) {
      StartKeepsLease(s, s1, i, id, x);
    }
    hide SoundPool, SoundExecutions, SoundLocks, CanStart, Started, LeaseKept;
  }

  lemma StartKeepsPool(s: State, s1: State, i: nat, id: TaskId)
    requires SoundPool(s) && s1 == s.(locks := s1.locks, nextLock := s1.nextLock)
    requires i < |s.pool| && s.pool[i].currentTask.None? && id in s.tasks
    ensures SoundPool(Started(s, s1, i, id))
  {
    BusyUpdate(s.pool, i, Started(s, s1, i, id).pool[i]);
  }

  lemma StartKeepsExecutions(s: State, s1: State, i: nat, id: TaskId)
    requires SoundPool(s) && SoundExecutions(s) && s1 == s.(locks := s1.locks, nextLock := s1.nextLock)
    requires i < |s.pool| && s.pool[i].currentTask.None? && id in s.tasks && s.tasks[id].status == Scheduled
    ensures SoundExecutions(Started(s, s1, i, id))
  {
  }

  lemma StartKeepsLocks(s: State, s1: State, i: nat, id: TaskId)
    requires CanStart(s, s1, i, id)
    ensures var s' := Started(s, s1, i, id); SoundLocks(s'.tasks, s'.workers, s'.locks, s'.nextLock)
  {
    hide Acquirable, SoundLeases;
  }

  lemma StartKeepsLease(s: State, s1: State, i: nat, id: TaskId, x: TaskId)
    requires CanStart(s, s1, i, id)
    requires var s' := Started(s, s1, i, id); Claimed(s'.tasks, s'.workers, x)
    ensures LeaseKept(s.now, s1.locks, x, Started(s, s1, i, id).tasks[x])
  {
    if x != id {
      assert Claimed(s.tasks, s.workers, x);
      KeptRows(s.now, s.locks, s1.locks, x, s.tasks[x]);
    }
  }

  lemma FailedAcquireKeepsSound(s: State, s1: State, id: TaskId, w: WorkerId)
    requires SoundServer(s) && id in s.tasks && s.tasks[id].status == Scheduled
    requires s1 == s.(locks := s1.locks, nextLock := s1.nextLock)
    requires AcquireSpec(s, false, s1, id, s.tasks[id].resources, w)
    ensures SoundServer(s1)
  {
    ScheduledHasNoRows(s, id);
    hide SoundServer;
    LocksShrink(s, s1.locks, s1.nextLock);
  }

  lemma ScheduledHasNoRows(s: State, id: TaskId)
    requires SoundServer(s) && id in s.tasks && s.tasks[id].status == Scheduled
    ensures forall k | k in s.locks :: s.locks[k].task != id
  {
  }

  /** `assignTask` on a scheduled task and a free pool worker. */
  lemma AssignKeepsSound(s: State, w: WorkerId, id: TaskId)
    requires SoundServer(s) && id in s.tasks && s.tasks[id].status == Scheduled
    requires forall i | 0 <= i < |s.pool| && s.pool[i].id == w :: s.pool[i].currentTask.None?
    ensures SoundServer(AssignTask(s, w, id).1)
  {
    var i := FindWorker(s.pool, w);
    if i.Some? {
      var resources := s.tasks[id].resources;
      LocksUnique(s);
      hide SoundServer, UniqueRows, AcquireSpec;
      AcquireKeepsTasks(s, id, resources, w);
      AcquireExact(s, id, resources, w);
      var a := AcquireLocks(s, id, resources, w);
      if a.0 {
        StartKeepsSound(s, a.1, i.value, id);
        assert s.pool[i.value].active ==> AssignTask(s, w, id).1 == Started(s, a.1, i.value, id);
      } else {
        FailedAcquireKeepsSound(s, a.1, id, w);
      }
    }
  }

  // ---------------------------------------------------------------------------------------------
  // Finishing, recovering, restarting

  /** Freeing the worker of a task that is no longer running. */
  lemma FreeWorker(s: State, i: nat, locks: map<nat, Lock>, tasks: map<TaskId, Task>)
    requires SoundServer(s) && i < |s.pool| && s.pool[i].currentTask.Some?
    requires Ended(s, s.pool[i].currentTask.value, locks, tasks)
    ensures SoundServer(s.(tasks := tasks, locks := locks, pool := s.pool[i := s.pool[i].(currentTask := None)],
                           runningTasks := s.runningTasks - 1))
  {
    var s' := s.(tasks := tasks, locks := locks, pool := s.pool[i := s.pool[i].(currentTask := None)],
                 runningTasks := s.runningTasks - 1);
    assert SoundPool(s') by { BusyUpdate(s.pool, i, s'.pool[i]); }
    assert SoundExecutions(s') by { FreeExecutions(s, i, s'); }
    EndedLocks(s, s.pool[i].currentTask.value, locks, tasks);
    hide SoundPool, SoundExecutions, SoundLocks, SoundLeases;
  }

  /** The task was cancelled and nothing happens, or it ended and its rows are gone. */
  ghost predicate Ended(s: State, id: TaskId, locks: map<nat, Lock>, tasks: map<TaskId, Task>) {
    && id in s.tasks && tasks.Keys == s.tasks.Keys && (forall x | x in s.tasks && x != id :: tasks[x] == s.tasks[x])
    && if s.tasks[id].status == Cancelled then tasks == s.tasks && locks == s.locks
       else
         && (tasks[id].status == Completed || tasks[id].status == Failed) && tasks[id].worker == s.tasks[id].worker
         && locks == ReleaseLocks(s.locks, id)
  }

  lemma EndedLocks(s: State, id: TaskId, locks: map<nat, Lock>, tasks: map<TaskId, Task>)
    requires SoundLocks(s.tasks, s.workers, s.locks, s.nextLock) && SoundLeases(s.now, s.tasks, s.workers, s.locks)
    requires Ended(s, id, locks, tasks)
    ensures SoundLocks(tasks, s.workers, locks, s.nextLock) && SoundLeases(s.now, tasks, s.workers, locks)
  {
    forall x | Claimed(tasks, s.workers, x) ensures LeaseKept(s.now, locks, x, tasks[x]) {
      assert Claimed(s.tasks, s.workers, x) && tasks[x] == s.tasks[x];
      KeptRows(s.now, s.locks, locks, x, s.tasks[x]);
    }
  }

  lemma FreeExecutions(s: State, i: nat, s': State)
    requires SoundPool(s) && SoundExecutions(s) && i < |s.pool| && s.pool[i].currentTask.Some?
    requires s'.pool == s.pool[i := s.pool[i].(currentTask := None)] && s'.workers == s.workers
    requires Ended(s, s.pool[i].currentTask.value, s'.locks, s'.tasks)
    ensures SoundExecutions(s')
  {
    var id := s.pool[i].currentTask.value;
    forall j | 0 <= j < |s'.pool| && s'.pool[j].currentTask.Some?
      ensures s'.pool[j].currentTask.value in s'.tasks && HeldBy(s'.tasks[s'.pool[j].currentTask.value], s'.pool[j].id)
    {
      assert s.pool[j].id != s.pool[i].id;
      assert s.pool[j].currentTask.value != id;
    }
  }

  lemma FinishKeepsSound(s: State, i: nat, ok: bool)
    requires SoundServer(s) && i < |s.pool| && s.pool[i].currentTask.Some?
    ensures SoundServer(Finish(s, i, ok))
  {
    var id := s.pool[i].currentTask.value;
    assert HeldBy(s.tasks[id], s.pool[i].id);
    var moved := TransitionTo(s, id, if ok then Completed else Failed, None);
    var s1 := if moved.Some? then moved.value else s;
    assert Ended(s, id, s1.locks, s1.tasks);
    hide SoundServer, Ended;
    FreeWorker(s, i, s1.locks, s1.tasks);
  }

  lemma RecoverKeepsSound(s: State, w: WorkerId)
    requires SoundServer(s) && w < |s.workers| && forall p | p in s.pool :: p.id != w
    ensures SoundServer(RecoverTasks(s, w)) && RecoverWorker(s, w) == RecoverTasks(s, w)
  {
    var s' := RecoverTasks(s, w);
    forall i | 0 <= i < |s.pool| ensures s.pool[i].id != w { assert s.pool[i] in s.pool; }
    assert SoundPool(s') && SoundExecutions(s');
    RecoveredLocks(s, w);
    hide SoundPool, SoundExecutions, SoundLocks, SoundLeases;
  }

  lemma RecoveredLocks(s: State, w: WorkerId)
    requires w < |s.workers| && SoundLocks(s.tasks, s.workers, s.locks, s.nextLock)
    requires SoundLeases(s.now, s.tasks, s.workers, s.locks)
    ensures var s' := RecoverTasks(s, w);
            && SoundLocks(s'.tasks, s'.workers, s'.locks, s'.nextLock)
            && SoundLeases(s'.now, s'.tasks, s'.workers, s'.locks)
  {
    var s' := RecoverTasks(s, w);
    forall x | Claimed(s'.tasks, s'.workers, x) ensures LeaseKept(s'.now, s'.locks, x, s'.tasks[x]) {
      assert Claimed(s.tasks, s.workers, x) && s.tasks[x].worker != Some(w);
      KeptRows(s.now, s.locks, s'.locks, x, s.tasks[x]);
    }
  }

  lemma {:induction false} RecoverAllKeepsSound(s: State, dead: seq<WorkerId>)
    requires SoundServer(s) && forall i | 0 <= i < |dead| :: dead[i] < |s.workers|
    requires forall p | p in s.pool :: p.id !in dead
    ensures SoundServer(RecoverWorkers(s, dead))
    ensures RecoverWorkers(s, dead).pool == s.pool
    ensures forall id | InFlight(s, id) :: RecoverWorkers(s, dead).tasks[id] == s.tasks[id]
    decreases |dead|
  {
    if dead != [] {
      assert dead[0] in dead;
      RecoverKeepsSound(s, dead[0]);
      var s1 := RecoverWorker(s, dead[0]);
      assert forall x | x in dead[1..] :: x in dead;
      RecoverAllKeepsSound(s1, dead[1..]);
      forall id | InFlight(s, id) ensures RecoverWorkers(s, dead).tasks[id] == s.tasks[id] {
        assert InFlight(s1, id);
        InFlightSpared(s, dead[0], id);
      }
    }
  }

  lemma InFlightSpared(s: State, w: WorkerId, id: TaskId)
    requires SoundServer(s) && w < |s.workers| && (forall p | p in s.pool :: p.id != w) && InFlight(s, id)
    ensures RecoverTasks(s, w).tasks[id] == s.tasks[id]
  {
    var i :| 0 <= i < |s.pool| && s.pool[i].currentTask == Some(id);
    assert s.pool[i] in s.pool;
  }

  lemma HeartbeatKeepsSound(s: State)
    requires SoundServer(s)
    ensures SoundServer(HeartbeatAll(s)) && HeartbeatAll(s) == s.(workers := HeartbeatAll(s).workers)
    ensures forall p | p in s.pool :: p.id !in DeadWorkers(HeartbeatAll(s), |s.workers|)
  {
    var s1 := HeartbeatAll(s);
    HeartbeatKeepsActive(s);
    forall p | p in s.pool ensures p.id !in DeadWorkers(s1, |s.workers|) {
      assert s1.workers[p.id] == WorkerRow(s.now, true);
    }
    hide HeartbeatAll;
    assert SoundPool(s1) && SoundExecutions(s1);
    assert SameClaims(s.tasks, s1.tasks, s.workers, s1.workers);
    hide SoundPool, SoundExecutions, SameClaims;
    QuietLeases(s, s1);
  }

  lemma HeartbeatKeepsActive(s: State)
    requires SoundPool(s)
    ensures HeartbeatAll(s) == s.(workers := HeartbeatAll(s).workers)
    ensures forall w | 0 <= w < |s.workers| :: HeartbeatAll(s).workers[w].active == s.workers[w].active
  {
  }

  /** A heartbeat tick never finds a pool worker dead, so it spares the pool and every task in flight. */
  lemma TickSparesPool(s: State)
    requires SoundServer(s)
    ensures SoundServer(HeartbeatTick(s))
    ensures HeartbeatTick(s).pool == s.pool
    ensures forall id | InFlight(s, id) :: HeartbeatTick(s).tasks[id] == s.tasks[id]
  {
    HeartbeatKeepsSound(s);
    var s1 := HeartbeatAll(s);
    RecoverAllKeepsSound(s1, DeadWorkers(s1, |s1.workers|));
    forall id | InFlight(s, id) ensures HeartbeatTick(s).tasks[id] == s.tasks[id] {
      assert InFlight(s1, id);
    }
  }

  lemma {:induction false} SpawnKeepsSound(s: State, n: nat)
    requires SoundServer(s)
    ensures SoundServer(SpawnWorkers(s, n))
    decreases n
  {
    if n > 0 {
      SpawnOneKeepsSound(s);
      SpawnKeepsSound(SpawnWorker(s), n - 1);
    }
  }

  lemma SpawnOneKeepsSound(s: State)
    requires SoundServer(s)
    ensures SoundServer(SpawnWorker(s))
  {
    SpawnKeepsPool(s);
    SpawnKeepsExecutions(s);
    SpawnKeepsLocks(s);
    hide SoundPool, SoundExecutions, SoundLocks, SoundLeases;
  }

  lemma SpawnKeepsPool(s: State)
    requires SoundPool(s)
    ensures SoundPool(SpawnWorker(s))
  {
    BusySnoc(s.pool, PoolWorker(|s.workers|, true, None));
  }

  lemma SpawnKeepsExecutions(s: State)
    requires SoundPool(s) && SoundExecutions(s)
    ensures SoundExecutions(SpawnWorker(s))
  {
  }

  /** No task names a worker that has no row yet, so a new row changes no claim. */
  lemma SpawnKeepsLocks(s: State)
    requires SoundServer(s)
    ensures var s' := SpawnWorker(s);
            && SoundLocks(s'.tasks, s'.workers, s'.locks, s'.nextLock)
            && SoundLeases(s'.now, s'.tasks, s'.workers, s'.locks)
  {
    hide SoundPool;
    QuietLeases(s, SpawnWorker(s));
  }

  lemma CrashKeepsSound(s: State)
    requires SoundServer(s)
    ensures SoundServer(Restart(s))
  {
    SpawnKeepsSound(s.(pool := [], runningTasks := 0, notifications := []), s.maxConcurrency);
  }
}
