/** Safety of every run of the task queue, and what one poll does. */
module TaskQueueSafety {
  import opened Prelude
  import opened TaskQueue
  import opened TaskQueueRuns
  import opened TaskQueuePool
  import opened TaskQueueTables

  lemma SubmitQuiet(s: State, item: Item)
    ensures Quiet(s.tasks, OrUnchanged(Enqueue(s, item), s).tasks)
  {
  }

  lemma BatchQuiet(s: State, items: seq<Item>)
    ensures var s' := OrUnchanged(BatchEnqueue(s, items), s); Quiet(s.tasks, s'.tasks) && s' == s.(tasks := s'.tasks)
  {
    InsertMoves(s, items);
  }

  lemma DrainQuiet(s: State)
    ensures var s' := ProcessNotifications(s);
            Quiet(s.tasks, s'.tasks) && s' == s.(tasks := s'.tasks, notifications := s'.notifications)
  {
    DrainInOnePass(s);
  }

  lemma CancelQuiet(s: State, id: TaskId)
    ensures var s' := OrSame(CancelTask(s, id), s); Quiet(s.tasks, s'.tasks) && s' == s.(tasks := s'.tasks)
  {
  }

  /** Every step of the server keeps the pool, the executions, the locks and the leases sound. */
  lemma StepKeepsServer(s: State, step: Step)
    requires SoundServer(s)
    ensures SoundServer(Apply(s, step))
  {
    match step
    case Start(id) =>
      var w := AvailableWorker(s.pool);
      if id in s.tasks && s.tasks[id].status == Scheduled && w.Some? {
        FreeWorkerIsFree(s, w.value);
        AssignKeepsSound(s, w.value, id);
      }
    case FinishAt(i, ok) =>
      if i < |s.pool| && s.pool[i].currentTask.Some? { FinishKeepsSound(s, i, ok); }
    case Heartbeat => TickSparesPool(s);
    case Crash => CrashKeepsSound(s);
    case _ =>
      QuietApply(s, step);
      QuietStep(s, Apply(s, step));
  }

  lemma FreeWorkerIsFree(s: State, w: WorkerId)
    requires SoundPool(s) && AvailableWorker(s.pool) == Some(w)
    ensures forall i | 0 <= i < |s.pool| && s.pool[i].id == w :: s.pool[i].currentTask.None?
    ensures FindWorker(s.pool, w).Some? && s.pool[FindWorker(s.pool, w).value].active
  {
  }

  lemma QuietApply(s: State, step: Step)
    requires !step.Start? && !step.FinishAt? && !step.Heartbeat? && !step.Crash?
    ensures var s' := Apply(s, step);
            && Quiet(s.tasks, s'.tasks) && s'.now >= s.now
            && s' == s.(now := s'.now, tasks := s'.tasks, notifications := s'.notifications)
  {
    match step
    case SubmitOne(item) => SubmitQuiet(s, item);
    case SubmitMany(items) => BatchQuiet(s, items);
    case DrainNotifications => DrainQuiet(s);
    case Cancel(id) => CancelQuiet(s, id);
    case _ =>
  }

  /** Every reachable state is sound. */
  lemma {:induction false} ReachableServers(now: Time, maxConcurrency: nat, steps: seq<Step>)
    ensures SoundServer(Exec(Init(now, maxConcurrency), steps))
  {
    if steps == [] {
      SpawnKeepsSound(State(now, map[], map[], 0, [], [], 0, maxConcurrency, []), maxConcurrency);
    } else {
      ReachableServers(now, maxConcurrency, steps[..|steps| - 1]);
      StepKeepsServer(Exec(Init(now, maxConcurrency), steps[..|steps| - 1]), steps[|steps| - 1]);
    }
  }

  /** Everything that is known of a reachable state. */
  ghost predicate Sound(s: State) {
    SoundTable(s.tasks) && SoundServer(s)
  }

  lemma StepKeepsSound(s: State, step: Step)
    ensures Sound(s) ==> Sound(Apply(s, step))
  {
    if Sound(s) {
      StepKeepsTable(s, step);
      StepKeepsServer(s, step);
    }
    hide SoundTable, SoundServer, Apply;
  }

  lemma {:induction false} RunKeepsSound(s: State, steps: seq<Step>)
    ensures Sound(s) ==> Sound(Exec(s, steps))
  {
    if steps != [] {
      RunKeepsSound(s, steps[..|steps| - 1]);
      StepKeepsSound(Exec(s, steps[..|steps| - 1]), steps[|steps| - 1]);
    }
    hide Sound, Apply;
  }

  lemma FreshIsSound(now: Time, maxConcurrency: nat)
    ensures Sound(Init(now, maxConcurrency))
  {
    ReachableTables(now, maxConcurrency, []);
    ReachableServers(now, maxConcurrency, []);
    hide SoundTable, SoundServer, Init;
  }

  /** In every run at most one execution of a task is in flight, and its row says running under that worker's id
      unless the task was cancelled meanwhile; so it is never scheduled again while it executes. */
  lemma SingleFlight(now: Time, maxConcurrency: nat, steps: seq<Step>, i: nat, j: nat)
    requires var s := Exec(Init(now, maxConcurrency), steps);
             i < |s.pool| && j < |s.pool| && s.pool[i].currentTask.Some?
    ensures var s := Exec(Init(now, maxConcurrency), steps);
            && (s.pool[i].currentTask == s.pool[j].currentTask ==> i == j)
            && s.pool[i].currentTask.value in s.tasks && HeldBy(s.tasks[s.pool[i].currentTask.value], s.pool[i].id)
  {
    ReachableServers(now, maxConcurrency, steps);
  }

  predicate WithinLease(now: Time, t: Task) {
    t.started.Some? && now <= t.started.value + 120000
  }

  /** In every run two tasks that execute, or whose rows say running, within their lease windows share no resource. */
  lemma ExclusiveResources(now: Time, maxConcurrency: nat, steps: seq<Step>, a: TaskId, b: TaskId, r: ResourceId)
    requires var s := Exec(Init(now, maxConcurrency), steps);
             && a != b && Holding(s, a) && Holding(s, b)
             && r in s.tasks[a].resources && r in s.tasks[b].resources
    ensures var s := Exec(Init(now, maxConcurrency), steps);
            !(WithinLease(s.now, s.tasks[a]) && WithinLease(s.now, s.tasks[b]))
  {
    ReachableServers(now, maxConcurrency, steps);
    HoldingClaims(Exec(Init(now, maxConcurrency), steps), a);
    HoldingClaims(Exec(Init(now, maxConcurrency), steps), b);
  }

  // ---------------------------------------------------------------------------------------------
  // One poll

  function Starts(fetched: seq<TaskId>): seq<Step> {
    seq(|fetched|, i requires 0 <= i < |fetched| => Start(fetched[i]))
  }

  lemma {:induction false} ExecCons(s: State, step: Step, rest: seq<Step>)
    ensures Exec(s, [step] + rest) == Exec(Apply(s, step), rest)
    decreases |rest|
  {
    var all := [step] + rest;
    if rest == [] {
      assert all[..|all| - 1] == [];
    } else {
      assert all[..|all| - 1] == [step] + rest[..|rest| - 1];
      ExecCons(s, step, rest[..|rest| - 1]);
    }
  }

  /** Unexpired rows survive. */
  ghost predicate RowsKept(s: State, s': State) {
    s'.now == s.now
    && forall k | k in s.locks && !(s.locks[k].expires < s.now) :: k in s'.locks && s'.locks[k] == s.locks[k]
  }

  function StartedRow(t: Task, now: Time, worker: Option<WorkerId>): Task {
    t.(status := Running, started := Some(now), worker := worker)
  }

  /** What one assignment of a scheduled task does. */
  ghost predicate AssignEffect(s: State, id: TaskId, ok: bool, s': State) {
    && ok == (id in s.tasks && Acquirable(s.locks, s.now, s.tasks[id].resources))
    && s.tasks.Keys <= s'.tasks.Keys
    && (if ok then s'.tasks[id] == StartedRow(s.tasks[id], s.now, s'.tasks[id].worker) else s'.tasks == s.tasks)
    && (forall x | x in s.tasks && x != id :: s'.tasks[x] == s.tasks[x])
    && RowsKept(s, s')
  }

  lemma AssignHasEffect(s: State, w: WorkerId, id: TaskId)
    requires UniqueRows(s.locks, s.nextLock) && forall k | k in s.locks :: s.locks[k].task != id
    requires AvailableWorker(s.pool) == Some(w) && FindWorker(s.pool, w).Some?
             && s.pool[FindWorker(s.pool, w).value].active
    requires id in s.tasks && s.tasks[id].status == Scheduled
    ensures AssignEffect(s, id, AssignTask(s, w, id).0, AssignTask(s, w, id).1)
  {
    var resources := s.tasks[id].resources;
    AcquireKeepsTasks(s, id, resources, w);
    AcquireExact(s, id, resources, w);
    hide Acquirable, UniqueRows;
  }

  lemma AssignOutcome(s: State, w: WorkerId, id: TaskId)
    requires SoundServer(s) && AvailableWorker(s.pool) == Some(w)
    requires id in s.tasks && s.tasks[id].status == Scheduled
    ensures AssignEffect(s, id, AssignTask(s, w, id).0, AssignTask(s, w, id).1)
    ensures SoundServer(AssignTask(s, w, id).1)
  {
    FreeWorkerIsFree(s, w);
    AssignKeepsSound(s, w, id);
    LocksUnique(s);
    ScheduledHasNoRows(s, id);
    hide AssignTask, AssignEffect, UniqueRows;
    AssignHasEffect(s, w, id);
  }

  ghost predicate AllScheduled(tasks: map<TaskId, Task>, ids: seq<TaskId>) {
    NoDup(ids) && forall id | id in ids :: id in tasks && tasks[id].status == Scheduled
  }

  /** One turn of the assignment loop is one `Start`; while tasks are left, they are scheduled. */
  lemma AssignTurn(s: State, id: TaskId, rest: seq<TaskId>) returns (s1: State)
    requires SoundServer(s) && AllScheduled(s.tasks, [id] + rest)
    ensures s1 == Apply(s, Start(id)) && SoundServer(s1) && AllScheduled(s1.tasks, rest)
    ensures AssignAll(s, [id] + rest).0 == AssignAll(s1, rest).0
  {
    assert ([id] + rest)[0] == id && ([id] + rest)[1..] == rest;
    s1 := Apply(s, Start(id));
    var w := AvailableWorker(s.pool);
    if w.None? {
      assert AssignAll(s, rest).0 == s;
      RestScheduled(s.tasks, s.tasks, id, rest);
    } else {
      AssignOutcome(s, w.value, id);
      RestScheduled(s.tasks, s1.tasks, id, rest);
    }
  }

  /** A poll is a run: draining, promoting, then one `Start` per fetched task. */
  lemma {:induction false} AssignAllIsARun(s: State, fetched: seq<TaskId>)
    requires SoundServer(s) && AllScheduled(s.tasks, fetched)
    ensures AssignAll(s, fetched).0 == Exec(s, Starts(fetched))
    decreases |fetched|
  {
    if fetched != [] {
      var id, rest := fetched[0], fetched[1..];
      assert Starts(fetched) == [Start(id)] + Starts(rest);
      ExecCons(s, Start(id), Starts(rest));
      hide *;
      assert [id] + rest == fetched;
      var s1 := AssignTurn(s, id, rest);
      AssignAllIsARun(s1, rest);
    } else {
      assert Starts(fetched) == [];
    }
  }

  ghost predicate Subsequence(a: seq<TaskId>, b: seq<TaskId>) {
    if a == [] then true
    else if b == [] then false
    else if a[0] == b[0] then Subsequence(a[1..], b[1..])
    else Subsequence(a, b[1..])
  }

  /** A resource the task needs is locked by an unexpired row, or its list names a resource twice. */
  ghost predicate Blocked(s: State, id: TaskId) {
    id in s.tasks && !Acquirable(s.locks, s.now, s.tasks[id].resources)
  }

  /** `started` is a subsequence of `fetched` and exactly those tasks now run, and unless the pool is exhausted every
      other fetched task is blocked by the locks held afterwards. */
  ghost predicate Assigned(s: State, fetched: seq<TaskId>, s': State, started: seq<TaskId>) {
    && Subsequence(started, fetched)
    && s.tasks.Keys <= s'.tasks.Keys
    && (forall id | id in fetched && id in s.tasks ::
          s'.tasks[id].status == if id in started then Running else Scheduled)
    && (forall x | x in s.tasks && x !in started :: s'.tasks[x] == s.tasks[x])
    && RowsKept(s, s')
    && (AvailableWorker(s'.pool).None? || forall id | id in fetched && id !in started :: Blocked(s', id))
  }

  lemma {:induction false} SubsequenceElements(a: seq<TaskId>, b: seq<TaskId>)
    requires Subsequence(a, b)
    ensures forall x | x in a :: x in b
  {
    if a != [] && b != [] {
      assert b == [b[0]] + b[1..] && a == [a[0]] + a[1..];
      if a[0] == b[0] { SubsequenceElements(a[1..], b[1..]); } else { SubsequenceElements(a, b[1..]); }
    }
  }

  lemma {:induction false} SubsequenceSkip(a: seq<TaskId>, x: TaskId, b: seq<TaskId>)
    requires Subsequence(a, b) && x !in b
    ensures Subsequence(a, [x] + b)
  {
    SubsequenceElements(a, b);
    assert ([x] + b)[1..] == b;
  }

  lemma AssignedStep(s: State, id: TaskId, rest: seq<TaskId>, ok: bool, s1: State, s': State, started: seq<TaskId>)
    requires id in s.tasks && s.tasks[id].status == Scheduled && id !in rest
    requires AssignEffect(s, id, ok, s1)
    requires Assigned(s1, rest, s', started)
    ensures Assigned(s, [id] + rest, s', if ok then [id] + started else started)
  {
    SubsequenceElements(started, rest);
    assert id !in started && s'.tasks[id] == s1.tasks[id];
    var all := if ok then [id] + started else started;
    assert Subsequence(all, [id] + rest) by {
      if ok {
        assert ([id] + rest)[1..] == rest && ([id] + started)[1..] == started;
      } else {
        SubsequenceSkip(started, id, rest);
      }
    }
    hide Subsequence;
    assert RowsKept(s, s');
    if !ok { StillBlocked(s, s', id); }
    hide Blocked, RowsKept;
  }

  lemma StillBlocked(s: State, s': State, id: TaskId)
    requires Blocked(s, id) && id in s'.tasks && s'.tasks[id].resources == s.tasks[id].resources && RowsKept(s, s')
    ensures Blocked(s', id)
  {
  }

  /** The assignment loop starts a subsequence of what was fetched, and leaves work undone only for want of workers
      or of locks. */
  lemma {:induction false} AssignAllConserves(s: State, fetched: seq<TaskId>)
    requires SoundServer(s) && AllScheduled(s.tasks, fetched)
    ensures var r := AssignAll(s, fetched); Assigned(s, fetched, r.0, r.1)
    decreases |fetched|
  {
    var w := AvailableWorker(s.pool);
    if fetched != [] && w.Some? {
      var id, rest := fetched[0], fetched[1..];
      AssignOutcome(s, w.value, id);
      assert [id] + rest == fetched;
      var a := AssignTask(s, w.value, id);
      RestScheduled(s.tasks, a.1.tasks, id, rest);
      hide SoundServer, AllScheduled, Assigned, AssignEffect, AssignTask;
      AssignAllConserves(a.1, rest);
      var r := AssignAll(a.1, rest);
      assert [id] + rest == fetched;
      AssignedStep(s, id, rest, a.0, a.1, r.0, r.1);
    }
  }

  lemma RestScheduled(tasks: map<TaskId, Task>, tasks': map<TaskId, Task>, id: TaskId, rest: seq<TaskId>)
    requires AllScheduled(tasks, [id] + rest)
    requires forall x | x in tasks && x != id :: x in tasks' && tasks'[x] == tasks[x]
    ensures AllScheduled(tasks', rest) && id !in rest
  {
    assert forall i | 0 <= i < |rest| :: rest[i] == ([id] + rest)[i + 1];
    assert ([id] + rest)[0] == id;
    forall x | x in rest ensures x in [id] + rest && x != id {
      var i :| 0 <= i < |rest| && rest[i] == x;
      assert ([id] + rest)[i + 1] == x;
    }
  }

  /** One poll after any run: it fetches the best scheduled tasks, starts a subsequence of them, and afterwards no
      worker is free or every fetched task still scheduled is blocked; the state it leaves is a reachable one. */
  lemma PollConserves(now: Time, maxConcurrency: nat, steps: seq<Step>, fetched: seq<TaskId>)
    requires var s1 := PreparePoll(Exec(Init(now, maxConcurrency), steps));
             IsFetch(s1.tasks, s1.maxConcurrency, fetched)
    ensures var s1 := PreparePoll(Exec(Init(now, maxConcurrency), steps)); var r := AssignAll(s1, fetched);
            && Assigned(s1, fetched, r.0, r.1)
            && r.0 == Exec(Init(now, maxConcurrency), steps + [DrainNotifications, PromotePending] + Starts(fetched))
  {
    var s0 := Exec(Init(now, maxConcurrency), steps);
    var before := steps + [DrainNotifications, PromotePending];
    var s1 := PreparePoll(s0);
    ExecAppend(Init(now, maxConcurrency), steps, [DrainNotifications, PromotePending]);
    assert [DrainNotifications, PromotePending][..1] == [DrainNotifications] && [DrainNotifications][..0] == [];
    assert Exec(s0, [DrainNotifications]) == Apply(Exec(s0, []), DrainNotifications);
    assert steps + [DrainNotifications, PromotePending] == before;
    ReachableServers(now, maxConcurrency, before);
    AssignAllConserves(s1, fetched);
    AssignAllIsARun(s1, fetched);
    ExecAppend(Init(now, maxConcurrency), before, Starts(fetched));
  }

  lemma {:induction false} ExecAppend(s: State, a: seq<Step>, b: seq<Step>)
    ensures Exec(s, a + b) == Exec(Exec(s, a), b)
    decreases |b|
  {
    if b == [] {
      assert a + b == a;
    } else {
      var n := |b| - 1;
      assert (a + b)[..|a + b| - 1] == a + b[..n];
      ExecAppend(s, a, b[..n]);
    }
  }

  lemma PromoteKeepsSound(s: State)
    ensures Sound(s) ==> Sound(Promote(s))
  {
    StepKeepsSound(s, PromotePending);
    hide Sound;
  }

  lemma CancelBatchKeepsSound(s: State, batch: BatchId)
    ensures Sound(s) ==> Sound(CancelBatch(s, batch))
  {
    StepKeepsSound(s, CancelAll(batch));
    hide Sound;
  }

  lemma PrepareKeepsSound(s: State)
    ensures Sound(s) ==> Sound(PreparePoll(s))
  {
    StepKeepsSound(s, DrainNotifications);
    hide Sound;
    PromoteKeepsSound(ProcessNotifications(s));
  }

  /** A whole poll keeps everything that is known. */
  lemma PollKeepsSound(s: State, fetched: seq<TaskId>)
    requires IsFetch(PreparePoll(s).tasks, PreparePoll(s).maxConcurrency, fetched)
    ensures Sound(s) ==> Sound(AssignAll(PreparePoll(s), fetched).0)
  {
    PrepareKeepsSound(s);
    RunKeepsSound(PreparePoll(s), Starts(fetched));
    if Sound(PreparePoll(s)) {
      assert AllScheduled(PreparePoll(s).tasks, fetched);
      hide SoundTable, SoundServer, PreparePoll, AllScheduled;
      AssignAllIsARun(PreparePoll(s), fetched);
    }
    hide *;
  }
}
