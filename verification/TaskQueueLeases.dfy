/** Who owns lock rows, in terms of tasks and the clock: when a start is refused, when exclusion ends, and what a
    cancelled task keeps. */
module TaskQueueLeases {
  import opened Prelude
  import opened TaskQueue
  import opened TaskQueueRuns
  import opened TaskQueuePool
  import opened TaskQueueSafety

  /** The task claims rows and its lease has not run out. */
  predicate LeaseHolder(s: State, id: TaskId) {
    Claimed(s.tasks, s.workers, id) && WithinLease(s.now, s.tasks[id])
  }

  /** An unexpired row says the task holds the resource. */
  predicate Owns(s: State, id: TaskId, r: ResourceId) {
    exists k | k in s.locks :: s.locks[k].task == id && s.locks[k].resource == r && !(s.locks[k].expires < s.now)
  }

  predicate Contends(s: State, id: TaskId, resources: seq<ResourceId>) {
    LeaseHolder(s, id) && exists r | r in resources :: r in s.tasks[id].resources
  }

  lemma OwnsExact(s: State, id: TaskId, r: ResourceId)
    requires SoundServer(s)
    ensures Owns(s, id, r) <==> LeaseHolder(s, id) && r in s.tasks[id].resources
  {
    if LeaseHolder(s, id) && r in s.tasks[id].resources {
      assert LeaseKept(s.now, s.locks, id, s.tasks[id]);
      var k :| k in s.locks && s.locks[k] == LeaseRow(s.tasks[id], id, r);
    }
  }

  /** In every run the unexpired rows are exactly those of the tasks that run, or were cancelled while running, on a
      worker whose row is active, from their start until their lease runs out. */
  lemma RowsExact(now: Time, maxConcurrency: nat, steps: seq<Step>, id: TaskId, r: ResourceId)
    ensures var s := Exec(Init(now, maxConcurrency), steps);
            Owns(s, id, r) <==> LeaseHolder(s, id) && r in s.tasks[id].resources
  {
    ReachableServers(now, maxConcurrency, steps);
    OwnsExact(Exec(Init(now, maxConcurrency), steps), id, r);
  }

  /** So a cancelled task keeps its rows, whether its execution has returned or not, exactly when it had started, its
      lease has not run out, and its worker has not been recovered. */
  lemma CancelledRows(now: Time, maxConcurrency: nat, steps: seq<Step>, id: TaskId, r: ResourceId)
    requires var s := Exec(Init(now, maxConcurrency), steps); id in s.tasks && s.tasks[id].status == Cancelled
    ensures var s := Exec(Init(now, maxConcurrency), steps); var t := s.tasks[id];
            Owns(s, id, r) <==>
              && r in t.resources && WithinLease(s.now, t)
              && t.worker.Some? && t.worker.value < |s.workers| && s.workers[t.worker.value].active
  {
    RowsExact(now, maxConcurrency, steps, id, r);
    hide Exec, Init, Owns;
  }

  lemma AcquirableInTasks(s: State, resources: seq<ResourceId>)
    requires SoundServer(s)
    ensures Acquirable(s.locks, s.now, resources) <==> NoDup(resources) && forall id :: !Contends(s, id, resources)
  {
    hide NoDup;
    if Acquirable(s.locks, s.now, resources) {
      forall id, r | LeaseHolder(s, id) && r in s.tasks[id].resources ensures r !in resources {
        OwnsExact(s, id, r);
      }
    }
    if forall id :: !Contends(s, id, resources) {
      forall k | k in s.locks && s.locks[k].resource in resources ensures s.locks[k].expires < s.now {
        OwnsExact(s, s.locks[k].task, s.locks[k].resource);
        assert !Contends(s, s.locks[k].task, resources);
      }
    }
  }

  /** Starting a scheduled task on a free worker. */
  lemma StartOutcome(s: State, b: TaskId)
    requires SoundServer(s) && b in s.tasks && s.tasks[b].status == Scheduled && AvailableWorker(s.pool).Some?
    ensures var s' := Apply(s, Start(b)); var ok := NoDup(s.tasks[b].resources)
                     && forall id :: !Contends(s, id, s.tasks[b].resources);
            AssignEffect(s, b, ok, s')
  {
    AssignOutcome(s, AvailableWorker(s.pool).value, b);
    AcquirableInTasks(s, s.tasks[b].resources);
    hide SoundServer, Contends, NoDup, Acquirable, AssignTask, RowsKept;
  }

  /** In every run a start is refused exactly when the task repeats a resource or a lease holder needs one of them. */
  lemma StartExact(now: Time, maxConcurrency: nat, steps: seq<Step>, b: TaskId)
    requires var s := Exec(Init(now, maxConcurrency), steps);
             b in s.tasks && s.tasks[b].status == Scheduled && AvailableWorker(s.pool).Some?
    ensures var s := Exec(Init(now, maxConcurrency), steps); var s' := Apply(s, Start(b));
            && b in s'.tasks
            && (s'.tasks[b].status == Running
                <==> NoDup(s.tasks[b].resources) && forall id :: !Contends(s, id, s.tasks[b].resources))
            && (s'.tasks[b].status != Running ==> s'.tasks == s.tasks)
  {
    ReachableServers(now, maxConcurrency, steps);
    StartOutcome(Exec(Init(now, maxConcurrency), steps), b);
    hide Exec, Init, SoundServer, Contends, NoDup, Apply;
  }

  /** Exclusion ends with the lease and not before: starting a task while another one that shares a resource is running
      leaves both running exactly when no lease holder needs any of its resources, and then the lease of the other one
      has run out. */
  lemma TakeoverExact(now: Time, maxConcurrency: nat, steps: seq<Step>, a: TaskId, b: TaskId, r: ResourceId)
    requires var s := Exec(Init(now, maxConcurrency), steps);
             && a in s.tasks && s.tasks[a].status == Running && b in s.tasks && s.tasks[b].status == Scheduled
             && r in s.tasks[a].resources && r in s.tasks[b].resources && AvailableWorker(s.pool).Some?
    ensures var s := Exec(Init(now, maxConcurrency), steps); var s' := Apply(s, Start(b));
            && a in s'.tasks && s'.tasks[a] == s.tasks[a] && b in s'.tasks
            && (s'.tasks[b].status == Running
                <==> NoDup(s.tasks[b].resources) && forall id :: !Contends(s, id, s.tasks[b].resources))
            && (s'.tasks[b].status == Running ==> !WithinLease(s.now, s.tasks[a]))
  {
    var s := Exec(Init(now, maxConcurrency), steps);
    ReachableServers(now, maxConcurrency, steps);
    StartOutcome(s, b);
    HoldingClaims(s, a);
    assert WithinLease(s.now, s.tasks[a]) ==> Contends(s, a, s.tasks[b].resources);
    hide Exec, Init, SoundServer, Contends, NoDup, Apply, WithinLease;
  }

  // ---------------------------------------------------------------------------------------------
  // Tasks that name a resource twice

  predicate Began(status: Status) {
    status == Running || status == Completed || status == Failed
  }

  /** Tasks that run or ran to an end name no resource twice. */
  ghost predicate NamedOnce(tasks: map<TaskId, Task>) {
    forall id | id in tasks && Began(tasks[id].status) :: NoDup(tasks[id].resources)
  }

  /** Only a start makes a row say running. */
  lemma NothingElseRuns(s: State, step: Step)
    requires !step.Start?
    ensures forall id | id in Apply(s, step).tasks && Apply(s, step).tasks[id].status == Running ::
              id in s.tasks && s.tasks[id].status == Running
  {
    match step
    case FinishAt(_, _) =>
    case Heartbeat =>
      HeartbeatKeepsTasks(s);
      RecoverMoves(HeartbeatAll(s), DeadWorkers(HeartbeatAll(s), |s.workers|));
    case Crash => SpawnKeepsTasks(s.(pool := [], runningTasks := 0, notifications := []), s.maxConcurrency);
    case _ => QuietApply(s, step);
  }

  lemma StartNamesOnce(s: State, id: TaskId)
    requires SoundServer(s) && NamedOnce(s.tasks)
    ensures NamedOnce(Apply(s, Start(id)).tasks)
  {
    var w := AvailableWorker(s.pool);
    if id in s.tasks && s.tasks[id].status == Scheduled && w.Some? {
      AssignOutcome(s, w.value, id);
      AssignKeepsKeys(s, w.value, id);
      var a := AssignTask(s, w.value, id);
      assert Apply(s, Start(id)) == a.1;
      hide SoundServer, AssignTask, Apply;
      AssignNamesOnce(s, id, a.0, a.1);
    }
  }

  lemma AssignNamesOnce(s: State, id: TaskId, ok: bool, s': State)
    requires NamedOnce(s.tasks) && AssignEffect(s, id, ok, s') && s'.tasks.Keys == s.tasks.Keys
    ensures NamedOnce(s'.tasks)
  {
    hide NoDup, RowsKept;
  }

  lemma StepNamesOnce(s: State, step: Step)
    requires SoundServer(s) && NamedOnce(s.tasks)
    ensures NamedOnce(Apply(s, step).tasks)
  {
    if step.Start? {
      StartNamesOnce(s, step.id);
    } else {
      NothingElseRuns(s, step);
      StepMoves(s, step);
      hide Apply, SoundServer;
      forall id | id in Apply(s, step).tasks && id in s.tasks
        ensures Moves(s.tasks, s.tasks[id], Apply(s, step).tasks[id])
      {
      }
    }
  }

  /** In every run a task that is running, completed or failed names no resource twice: one that does never starts. */
  lemma {:induction false} RepeatedNeverStarts(now: Time, maxConcurrency: nat, steps: seq<Step>)
    ensures NamedOnce(Exec(Init(now, maxConcurrency), steps).tasks)
  {
    if steps == [] {
      SpawnKeepsTasks(State(now, map[], map[], 0, [], [], 0, maxConcurrency, []), maxConcurrency);
    } else {
      var before := steps[..|steps| - 1];
      RepeatedNeverStarts(now, maxConcurrency, before);
      ReachableServers(now, maxConcurrency, before);
      StepNamesOnce(Exec(Init(now, maxConcurrency), before), steps[|steps| - 1]);
    }
  }
}
