/** Every step, row by row: which step gives a task which status and what it writes, how executions start and end, and
    how their ends are counted over runs. */
module TaskQueueOutcomes {
  import opened Prelude
  import opened TaskQueue
  import opened TaskQueueRuns
  import opened TaskQueueTables
  import opened TaskQueuePool
  import opened TaskQueueSafety
  import opened TaskQueueRecovery

  /** The step ends the execution of a task that its row still says is running, successfully or not. */
  predicate EndsRun(s: State, step: Step, id: TaskId, ok: bool) {
    && step.FinishAt? && step.ok == ok && step.index < |s.pool| && s.pool[step.index].currentTask == Some(id)
    && HasStatus(s.tasks, id, Running)
  }

  /** A single cancel reaches every task not ended yet, a batch cancel those of the batch that have not started. */
  predicate CancelsRow(s: State, step: Step, id: TaskId) {
    && id in s.tasks
    && (|| (step.Cancel? && step.id == id && (Waiting(s.tasks[id]) || s.tasks[id].status == Running))
        || (step.CancelAll? && s.tasks[id].batch == Some(step.batch) && Waiting(s.tasks[id])))
  }

  /** A pending task whose dependencies are completed, at a promotion that counts each of them once or a notification of
      one of them; a failed one with retries left, when retried; a running one whose worker is gone, at a tick. */
  ghost predicate SchedulesRow(s: State, step: Step, id: TaskId) {
    && id in s.tasks
    && var t := s.tasks[id];
       || (t.status == Pending && AllCompleted(s.tasks, t.deps)
           && ((step.PromotePending? && NoDup(t.deps))
               || (step.DrainNotifications? && Notified(s.notifications, t.deps))))
       || (t.status == Failed && step == Retry(id) && t.retryCount < t.maxRetries)
       || (t.status == Running && step.Heartbeat? && t.worker.Some? && Gone(s, t.worker.value))
  }

  /** The row of a task that starts. */
  predicate StartsRow(s: State, step: Step, id: TaskId) {
    && step == Start(id) && HasStatus(s.tasks, id, Scheduled) && AvailableWorker(s.pool).Some?
    && AssignTask(s, AvailableWorker(s.pool).value, id).0
  }

  /** The row with its new status: a start records the time and the worker, a recovery clears both, a retry is counted
      and clears the time, and no other change of status touches anything else. */
  function Written(t: Task, status: Status, now: Time, worker: Option<WorkerId>): Task {
    var t' := t.(status := status);
    match (t.status, status)
    case (Scheduled, Running) => t'.(started := Some(now), worker := worker)
    case (Running, Scheduled) => t'.(started := None, worker := None)
    case (Failed, Scheduled) => t'.(started := None, retryCount := t.retryCount + 1)
    case _ => t'
  }

  ghost function StatusAfter(s: State, step: Step, id: TaskId): Status
    requires id in s.tasks
  {
    if SchedulesRow(s, step, id) then Scheduled
    else if StartsRow(s, step, id) then Running
    else if EndsRun(s, step, id, true) then Completed
    else if EndsRun(s, step, id, false) then Failed
    else if CancelsRow(s, step, id) then Cancelled
    else s.tasks[id].status
  }

  /** What a step does to a stored row. */
  ghost predicate RowStep(s: State, step: Step, id: TaskId)
    requires id in s.tasks
  {
    && id in Apply(s, step).tasks
    && Apply(s, step).tasks[id]
       == Written(s.tasks[id], StatusAfter(s, step, id), s.now, AvailableWorker(s.pool))
  }

  lemma SubmitRow(s: State, step: Step, id: TaskId)
    requires id in s.tasks && (step.SubmitOne? || step.SubmitMany?)
    ensures RowStep(s, step, id)
  {
    if step.SubmitMany? { InsertMoves(s, step.items); }
    hide FirstMissing, FirstObjection, AvailableWorker;
  }

  lemma PromotedRow(s: State, step: Step, id: TaskId)
    requires id in s.tasks && (step.DrainNotifications? || step.PromotePending?)
    ensures RowStep(s, step, id)
  {
    DrainInOnePass(s);
    CountReadyExact(s.tasks, s.tasks[id].deps);
    hide AllCompleted, NoDup, Notified, CountReady, AvailableWorker, ProcessNotifications;
  }

  lemma StartedOne(s: State, other: TaskId, id: TaskId)
    requires id in s.tasks
    ensures RowStep(s, Start(other), id)
  {
    var w := AvailableWorker(s.pool);
    if HasStatus(s.tasks, other, Scheduled) && w.Some? {
      AcquireKeepsTasks(s, other, s.tasks[other].resources, w.value);
    }
    hide AvailableWorker, AcquireLocks, AllCompleted, Notified, Gone;
  }

  lemma FinishedRow(s: State, i: nat, ok: bool, id: TaskId)
    requires id in s.tasks
    ensures RowStep(s, FinishAt(i, ok), id)
  {
    hide AvailableWorker, AllCompleted, Notified, Gone;
  }

  lemma AskedRow(s: State, step: Step, id: TaskId)
    requires id in s.tasks && (step.Retry? || step.Cancel? || step.CancelAll?)
    ensures RowStep(s, step, id)
  {
    hide AvailableWorker, AllCompleted, Notified, Gone;
  }

  lemma TickedRow(s: State, id: TaskId)
    requires id in s.tasks
    ensures RowStep(s, Heartbeat, id)
  {
    TickRecovers(s);
    hide AvailableWorker, AllCompleted, Notified, Gone, HeartbeatTick;
  }

  lemma OtherRow(s: State, step: Step, id: TaskId)
    requires id in s.tasks && (step.Advance? || step.Announce? || step.Crash?)
    ensures RowStep(s, step, id)
  {
    SpawnKeepsTasks(s.(pool := [], runningTasks := 0, notifications := []), s.maxConcurrency);
    hide AvailableWorker, AllCompleted, Notified, Gone, SpawnWorkers;
  }

  /** Every step, for every stored row. */
  lemma RowExact(s: State, step: Step, id: TaskId)
    requires id in s.tasks
    ensures RowStep(s, step, id)
  {
    hide *;
    match step
    case SubmitOne(_) => SubmitRow(s, step, id);
    case SubmitMany(_) => SubmitRow(s, step, id);
    case DrainNotifications => PromotedRow(s, step, id);
    case PromotePending => PromotedRow(s, step, id);
    case Start(other) => StartedOne(s, other, id);
    case FinishAt(i, ok) => FinishedRow(s, i, ok, id);
    case Retry(_) => AskedRow(s, step, id);
    case Cancel(_) => AskedRow(s, step, id);
    case CancelAll(_) => AskedRow(s, step, id);
    case Heartbeat => TickedRow(s, id);
    case _ => OtherRow(s, step, id);
  }

  /** So a step gives a stored row a status it did not have exactly in these cases. */
  lemma StatusExact(s: State, step: Step, id: TaskId)
    requires id in s.tasks
    ensures id in Apply(s, step).tasks
    ensures var before, after := s.tasks[id].status, Apply(s, step).tasks[id].status;
            && (before != Scheduled ==> (after == Scheduled <==> SchedulesRow(s, step, id)))
            && (before != Running ==> (after == Running <==> StartsRow(s, step, id)))
            && (before != Completed ==> (after == Completed <==> EndsRun(s, step, id, true)))
            && (before != Failed ==> (after == Failed <==> EndsRun(s, step, id, false)))
            && (before != Cancelled ==> (after == Cancelled <==> CancelsRow(s, step, id)))
            && (before != Pending ==> after != Pending)
  {
    RowExact(s, step, id);
    hide Apply, AllCompleted, Notified, NoDup, Gone, AvailableWorker, AssignTask;
  }

  /** A new row is completed or failed by no step, and a completed one is not running again. */
  lemma OutcomeExact(s: State, step: Step, id: TaskId)
    ensures !HasStatus(s.tasks, id, Completed) && HasStatus(Apply(s, step).tasks, id, Completed)
       <==> EndsRun(s, step, id, true)
    ensures HasStatus(s.tasks, id, Running) && HasStatus(Apply(s, step).tasks, id, Failed)
       <==> EndsRun(s, step, id, false)
    ensures HasStatus(s.tasks, id, Completed) ==> HasStatus(Apply(s, step).tasks, id, Completed)
  {
    StepMoves(s, step);
    if id in s.tasks { StatusExact(s, step, id); }
    hide Apply, AllCompleted, Notified, NoDup, Gone, AvailableWorker, AssignTask;
    if id in s.tasks { assert Moves(s.tasks, s.tasks[id], Apply(s, step).tasks[id]); }
  }

  // ---------------------------------------------------------------------------------------------
  // How often executions end

  /** How many executions of the task ended so during the run. */
  ghost function RunsEnded(s: State, steps: seq<Step>, id: TaskId, ok: bool): nat {
    if steps == [] then 0
    else
      var before := steps[..|steps| - 1];
      RunsEnded(s, before, id, ok) + if EndsRun(Exec(s, before), steps[|steps| - 1], id, ok) then 1 else 0
  }

  /** Over every run a task fails as often as an execution of it ends without success while its row says running. */
  lemma {:induction false} FailuresCounted(s: State, steps: seq<Step>, id: TaskId)
    ensures Failures(s, steps, id) == RunsEnded(s, steps, id, false)
  {
    if steps != [] {
      var before := steps[..|steps| - 1];
      FailuresCounted(s, before, id);
      OutcomeExact(Exec(s, before), steps[|steps| - 1], id);
      hide Apply, EndsRun, HasStatus;
    }
  }

  /** Over every run a task is completed exactly when one execution of it ended with success while its row said running,
      and no second one ever does. */
  lemma {:induction false} CompletionsCounted(now: Time, maxConcurrency: nat, steps: seq<Step>, id: TaskId)
    ensures var s0 := Init(now, maxConcurrency);
            RunsEnded(s0, steps, id, true) == if HasStatus(Exec(s0, steps).tasks, id, Completed) then 1 else 0
  {
    var s0 := Init(now, maxConcurrency);
    if steps == [] {
      SpawnKeepsTasks(State(now, map[], map[], 0, [], [], 0, maxConcurrency, []), maxConcurrency);
    } else {
      var before := steps[..|steps| - 1];
      CompletionsCounted(now, maxConcurrency, before, id);
      OutcomeExact(Exec(s0, before), steps[|steps| - 1], id);
      hide Apply, Init;
    }
  }

  // ---------------------------------------------------------------------------------------------
  // The worker of an execution

  /** What the end of an execution leaves: the worker is free again; the row of a task still running is completed or
      failed and its lock rows are gone; a task cancelled meanwhile keeps row and lock rows. Nothing else changes. */
  ghost predicate EndedBy(s: State, i: nat, ok: bool, s': State)
    requires i < |s.pool| && s.pool[i].currentTask.Some?
  {
    var id := s.pool[i].currentTask.value;
    && s' == s.(tasks := s'.tasks, locks := s'.locks, pool := s'.pool, runningTasks := s.runningTasks - 1)
    && |s'.pool| == |s.pool| && s'.pool[i] == PoolWorker(s.pool[i].id, s.pool[i].active, None)
    && (forall j | 0 <= j < |s.pool| && j != i :: s'.pool[j] == s.pool[j])
    && id in s.tasks && s'.tasks.Keys == s.tasks.Keys
    && (forall x | x in s.tasks && x != id :: s'.tasks[x] == s.tasks[x])
    && if s.tasks[id].status == Cancelled then s'.tasks == s.tasks && s'.locks == s.locks
       else
         && s.tasks[id].status == Running
         && (ok ==> s'.tasks[id] == s.tasks[id].(status := Completed))
         && (!ok ==> s'.tasks[id] == s.tasks[id].(status := Failed))
         && (forall k :: k in s'.locks <==> k in s.locks && s.locks[k].task != id)
         && (forall k | k in s'.locks :: s'.locks[k] == s.locks[k])
  }

  lemma FinishEnds(s: State, i: nat, ok: bool)
    requires SoundExecutions(s) && i < |s.pool| && s.pool[i].currentTask.Some?
    ensures EndedBy(s, i, ok, Finish(s, i, ok))
  {
    assert HeldBy(s.tasks[s.pool[i].currentTask.value], s.pool[i].id);
  }

  lemma FinishSound(s: State, i: nat, ok: bool)
    requires i < |s.pool| && s.pool[i].currentTask.Some?
    ensures Sound(s) ==> Sound(Finish(s, i, ok)) && EndedBy(s, i, ok, Finish(s, i, ok))
  {
    assert Apply(s, FinishAt(i, ok)) == Finish(s, i, ok) by { hide Finish; }
    assert Sound(s) ==> SoundExecutions(s) by { hide SoundTable, SoundPool, SoundExecutions, SoundLocks, SoundLeases; }
    hide *;
    StepKeepsSound(s, FinishAt(i, ok));
    if Sound(s) { FinishEnds(s, i, ok); }
  }

  /** In every run, for every busy worker. */
  lemma FinishExact(now: Time, maxConcurrency: nat, steps: seq<Step>, i: nat, ok: bool)
    requires var s := Exec(Init(now, maxConcurrency), steps); i < |s.pool| && s.pool[i].currentTask.Some?
    ensures var s := Exec(Init(now, maxConcurrency), steps); EndedBy(s, i, ok, Apply(s, FinishAt(i, ok)))
  {
    ReachableServers(now, maxConcurrency, steps);
    FinishEnds(Exec(Init(now, maxConcurrency), steps), i, ok);
    hide Exec, Init, EndedBy, SoundPool, SoundLocks, SoundLeases;
  }

  /** The first worker of the pool that executes nothing. */
  ghost predicate FirstFree(pool: seq<PoolWorker>, i: nat) {
    i < |pool| && pool[i].currentTask.None? && forall j | 0 <= j < i :: pool[j].currentTask.Some?
  }

  lemma {:induction false} AvailableIsFirst(pool: seq<PoolWorker>) returns (i: nat)
    requires (forall w | w in pool :: w.active) && AvailableWorker(pool).Some?
    ensures FirstFree(pool, i) && AvailableWorker(pool) == Some(pool[i].id)
  {
    if pool[0].currentTask.None? {
      i := 0;
    } else {
      assert pool[0] in pool;
      i := AvailableIsFirst(pool[1..]);
      i := i + 1;
    }
  }

  lemma FoundAt(s: State, i: nat)
    requires SoundPool(s) && i < |s.pool|
    ensures FindWorker(s.pool, s.pool[i].id) == Some(i)
  {
    assert s.pool[i] in s.pool;
  }

  /** What a start leaves: the first free worker is busy with the task and named in its row, or the task did not start
      and at most lock rows changed. */
  ghost predicate StartEffect(s: State, id: TaskId, s': State) {
    if HasStatus(s'.tasks, id, Running)
    then exists i: nat ::
           && FirstFree(s.pool, i) && s'.pool == s.pool[i := s.pool[i].(currentTask := Some(id))]
           && s'.tasks[id].worker == Some(s.pool[i].id) && s'.tasks[id].started == Some(s.now)
           && s' == s.(tasks := s'.tasks, locks := s'.locks, nextLock := s'.nextLock, pool := s'.pool,
                       runningTasks := s.runningTasks + 1)
    else s' == s.(locks := s'.locks, nextLock := s'.nextLock)
  }

  /** The two results of assigning a scheduled task to the pool worker at `i`. */
  ghost predicate AssignedTo(s: State, i: nat, id: TaskId, started: bool, s': State)
    requires i < |s.pool| && id in s.tasks
  {
    var w := s.pool[i];
    if started
    then s' == s.(tasks := s.tasks[id := StartedRow(s.tasks[id], s.now, Some(w.id))], locks := s'.locks,
                  nextLock := s'.nextLock, pool := s.pool[i := w.(currentTask := Some(id))],
                  runningTasks := s.runningTasks + 1)
    else s' == s.(locks := s'.locks, nextLock := s'.nextLock)
  }

  lemma AssignShape(s: State, i: nat, id: TaskId)
    requires i < |s.pool| && s.pool[i].active && FindWorker(s.pool, s.pool[i].id) == Some(i)
    requires HasStatus(s.tasks, id, Scheduled)
    ensures var r := AssignTask(s, s.pool[i].id, id); AssignedTo(s, i, id, r.0, r.1)
  {
    AcquireKeepsTasks(s, id, s.tasks[id].resources, s.pool[i].id);
    hide FindWorker, AcquireLocks;
  }

  lemma StartTakes(s: State, id: TaskId)
    requires SoundPool(s) && HasStatus(s.tasks, id, Scheduled)
    ensures StartEffect(s, id, Apply(s, Start(id)))
  {
    if AvailableWorker(s.pool).Some? {
      var i := AvailableIsFirst(s.pool);
      FoundAt(s, i);
      AssignShape(s, i, id);
      hide SoundPool, AvailableWorker, FindWorker, AssignTask;
      assert FirstFree(s.pool, i);
    }
  }

  /** In every run. */
  lemma StartTakesFirst(now: Time, maxConcurrency: nat, steps: seq<Step>, id: TaskId)
    requires HasStatus(Exec(Init(now, maxConcurrency), steps).tasks, id, Scheduled)
    ensures var s := Exec(Init(now, maxConcurrency), steps); StartEffect(s, id, Apply(s, Start(id)))
  {
    ReachableServers(now, maxConcurrency, steps);
    hide Exec, Init, StartEffect, Apply, SoundPool;
    StartTakes(Exec(Init(now, maxConcurrency), steps), id);
  }

  // ---------------------------------------------------------------------------------------------
  // Notifications

  /** A completed task announced joins the end of the list, a drain or a crash empties it, nothing else touches it. */
  lemma NotificationsExact(s: State, step: Step)
    ensures Apply(s, step).notifications ==
            if step.Announce? && HasStatus(s.tasks, step.done, Completed) then s.notifications + [step.done]
            else if step.DrainNotifications? || step.Crash? then [] else s.notifications
  {
    match step
    case SubmitMany(items) => InsertMoves(s, items);
    case DrainNotifications => DrainInOnePass(s);
    case Start(id) =>
      if id in s.tasks && AvailableWorker(s.pool).Some? {
        AcquireKeepsTasks(s, id, s.tasks[id].resources, AvailableWorker(s.pool).value);
      }
    case Heartbeat => TickRecovers(s);
    case Crash => CrashExact(s);
    case _ =>
  }
}
