/** What holds of the task table in every reachable state: dependencies present, acyclic
    and honoured, retries counted. */
module TaskQueueTables {
  import opened Prelude
  import opened Graphs
  import CycleCheck
  import opened TaskQueue
  import opened TaskQueueRuns

  predicate PastPending(status: Status) {
    status != Pending && status != Cancelled
  }

  /** A task leaves pending, other than by cancellation, only once all its dependencies are completed. */
  ghost predicate Honoured(tasks: map<TaskId, Task>) {
    forall id | id in tasks && PastPending(tasks[id].status) :: AllCompleted(tasks, tasks[id].deps)
  }

  ghost predicate DepsPresent(tasks: map<TaskId, Task>) {
    forall id, d | id in tasks && d in tasks[id].deps :: d in tasks
  }

  ghost predicate RetriesBounded(tasks: map<TaskId, Task>) {
    forall id | id in tasks :: tasks[id].retryCount == 0 || tasks[id].retryCount <= tasks[id].maxRetries
  }

  ghost predicate SoundTable(tasks: map<TaskId, Task>) {
    Honoured(tasks) && DepsPresent(tasks) && Acyclic(Stored(tasks)) && RetriesBounded(tasks)
  }

  lemma MovesKeepHonoured(tasks: map<TaskId, Task>, tasks': map<TaskId, Task>)
    requires Honoured(tasks) && TableStep(tasks, tasks')
    ensures Honoured(tasks')
  {
    forall id | id in tasks' && PastPending(tasks'[id].status)
      ensures AllCompleted(tasks', tasks'[id].deps)
    {
      if id in tasks {
        assert Moves(tasks, tasks[id], tasks'[id]);
        assert AllCompleted(tasks, tasks[id].deps);
        forall d | d in tasks[id].deps ensures IsCompleted(tasks', d) {
          assert Moves(tasks, tasks[d], tasks'[d]);
        }
      }
    }
  }

  lemma MovesKeepRetries(tasks: map<TaskId, Task>, tasks': map<TaskId, Task>)
    requires RetriesBounded(tasks) && TableStep(tasks, tasks')
    ensures RetriesBounded(tasks')
  {
    forall id | id in tasks'
      ensures tasks'[id].retryCount == 0 || tasks'[id].retryCount <= tasks'[id].maxRetries
    {
      if id in tasks { assert Moves(tasks, tasks[id], tasks'[id]); }
    }
  }

  // ---------------------------------------------------------------------------------------------
  // Submission

  ghost predicate FreshIds(s: State, items: seq<Item>) {
    && (forall i, j | 0 <= i < j < |items| :: items[i].id != items[j].id)
    && (forall i | 0 <= i < |items| :: items[i].id !in s.tasks)
  }

  ghost predicate DepsKnown(s: State, items: seq<Item>) {
    forall i, d | 0 <= i < |items| && d in items[i].spec.deps ::
      d in s.tasks || exists j | 0 <= j < |items| :: items[j].id == d
  }

  /** The task table's graph with the batch added. */
  ghost function Extended(s: State, items: seq<Item>): Graph<TaskId> {
    Stored(s.tasks) + VirtualDeps(items)
  }

  lemma {:induction false} VirtualRows(items: seq<Item>)
    ensures forall d :: d in VirtualDeps(items) <==> exists j | 0 <= j < |items| :: items[j].id == d
    ensures (forall i, j | 0 <= i < j < |items| :: items[i].id != items[j].id) ==>
              forall i | 0 <= i < |items| :: VirtualDeps(items)[items[i].id] == items[i].spec.deps
  {
    if items != [] {
      var n := |items| - 1;
      var rest := items[..n];
      VirtualRows(rest);
      assert forall j | 0 <= j < n :: items[j] == rest[j];
      forall d ensures d in VirtualDeps(items) <==> exists j | 0 <= j < |items| :: items[j].id == d {
        if d in VirtualDeps(rest) {
          var j :| 0 <= j < |rest| && rest[j].id == d;
          assert items[j].id == d;
        }
        if d == items[n].id { assert items[n].id == d; }
      }
    }
  }

  lemma {:induction false} InsertedRows(s: State, items: seq<Item>)
    requires InsertAll(s, items).Some?
    ensures FreshIds(s, items)
    ensures var s' := InsertAll(s, items).value;
            && s' == s.(tasks := s'.tasks)
            && (forall id :: id in s'.tasks <==> id in s.tasks || exists j | 0 <= j < |items| :: items[j].id == id)
            && (forall id | id in s.tasks :: s'.tasks[id] == s.tasks[id])
            && (forall j | 0 <= j < |items| :: s'.tasks[items[j].id] == Submitted(items[j].spec, s.now))
    decreases |items|
  {
    if items != [] {
      var s1 := s.(tasks := s.tasks[items[0].id := Submitted(items[0].spec, s.now)]);
      InsertedRows(s1, items[1..]);
      assert forall j | 0 < j < |items| :: items[j] == items[1..][j - 1];
    }
  }

  lemma {:induction false} InsertSucceeds(s: State, items: seq<Item>)
    requires FreshIds(s, items)
    ensures InsertAll(s, items).Some? <==> forall i | 0 <= i < |items| :: 0 <= items[i].spec.priority <= 9
    decreases |items|
  {
    if items != [] {
      var s1 := s.(tasks := s.tasks[items[0].id := Submitted(items[0].spec, s.now)]);
      assert forall j | 0 <= j < |items[1..]| :: items[1..][j] == items[j + 1];
      InsertSucceeds(s1, items[1..]);
    }
  }

  /** For known dependencies the checking loop objects exactly when some item reaches a cycle. */
  lemma {:induction false} ObjectionExact(s: State, virtualDeps: Graph<TaskId>, items: seq<Item>)
    requires forall i, d | 0 <= i < |items| && d in items[i].spec.deps :: d in s.tasks || d in virtualDeps
    requires forall i | 0 <= i < |items| :: items[i].id in virtualDeps && virtualDeps[items[i].id] == items[i].spec.deps
    ensures var g := Stored(s.tasks) + virtualDeps; var r := FirstObjection(s, virtualDeps, items);
            && (r.None? || r == Some(CircularDependency))
            && (r.None? <==> forall i | 0 <= i < |items| :: !CycleReachable(g, items[i].id))
  {
    if items != [] {
      var g := Stored(s.tasks) + virtualDeps;
      assert forall j | 0 <= j < |items[1..]| :: items[1..][j] == items[j + 1];
      ObjectionExact(s, virtualDeps, items[1..]);
      assert CycleCheck.Overlay(Stored(s.tasks), virtualDeps, items[0].id, items[0].spec.deps) == g;
      LeafReachesNoCycle(g, items[0].id);
    }
  }

  lemma LeafReachesNoCycle(g: Graph<TaskId>, id: TaskId)
    ensures Succ(g, id) == [] ==> !CycleReachable(g, id)
  {
    if Succ(g, id) == [] { CycleCheck.NoCycleReachable(g, id); }
  }

  lemma TableClosed(tasks: map<TaskId, Task>)
    requires DepsPresent(tasks)
    ensures Closed(Stored(tasks))
  {
    forall x, d | d in Succ(Stored(tasks), x) ensures d in Stored(tasks) {
      assert d in tasks[x].deps;
    }
  }

  lemma ExtendedRows(s: State, items: seq<Item>)
    requires DepsPresent(s.tasks) && FreshIds(s, items)
    ensures Closed(Stored(s.tasks)) && ExtendedBy(Stored(s.tasks), Extended(s, items))
    ensures forall id ::
              id in Extended(s, items) && id !in Stored(s.tasks) <==> exists j | 0 <= j < |items| :: items[j].id == id
  {
    VirtualRows(items);
  }

  lemma CyclicThroughItems(s: State, items: seq<Item>)
    requires SoundTable(s.tasks) && FreshIds(s, items)
    ensures Acyclic(Extended(s, items))
       <==> forall i | 0 <= i < |items| :: !CycleReachable(Extended(s, items), items[i].id)
  {
    ExtendedRows(s, items);
    AcyclicExtension(Stored(s.tasks), Extended(s, items));
    hide Acyclic, CycleReachable, Extended, SoundTable, Stored, Closed, ExtendedBy, FreshIds;
    var g, base := Extended(s, items), Stored(s.tasks);
    if forall i | 0 <= i < |items| :: !CycleReachable(g, items[i].id) {
      forall x | x in g && x !in base ensures !CycleReachable(g, x) {
        var j :| 0 <= j < |items| && items[j].id == x;
      }
    }
    forall i | 0 <= i < |items| ensures items[i].id in g && items[i].id !in base {}
  }

  lemma ObjectionToBatch(s: State, items: seq<Item>)
    requires FreshIds(s, items) && DepsKnown(s, items)
    ensures var r := FirstObjection(s, VirtualDeps(items), items);
            && (r.None? || r == Some(CircularDependency))
            && (r.None? <==> forall i | 0 <= i < |items| :: !CycleReachable(Extended(s, items), items[i].id))
  {
    VirtualRows(items);
    ObjectionExact(s, VirtualDeps(items), items);
  }

  /** For fresh distinct ids with known dependencies, a batch is refused as circular exactly when it is cyclic. */
  lemma BatchExact(s: State, items: seq<Item>)
    requires SoundTable(s.tasks) && FreshIds(s, items) && DepsKnown(s, items)
    ensures BatchEnqueue(s, items) == Refused(CircularDependency) <==> !Acyclic(Extended(s, items))
    ensures BatchEnqueue(s, items).Accepted?
       <==> Acyclic(Extended(s, items)) && forall i | 0 <= i < |items| :: 0 <= items[i].spec.priority <= 9
  {
    CyclicThroughItems(s, items);
    ObjectionToBatch(s, items);
    InsertSucceeds(s, items);
    hide FirstObjection, InsertAll, Acyclic, CycleReachable, VirtualDeps, SoundTable, FreshIds, DepsKnown, Extended;
  }

  /** What an accepted submission adds: one row per item, nothing else changed. A row starts out scheduled exactly when
      it has no dependencies, and pending otherwise. */
  ghost predicate AddsRows(s: State, s': State, items: seq<Item>) {
    && s' == s.(tasks := s'.tasks)
    && (forall id :: id in s'.tasks <==> id in s.tasks || exists j | 0 <= j < |items| :: items[j].id == id)
    && (forall id | id in s.tasks :: s'.tasks[id] == s.tasks[id])
    && (forall j | 0 <= j < |items| ::
          var t, spec := s'.tasks[items[j].id], items[j].spec;
          && t.status == (if spec.deps == [] then Scheduled else Pending)
          && t.deps == spec.deps && t.resources == spec.resources && t.priority == spec.priority
          && t.batch == spec.batch
          && t.maxRetries == spec.maxRetries && t.retryCount == 0 && t.created == s.now
          && t.worker.None? && t.started.None?)
  }

  lemma BatchAddsRows(s: State, items: seq<Item>)
    requires BatchEnqueue(s, items).Accepted?
    ensures AddsRows(s, BatchEnqueue(s, items).state, items)
  {
    InsertedRows(s, items);
    hide InsertAll, FirstObjection, VirtualDeps, FreshIds;
  }

  /** So a batch is accepted exactly when its ids are new and distinct, every dependency is stored or declared in it, no
      cycle arises, and the priorities are in range. */
  lemma BatchAccepted(s: State, items: seq<Item>)
    requires SoundTable(s.tasks)
    ensures BatchEnqueue(s, items).Accepted?
       <==> && FreshIds(s, items) && DepsKnown(s, items) && Acyclic(Extended(s, items))
            && forall i | 0 <= i < |items| :: 0 <= items[i].spec.priority <= 9
  {
    if BatchEnqueue(s, items).Accepted? {
      InsertedRows(s, items);
      KnownInBatch(s, items);
    }
    hide FreshIds, DepsKnown, Extended, Acyclic, BatchEnqueue, SoundTable;
    if FreshIds(s, items) && DepsKnown(s, items) { BatchExact(s, items); }
  }

  /** `enqueue` under a fresh id is never refused as circular: nothing stored can depend on that id yet. */
  lemma EnqueueExact(s: State, item: Item)
    requires SoundTable(s.tasks) && item.id !in s.tasks
    ensures Enqueue(s, item).Accepted?
       <==> (forall d | d in item.spec.deps :: d in s.tasks) && 0 <= item.spec.priority <= 9
    ensures Enqueue(s, item) != Refused(CircularDependency)
    ensures Enqueue(s, item).Accepted? ==> AddsRows(s, Enqueue(s, item).state, [item])
  {
    if forall d | d in item.spec.deps :: d in s.tasks {
      var base := Stored(s.tasks);
      TableClosed(s.tasks);
      var g := CycleCheck.Overlay(base, map[], item.id, item.spec.deps);
      FreshRowReachesNoCycle(base, g, item.id);
    }
    assert [item][0].id == item.id;
  }

  // ---------------------------------------------------------------------------------------------
  // Every step keeps the table sound

  /** A step other than submission keeps every dependency list, hence the graph. */
  lemma SameGraph(tasks: map<TaskId, Task>, tasks': map<TaskId, Task>)
    requires TableStep(tasks, tasks') && tasks'.Keys == tasks.Keys
    requires DepsPresent(tasks) && Acyclic(Stored(tasks))
    ensures DepsPresent(tasks') && Acyclic(Stored(tasks'))
  {
    assert forall id | id in tasks :: Moves(tasks, tasks[id], tasks'[id]);
    assert Stored(tasks') == Stored(tasks);
  }

  lemma SubmitKeepsGraph(s: State, item: Item)
    requires SoundTable(s.tasks) && Enqueue(s, item).Accepted?
    ensures var tasks' := Enqueue(s, item).state.tasks; DepsPresent(tasks') && Acyclic(Stored(tasks'))
  {
    var tasks' := Enqueue(s, item).state.tasks;
    var base, g := Stored(s.tasks), Stored(tasks');
    TableClosed(s.tasks);
    FreshRowReachesNoCycle(base, g, item.id);
    AcyclicExtension(base, g);
  }

  lemma BatchKeepsGraph(s: State, items: seq<Item>)
    requires SoundTable(s.tasks) && BatchEnqueue(s, items).Accepted?
    ensures DepsPresent(BatchEnqueue(s, items).state.tasks) && Acyclic(Stored(BatchEnqueue(s, items).state.tasks))
  {
    InsertedRows(s, items);
    KnownInBatch(s, items);
    BatchExact(s, items);
    hide FreshIds, DepsKnown, Extended, Acyclic, Stored, InsertAll, FirstObjection;
    BatchGraph(s, items, BatchEnqueue(s, items).state.tasks);
  }

  lemma KnownInBatch(s: State, items: seq<Item>)
    requires FirstObjection(s, VirtualDeps(items), items).None?
    ensures DepsKnown(s, items)
  {
    KnownDeps(s, VirtualDeps(items), items);
    VirtualRows(items);
    hide FirstObjection, VirtualDeps;
  }

  /** The checking loop lets a batch through only if every dependency is stored or declared. */
  lemma {:induction false} KnownDeps(s: State, virtualDeps: Graph<TaskId>, items: seq<Item>)
    requires FirstObjection(s, virtualDeps, items).None?
    ensures forall i, d | 0 <= i < |items| && d in items[i].spec.deps :: d in s.tasks || d in virtualDeps
  {
    if items != [] {
      KnownDeps(s, virtualDeps, items[1..]);
      assert forall j | 0 < j < |items| :: items[j] == items[1..][j - 1];
    }
  }

  lemma BatchGraph(s: State, items: seq<Item>, tasks': map<TaskId, Task>)
    requires DepsPresent(s.tasks) && FreshIds(s, items) && DepsKnown(s, items)
    requires forall id :: id in tasks' <==> id in s.tasks || exists j | 0 <= j < |items| :: items[j].id == id
    requires forall id | id in s.tasks :: tasks'[id] == s.tasks[id]
    requires forall j | 0 <= j < |items| :: tasks'[items[j].id] == Submitted(items[j].spec, s.now)
    ensures DepsPresent(tasks') && Stored(tasks') == Extended(s, items)
  {
    VirtualRows(items);
    var g, g' := Extended(s, items), Stored(tasks');
    forall id | id in tasks' ensures id in g && g[id] == g'[id] && forall d | d in tasks'[id].deps :: d in tasks' {
      if id !in s.tasks {
        var j :| 0 <= j < |items| && items[j].id == id;
      }
    }
    assert forall id | id in g :: id in g';
  }

  /** Every step keeps the table sound. */
  lemma StepKeepsTable(s: State, step: Step)
    requires SoundTable(s.tasks)
    ensures SoundTable(Apply(s, step).tasks)
  {
    StepMoves(s, step);
    MovesKeepHonoured(s.tasks, Apply(s, step).tasks);
    MovesKeepRetries(s.tasks, Apply(s, step).tasks);
    StepKeepsGraph(s, step);
  }

  /** Moving rows along their life cycle, none added, keeps the table sound. */
  lemma MovesKeepTable(tasks: map<TaskId, Task>, tasks': map<TaskId, Task>)
    requires SoundTable(tasks) && TableStep(tasks, tasks') && tasks'.Keys == tasks.Keys
    ensures SoundTable(tasks')
  {
    MovesKeepHonoured(tasks, tasks');
    MovesKeepRetries(tasks, tasks');
    SameGraph(tasks, tasks');
    hide Honoured, RetriesBounded, DepsPresent, Acyclic, TableStep;
  }

  lemma StepKeepsGraph(s: State, step: Step)
    requires SoundTable(s.tasks)
    ensures DepsPresent(Apply(s, step).tasks) && Acyclic(Stored(Apply(s, step).tasks))
  {
    StepMoves(s, step);
    match step
    case SubmitOne(item) =>
      if Enqueue(s, item).Accepted? { SubmitKeepsGraph(s, item); }
    case SubmitMany(items) =>
      if BatchEnqueue(s, items).Accepted? { BatchKeepsGraph(s, items); }
    case _ =>
      StepKeepsKeys(s, step);
      SameGraph(s.tasks, Apply(s, step).tasks);
  }

  lemma StepKeepsKeys(s: State, step: Step)
    requires !step.SubmitOne? && !step.SubmitMany?
    ensures Apply(s, step).tasks.Keys == s.tasks.Keys
  {
    match step
    case DrainNotifications => DrainInOnePass(s);
    case Start(id) =>
      var w := AvailableWorker(s.pool);
      if id in s.tasks && w.Some? { AssignKeepsKeys(s, w.value, id); }
    case Heartbeat =>
      var s1 := HeartbeatAll(s);
      RecoverMoves(s1, DeadWorkers(s1, |s1.workers|));
    case Crash => SpawnKeepsTasks(s.(pool := [], runningTasks := 0, notifications := []), s.maxConcurrency);
    case _ =>
  }

  /** In every reachable state the table is sound: scheduled, running, completed and failed tasks have every dependency
      completed, every dependency is stored, the stored graph is acyclic, and retries stay within their limit. */
  lemma {:induction false} ReachableTables(now: Time, maxConcurrency: nat, steps: seq<Step>)
    ensures SoundTable(Exec(Init(now, maxConcurrency), steps).tasks)
  {
    if steps == [] {
      SpawnKeepsTasks(State(now, map[], map[], 0, [], [], 0, maxConcurrency, []), maxConcurrency);
      OrderImpliesAcyclic<TaskId>(map[], []);
    } else {
      ReachableTables(now, maxConcurrency, steps[..|steps| - 1]);
      StepKeepsTable(Exec(Init(now, maxConcurrency), steps[..|steps| - 1]), steps[|steps| - 1]);
    }
  }

  // ---------------------------------------------------------------------------------------------
  // Retry conservation

  predicate HasStatus(tasks: map<TaskId, Task>, id: TaskId, status: Status) {
    id in tasks && tasks[id].status == status
  }

  /** How often the task failed during the run. */
  ghost function Failures(s: State, steps: seq<Step>, id: TaskId): nat {
    if steps == [] then 0
    else
      var before := steps[..|steps| - 1];
      Failures(s, before, id) +
      if HasStatus(Exec(s, before).tasks, id, Running) && HasStatus(Exec(s, steps).tasks, id, Failed) then 1 else 0
  }

  ghost predicate RetriesBalance(tasks: map<TaskId, Task>, id: TaskId, failures: nat) {
    failures == if id in tasks then tasks[id].retryCount + (if tasks[id].status == Failed then 1 else 0) else 0
  }

  lemma MoveBalances(tasks: map<TaskId, Task>, tasks': map<TaskId, Task>, id: TaskId, failures: nat)
    requires TableStep(tasks, tasks') && RetriesBalance(tasks, id, failures)
    ensures RetriesBalance(tasks', id, failures +
              if HasStatus(tasks, id, Running) && HasStatus(tasks', id, Failed) then 1 else 0)
  {
    if id in tasks { assert Moves(tasks, tasks[id], tasks'[id]); }
  }

  /** Over every run, whatever the mix of retries, cancels and recoveries, each failure of a task is matched by one
      retry, except the last one of a task that is now failed. */
  lemma {:induction false} RetryConservation(now: Time, maxConcurrency: nat, steps: seq<Step>, id: TaskId)
    ensures var s := Init(now, maxConcurrency); RetriesBalance(Exec(s, steps).tasks, id, Failures(s, steps, id))
  {
    var s := Init(now, maxConcurrency);
    if steps == [] {
      SpawnKeepsTasks(State(now, map[], map[], 0, [], [], 0, maxConcurrency, []), maxConcurrency);
    } else {
      var before := steps[..|steps| - 1];
      RetryConservation(now, maxConcurrency, before, id);
      StepMoves(Exec(s, before), steps[|steps| - 1]);
      MoveBalances(Exec(s, before).tasks, Exec(s, steps).tasks, id, Failures(s, before, id));
    }
  }

  ghost predicate RetriesLimited(s: State, id: TaskId, failures: nat) {
    id in s.tasks && s.tasks[id].maxRetries >= 0 ==>
      && failures <= 1 + s.tasks[id].maxRetries
      && (s.tasks[id].status == Failed ==> (RetryTask(s, id).None? <==> failures == 1 + s.tasks[id].maxRetries))
  }

  /** So a task that may be retried `maxRetries` times fails at most once more than that, and when it has failed it can
      be retried exactly until it did. */
  lemma RetriesExhausted(now: Time, maxConcurrency: nat, steps: seq<Step>, id: TaskId)
    ensures var s0 := Init(now, maxConcurrency);
            RetriesLimited(Exec(s0, steps), id, Failures(s0, steps, id))
  {
    RetryConservation(now, maxConcurrency, steps, id);
    ReachableTables(now, maxConcurrency, steps);
    hide Exec, Init, Failures, Acyclic, DepsPresent, Honoured;
  }
}
