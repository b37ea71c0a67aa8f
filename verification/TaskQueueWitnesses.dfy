/** Runs from a fresh server that show what the theorems leave possible. */
module TaskQueueWitnesses {
  import opened Prelude
  import opened TaskQueue
  import opened TaskQueueRuns
  import opened TaskQueueTables
  import opened TaskQueuePool
  import opened TaskQueueSafety
  import opened TaskQueueLeases
  import opened TaskQueuePolls

  /** A task that needs one resource and nothing else. */
  function Sample(id: TaskId): Item {
    Item(id, TaskSpec(None, 5, [], [7], 3))
  }

  lemma SubmitSample(s: State, id: TaskId)
    requires id !in s.tasks
    ensures Apply(s, SubmitOne(Sample(id))) == s.(tasks := s.tasks[id := Submitted(Sample(id).spec, s.now)])
    ensures Submitted(Sample(id).spec, s.now).status == Scheduled
    ensures Submitted(Sample(id).spec, s.now).resources == [7] && NoDup([7])
  {
  }

  /** Two samples wait, two workers are free. */
  ghost predicate BothWait(s: State) {
    && s.now == 0 && s.workers == [WorkerRow(0, true), WorkerRow(0, true)]
    && s.pool == [PoolWorker(0, true, None), PoolWorker(1, true, None)]
    && s.tasks == map[1 := Submitted(Sample(1).spec, 0), 2 := Submitted(Sample(2).spec, 0)]
  }

  /** The first sample runs on the first worker. */
  ghost predicate FirstRuns(s: State) {
    && s.now == 0 && s.workers == [WorkerRow(0, true), WorkerRow(0, true)]
    && s.pool == [PoolWorker(0, true, Some(1)), PoolWorker(1, true, None)]
    && s.tasks == map[1 := StartedRow(Submitted(Sample(1).spec, 0), 0, Some(0)), 2 := Submitted(Sample(2).spec, 0)]
  }

  lemma FreshServer(s: State)
    requires s == Init(0, 2)
    ensures s.pool == [PoolWorker(0, true, None), PoolWorker(1, true, None)] && s.tasks == map[] && s.now == 0
    ensures s.workers == [WorkerRow(0, true), WorkerRow(0, true)]
  {
    var empty := State(0, map[], map[], 0, [], [], 0, 2, []);
    assert SpawnWorkers(empty, 2) == SpawnWorkers(SpawnWorker(empty), 1);
    assert SpawnWorkers(SpawnWorker(empty), 1) == SpawnWorkers(SpawnWorker(SpawnWorker(empty)), 0);
  }

  lemma SubmitBoth()
    ensures BothWait(Apply(Apply(Init(0, 2), SubmitOne(Sample(1))), SubmitOne(Sample(2))))
  {
    var s0 := Init(0, 2);
    FreshServer(s0);
    SubmitSample(s0, 1);
    hide Apply, Init, Submitted;
    SubmitSample(Apply(s0, SubmitOne(Sample(1))), 2);
  }

  lemma StartFirst(s: State)
    requires SoundServer(s) && BothWait(s)
    ensures FirstRuns(Apply(s, Start(1)))
  {
    SampleRow(1);
    SampleRow(2);
    assert AvailableWorker(s.pool) == Some(0);
    forall id ensures !Contends(s, id, s.tasks[1].resources) { NoClaim(s, id, s.tasks[1].resources); }
    StartOutcome(s, 1);
    FirstWorkerStarts(s, 1);
    hide SoundServer, Submitted, Apply, Contends;
  }

  lemma SampleRow(id: TaskId)
    ensures Submitted(Sample(id).spec, 0).status == Scheduled && Submitted(Sample(id).spec, 0).resources == [7]
    ensures NoDup(Submitted(Sample(id).spec, 0).resources)
  {
  }

  lemma NoClaim(s: State, id: TaskId, resources: seq<ResourceId>)
    requires forall x | x in s.tasks :: s.tasks[x].status == Scheduled
    ensures !Contends(s, id, resources)
  {
  }

  /** A start on the first worker of a fresh pool occupies that worker. */
  lemma FirstWorkerStarts(s: State, id: TaskId)
    requires s.pool == [PoolWorker(0, true, None), PoolWorker(1, true, None)]
    requires id in s.tasks && s.tasks[id].status == Scheduled
    ensures var s' := Apply(s, Start(id));
            id in s'.tasks && s'.tasks[id].status == Running ==>
              && s'.pool == [PoolWorker(0, true, Some(id)), PoolWorker(1, true, None)] && s'.workers == s.workers
              && s'.tasks == s.tasks[id := StartedRow(s.tasks[id], s.now, Some(0))] && s'.now == s.now
  {
    assert AvailableWorker(s.pool) == Some(0);
    assert s.pool[..1] == [PoolWorker(0, true, None)];
    assert FindWorker(s.pool, 0) == FindWorker(s.pool[..1], 0) == Some(0);
    AcquireKeepsTasks(s, id, s.tasks[id].resources, 0);
    hide AcquireLocks;
  }

  lemma ExecOne(s: State, a: Step)
    ensures Exec(s, [a]) == Apply(s, a)
  {
    assert [a][..0] == [];
    hide Apply;
  }

  lemma ExecTwo(s: State, a: Step, b: Step)
    ensures Exec(s, [a, b]) == Apply(Apply(s, a), b)
  {
    assert [a, b][..1] == [a] && [a][..0] == [];
    assert Exec(s, [a]) == Apply(Exec(s, []), a);
    hide Apply;
  }

  ghost const SETUP := [SubmitOne(Sample(1)), SubmitOne(Sample(2))] + [Start(1)]

  lemma SetUp(s: State)
    requires s == Exec(Init(0, 2), SETUP)
    ensures SoundServer(s) && FirstRuns(s)
  {
    ReachableServers(0, 2, SETUP);
    ReachableServers(0, 2, [SubmitOne(Sample(1)), SubmitOne(Sample(2))]);
    SubmitBoth();
    ExecAppend(Init(0, 2), [SubmitOne(Sample(1)), SubmitOne(Sample(2))], [Start(1)]);
    ExecTwo(Init(0, 2), SubmitOne(Sample(1)), SubmitOne(Sample(2)));
    var s2 := Exec(Init(0, 2), [SubmitOne(Sample(1)), SubmitOne(Sample(2))]);
    ExecOne(s2, Start(1));
    hide Exec, Init, SoundServer, BothWait;
    StartFirst(s2);
  }

  lemma AdvanceOnly(s: State, t: Time)
    requires t >= s.now
    ensures Apply(s, Advance(t)) == s.(now := t)
  {
  }

  /** A run in which a task is started while another one that shares its resource is still running: nothing ended the
      first one, but its lease is over. */
  lemma LeaseRunsOut()
    ensures var s := Exec(Init(0, 2), SETUP + [Advance(120001), Start(2)]);
            && 1 in s.tasks && 2 in s.tasks && s.tasks[1].status == s.tasks[2].status == Running
            && 7 in s.tasks[1].resources && 7 in s.tasks[2].resources
  {
    var s := Exec(Init(0, 2), SETUP);
    SetUp(s);
    var later := s.(now := 120001);
    AdvanceOnly(s, 120001);
    StepKeepsServer(s, Advance(120001));
    ExecAppend(Init(0, 2), SETUP, [Advance(120001), Start(2)]);
    ExecTwo(s, Advance(120001), Start(2));
    hide Exec, SoundServer, Apply;
    SecondMayStart(later);
    StartOutcome(later, 2);
    hide AssignEffect;
    SecondStarted(later, Apply(later, Start(2)));
  }

  lemma SecondMayStart(s: State)
    requires s.now == 120001 && FirstRuns(s.(now := 0))
    ensures 2 in s.tasks && s.tasks[2].status == Scheduled && AvailableWorker(s.pool).Some?
    ensures NoDup(s.tasks[2].resources) && forall id :: !Contends(s, id, s.tasks[2].resources)
  {
    assert AvailableWorker(s.pool) == AvailableWorker(s.pool[1..]);
    assert s.pool[1..] == [PoolWorker(1, true, None)];
  }

  lemma SecondStarted(s: State, s': State)
    requires FirstRuns(s.(now := 0)) && AssignEffect(s, 2, true, s')
    ensures 1 in s'.tasks && 2 in s'.tasks && s'.tasks[1].status == s'.tasks[2].status == Running
    ensures 7 in s'.tasks[1].resources && 7 in s'.tasks[2].resources
  {
    hide RowsKept, Acquirable;
  }

  /** A run in which a task is cancelled while it runs and its execution returns: both workers are free again, yet its
      row still keeps the other task from starting. */
  lemma CancelledStillBlocks()
    ensures var s := Exec(Init(0, 2), SETUP + [Cancel(1), FinishAt(0, true)]);
            && 1 in s.tasks && s.tasks[1].status == Cancelled && !InFlight(s, 1) && Owns(s, 1, 7)
            && 2 in s.tasks && s.tasks[2].status == Scheduled && AvailableWorker(s.pool).Some?
            && Apply(s, Start(2)).tasks == s.tasks
  {
    var s := Exec(Init(0, 2), SETUP);
    SetUp(s);
    StepKeepsServer(s, Cancel(1));
    StepKeepsServer(Apply(s, Cancel(1)), FinishAt(0, true));
    ExecAppend(Init(0, 2), SETUP, [Cancel(1), FinishAt(0, true)]);
    ExecTwo(s, Cancel(1), FinishAt(0, true));
    CancelThenFinish(s);
    var s' := Apply(Apply(s, Cancel(1)), FinishAt(0, true));
    hide Exec, SoundServer, Apply;
    OwnsExact(s', 1, 7);
    StartOutcome(s', 2);
    hide Contends, LeaseHolder, Owns, InFlight;
  }

  lemma CancelThenFinish(s: State)
    requires FirstRuns(s)
    ensures var s' := Apply(Apply(s, Cancel(1)), FinishAt(0, true));
            && 1 in s'.tasks && s'.tasks[1].status == Cancelled && !InFlight(s', 1)
            && 2 in s'.tasks && s'.tasks[2].status == Scheduled && AvailableWorker(s'.pool).Some?
            && LeaseHolder(s', 1) && 7 in s'.tasks[1].resources && Contends(s', 1, s'.tasks[2].resources)
  {
    var s1 := s.(tasks := s.tasks[1 := s.tasks[1].(status := Cancelled)]);
    assert Apply(s, Cancel(1)) == s1;
    var s' := Apply(s1, FinishAt(0, true));
    assert s' == s1.(pool := [PoolWorker(0, true, None), PoolWorker(1, true, None)],
                      runningTasks := s1.runningTasks - 1);
    hide Apply;
    assert AvailableWorker(s'.pool) == Some(0);
    assert 7 in s'.tasks[1].resources && 7 in s'.tasks[2].resources;
  }

  // ---------------------------------------------------------------------------------------------
  // A notification schedules what promotion never does

  const FIRST := Item(1, TaskSpec(None, 5, [], [], 3))
  const TWICE := Item(2, TaskSpec(None, 5, [1, 1], [], 3))
  const DONE := [SubmitOne(FIRST), SubmitOne(TWICE)] + ([Start(1), FinishAt(0, true)] + [Announce(1)])

  /** The second task waits for the first, which it names twice. */
  ghost predicate TwiceWaits(s: State) {
    && s.pool == [PoolWorker(0, true, None), PoolWorker(1, true, None)]
    && s.tasks.Keys == {1, 2}
    && s.tasks[1].status == Scheduled && s.tasks[1].resources == []
    && s.tasks[2].status == Pending && s.tasks[2].deps == [1, 1]
  }

  lemma SubmitTwice(s: State)
    requires s == Apply(Apply(Init(0, 2), SubmitOne(FIRST)), SubmitOne(TWICE))
    ensures TwiceWaits(s)
  {
    var s0 := Init(0, 2);
    FreshServer(s0);
    var s1 := Apply(s0, SubmitOne(FIRST));
    assert s1 == s0.(tasks := s0.tasks[1 := Submitted(FIRST.spec, s0.now)]);
    ExecOne(s0, SubmitOne(FIRST));
    ReachableTables(0, 2, [SubmitOne(FIRST)]);
    hide Init, Exec, SoundTable, Submitted;
    EnqueueExact(s1, TWICE);
    assert [TWICE][0] == TWICE;
    hide Enqueue;
    assert Enqueue(s1, TWICE).Accepted?;
    AddedRow(s1, Enqueue(s1, TWICE).state, TWICE);
    assert Submitted(FIRST.spec, s0.now).status == Scheduled && Submitted(FIRST.spec, s0.now).resources == [] by {
      FirstRow(s0.now);
    }
  }

  lemma FirstRow(now: Time)
    ensures Submitted(FIRST.spec, now).status == Scheduled && Submitted(FIRST.spec, now).resources == []
  {
  }

  lemma AddedRow(s: State, s': State, item: Item)
    requires AddsRows(s, s', [item]) && item.id !in s.tasks && item.spec.deps != []
    ensures s' == s.(tasks := s'.tasks) && s'.tasks.Keys == s.tasks.Keys + {item.id}
    ensures forall id | id in s.tasks :: s'.tasks[id] == s.tasks[id]
    ensures s'.tasks[item.id].status == Pending && s'.tasks[item.id].deps == item.spec.deps
  {
    assert [item][0] == item;
    forall id ensures id in s'.tasks.Keys <==> id in s.tasks.Keys + {item.id} {
      assert (exists j | 0 <= j < |[item]| :: [item][j].id == id) <==> item.id == id;
    }
  }

  /** A run whose next poll schedules a task only because it drains the notifications first: promotion alone would leave
      the task pending. */
  lemma NotificationMatters()
    ensures var s := Exec(Init(0, 2), DONE);
            && OnlyNotified(s, 2) && 2 in PreparePoll(s).tasks && 2 in Promote(s).tasks
            && PreparePoll(s).tasks[2].status == Scheduled && Promote(s).tasks[2].status == Pending
  {
    var a, b := [SubmitOne(FIRST), SubmitOne(TWICE)], [Start(1), FinishAt(0, true)];
    var s0 := Init(0, 2);
    var s2 := Exec(s0, a);
    ExecTwo(s0, SubmitOne(FIRST), SubmitOne(TWICE));
    SubmitTwice(s2);
    ReachableServers(0, 2, a);
    ExecAppend(s0, a, b + [Announce(1)]);
    ExecAppend(s2, b, [Announce(1)]);
    ExecTwo(s2, Start(1), FinishAt(0, true));
    ExecOne(Exec(s2, b), Announce(1));
    hide Exec, Init;
    RunFirst(s2);
    var s := Apply(Apply(Apply(s2, Start(1)), FinishAt(0, true)), Announce(1));
    hide Apply;
    PreparedRow(s, 2);
  }

  lemma RunFirst(s: State)
    requires SoundServer(s) && TwiceWaits(s)
    ensures OnlyNotified(Apply(Apply(Apply(s, Start(1)), FinishAt(0, true)), Announce(1)), 2)
  {
    assert AvailableWorker(s.pool) == Some(0);
    assert NoDup(s.tasks[1].resources) && forall id :: !Contends(s, id, s.tasks[1].resources);
    StartOutcome(s, 1);
    FirstWorkerStarts(s, 1);
    var s1 := Apply(s, Start(1));
    assert s1.tasks[1].status == Running && s1.tasks[2] == s.tasks[2];
    hide SoundServer, AssignEffect;
    FinishFirst(s1);
  }

  lemma FinishFirst(s: State)
    requires s.pool == [PoolWorker(0, true, Some(1)), PoolWorker(1, true, None)]
    requires s.tasks.Keys == {1, 2} && s.tasks[1].status == Running
    requires s.tasks[2].status == Pending && s.tasks[2].deps == [1, 1]
    ensures OnlyNotified(Apply(Apply(s, FinishAt(0, true)), Announce(1)), 2)
  {
    var s1 := Apply(s, FinishAt(0, true));
    assert s1.tasks[1].status == Completed && s1.tasks[2] == s.tasks[2];
    var s2 := Apply(s1, Announce(1));
    assert s2 == s1.(notifications := s1.notifications + [1]);
    assert s2.notifications[|s1.notifications|] == 1;
    assert [1, 1][0] == [1, 1][1];
    assert Notified(s2.notifications, s2.tasks[2].deps) by { assert 1 in s2.notifications && 1 in s2.tasks[2].deps; }
  }

  // ---------------------------------------------------------------------------------------------
  // A hopeless task keeps the only worker idle

  const HOPELESS := Item(1, TaskSpec(None, 9, [], [7, 7], 3))
  const READY := Item(2, TaskSpec(None, 5, [], [], 3))

  /** The hopeless task comes first, and the only worker is free. */
  ghost predicate OneHopeless(s: State) {
    && s.pool == [PoolWorker(0, true, None)] && s.maxConcurrency == 1 && s.tasks.Keys == {1, 2}
    && s.tasks[1].status == s.tasks[2].status == Scheduled
    && s.tasks[1].resources == [7, 7] && s.tasks[2].resources == []
    && s.tasks[1].priority == 9 && s.tasks[2].priority == 5
  }

  lemma SubmitHopeless()
    ensures OneHopeless(Apply(Apply(Init(0, 1), SubmitOne(HOPELESS)), SubmitOne(READY)))
  {
    var s0 := Init(0, 1);
    OneWorker(s0);
    SubmitRow(s0, HOPELESS);
    hide Init, Apply, Submitted;
    SubmitRow(Apply(s0, SubmitOne(HOPELESS)), READY);
  }

  lemma HopelessStarves(s: State)
    requires SoundServer(s) && OneHopeless(s)
    ensures Starving(s, {1})
  {
    hide SoundServer;
    NothingPending(s);
    hide PreparePoll;
    assert [7, 7][0] == [7, 7][1];
  }

  lemma ReadyStarts(s: State)
    requires SoundServer(s) && OneHopeless(s)
    ensures AvailableWorker(s.pool).Some? && 2 in s.tasks && s.tasks[2].status == Scheduled
    ensures 2 in Apply(s, Start(2)).tasks && Apply(s, Start(2)).tasks[2].status == Running
  {
    assert AvailableWorker(s.pool) == Some(0);
    assert NoDup(s.tasks[2].resources) && forall id :: !Contends(s, id, s.tasks[2].resources);
    hide SoundServer, Apply, Contends;
    StartOutcome(s, 2);
    hide RowsKept;
  }

  /** A run into a state in which every poll starts nothing, for ever, though a worker is free and a task could
      start. */
  lemma StarvingRun()
    ensures var s := Exec(Init(0, 1), [SubmitOne(HOPELESS), SubmitOne(READY)]);
            && Starving(s, {1}) && AvailableWorker(s.pool).Some? && 2 in s.tasks && s.tasks[2].status == Scheduled
            && 2 in Apply(s, Start(2)).tasks && Apply(s, Start(2)).tasks[2].status == Running
  {
    hide *;
    var s := Exec(Init(0, 1), [SubmitOne(HOPELESS), SubmitOne(READY)]);
    ExecTwo(Init(0, 1), SubmitOne(HOPELESS), SubmitOne(READY));
    ReachableServers(0, 1, [SubmitOne(HOPELESS), SubmitOne(READY)]);
    SubmitHopeless();
    HopelessStarves(s);
    ReadyStarts(s);
  }

  lemma OneWorker(s: State)
    requires s == Init(0, 1)
    ensures s.pool == [PoolWorker(0, true, None)] && s.tasks == map[] && s.maxConcurrency == 1
  {
    var empty := State(0, map[], map[], 0, [], [], 0, 1, []);
    assert SpawnWorkers(empty, 1) == SpawnWorkers(SpawnWorker(empty), 0);
  }

  lemma SubmitRow(s: State, item: Item)
    requires item.id !in s.tasks && item.spec.deps == [] && 0 <= item.spec.priority <= 9
    ensures Apply(s, SubmitOne(item)) == s.(tasks := s.tasks[item.id := Submitted(item.spec, s.now)])
    ensures Submitted(item.spec, s.now) == NewTask(item.spec, s.now).(status := Scheduled)
  {
  }

  lemma NothingPending(s: State)
    requires forall id | id in s.tasks :: s.tasks[id].status == Scheduled
    ensures PreparePoll(s).tasks == s.tasks
  {
    forall id | id in s.tasks ensures id in PreparePoll(s).tasks && PreparePoll(s).tasks[id] == s.tasks[id] {
      PreparedRow(s, id);
    }
    DrainInOnePass(s);
  }
}
