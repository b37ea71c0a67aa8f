/** What polling achieves over time: full conservation while a poll fetches every scheduled task, and starvation when it
    keeps fetching tasks that can never start. */
module TaskQueuePolls {
  import opened Prelude
  import opened TaskQueue
  import opened TaskQueueRuns
  import opened TaskQueuePool
  import opened TaskQueueSafety

  /** Strictly more urgent, or as urgent and not younger. */
  predicate NotLater(a: Task, b: Task) {
    a.priority > b.priority || (a.priority == b.priority && a.created <= b.created)
  }

  /** The higher number goes first, within one priority the older task, and no scheduled task is left out that would
      come before a fetched one or for which there was room. */
  lemma FetchOrder(tasks: map<TaskId, Task>, limit: nat, fetched: seq<TaskId>)
    requires IsFetch(tasks, limit, fetched)
    ensures forall i | 0 <= i < |fetched| :: fetched[i] in tasks && tasks[fetched[i]].status == Scheduled
    ensures forall i, j | 0 <= i < j < |fetched| :: NotLater(tasks[fetched[i]], tasks[fetched[j]])
    ensures forall id, f | id in tasks && tasks[id].status == Scheduled && id !in fetched && f in fetched ::
              f in tasks && NotLater(tasks[f], tasks[id])
    ensures |fetched| < limit ==> forall id | id in tasks && tasks[id].status == Scheduled :: id in fetched
  {
    forall i | 0 <= i < |fetched| ensures fetched[i] in tasks && tasks[fetched[i]].status == Scheduled {
      var id := fetched[i];
      assert id in fetched;
    }
    assert forall a, b :: NotLater(a, b) == !Ahead(b, a);
  }

  ghost predicate Repeats(s: State, id: TaskId) {
    id in s.tasks && !NoDup(s.tasks[id].resources)
  }

  /** A poll that fetched only tasks which name a resource twice starts nothing. */
  lemma {:induction false} AssignNothing(s: State, fetched: seq<TaskId>)
    requires SoundServer(s) && AllScheduled(s.tasks, fetched) && forall id | id in fetched :: Repeats(s, id)
    ensures AssignAll(s, fetched).1 == []
    ensures var s' := AssignAll(s, fetched).0; SoundServer(s') && s' == s.(locks := s'.locks, nextLock := s'.nextLock)
    decreases |fetched|
  {
    var w := AvailableWorker(s.pool);
    if fetched != [] && w.Some? {
      var id, rest := fetched[0], fetched[1..];
      assert [id] + rest == fetched;
      AssignOutcome(s, w.value, id);
      RefusedAssign(s, w.value, id);
      var s1 := AssignTask(s, w.value, id).1;
      RestScheduled(s.tasks, s1.tasks, id, rest);
      hide SoundServer, AllScheduled, AssignTask, AssignEffect, NoDup;
      AssignNothing(s1, rest);
    }
  }

  lemma RefusedAssign(s: State, w: WorkerId, id: TaskId)
    requires Repeats(s, id) && AssignEffect(s, id, AssignTask(s, w, id).0, AssignTask(s, w, id).1)
    ensures !AssignTask(s, w, id).0
    ensures var s' := AssignTask(s, w, id).1; s' == s.(locks := s'.locks, nextLock := s'.nextLock)
  {
    AcquireKeepsTasks(s, id, s.tasks[id].resources, w);
    hide AcquireLocks, RowsKept;
  }

  /** At least as many scheduled tasks as a poll fetches name a resource twice and come before all other scheduled
      tasks, and nothing is ready for promotion. */
  ghost predicate Starving(s: State, hopeless: set<TaskId>) {
    && SoundServer(s) && PreparePoll(s).tasks == s.tasks && |hopeless| >= s.maxConcurrency
    && (forall h | h in hopeless :: Repeats(s, h) && s.tasks[h].status == Scheduled)
    && (forall h, id | h in hopeless && id in s.tasks && s.tasks[id].status == Scheduled && id !in hopeless ::
          Ahead(s.tasks[h], s.tasks[id]))
  }

  lemma FetchesHopeless(s: State, hopeless: set<TaskId>, fetched: seq<TaskId>)
    requires Starving(s, hopeless) && IsFetch(s.tasks, s.maxConcurrency, fetched)
    ensures forall id | id in fetched :: id in hopeless
  {
    forall f | f in fetched ensures f in hopeless {
      if f !in hopeless {
        var h := SomeMissing(hopeless, fetched, f);
      }
    }
  }

  /** So polling can start nothing for ever, though workers are free and other tasks could start: every poll leaves the
      tasks and the pool as they are. */
  lemma StarvesForever(s: State, hopeless: set<TaskId>, fetched: seq<TaskId>)
    requires Starving(s, hopeless)
    requires IsFetch(PreparePoll(s).tasks, PreparePoll(s).maxConcurrency, fetched)
    ensures AssignAll(PreparePoll(s), fetched).1 == []
    ensures var s' := AssignAll(PreparePoll(s), fetched).0;
            s'.tasks == s.tasks && s'.pool == s.pool && Starving(s', hopeless)
  {
    var s1 := PreparePoll(s);
    PreparedOnly(s);
    FetchesHopeless(s, hopeless, fetched);
    PreparedSound(s);
    assert AllScheduled(s1.tasks, fetched);
    AssignNothing(s1, fetched);
    var s' := AssignAll(s1, fetched).0;
    hide SoundServer, AllScheduled, AssignAll, IsFetch, NoDup;
    PreparedAgain(s, s');
    hide PreparePoll;
  }

  lemma PreparedOnly(s: State)
    ensures PreparePoll(s) == s.(tasks := PreparePoll(s).tasks, notifications := [])
  {
    DrainInOnePass(s);
  }

  lemma PreparedSound(s: State)
    requires SoundServer(s)
    ensures SoundServer(PreparePoll(s))
  {
    hide SoundServer;
    StepKeepsServer(s, DrainNotifications);
    assert Apply(s, DrainNotifications) == ProcessNotifications(s);
    StepKeepsServer(ProcessNotifications(s), PromotePending);
    assert Apply(ProcessNotifications(s), PromotePending) == PreparePoll(s);
  }

  /** What a poll's promotions left as it was, the next poll's leave too. */
  lemma PreparedAgain(s: State, s': State)
    requires PreparePoll(s).tasks == s.tasks == s'.tasks && s'.notifications == []
    ensures PreparePoll(s').tasks == s'.tasks
  {
    forall id | id in s.tasks ensures id in PreparePoll(s').tasks && PreparePoll(s').tasks[id] == s'.tasks[id] {
      PreparedRow(s, id);
      PreparedRow(s', id);
    }
    DrainInOnePass(s');
  }

  lemma ScheduledFetched(s: State, fetched: seq<TaskId>)
    requires IsFetch(s.tasks, s.maxConcurrency, fetched)
    requires |set id | id in s.tasks && s.tasks[id].status == Scheduled| <= s.maxConcurrency
    ensures forall id | id in s.tasks && s.tasks[id].status == Scheduled :: id in fetched
  {
    var scheduled := set id | id in s.tasks && s.tasks[id].status == Scheduled;
    forall y | y in fetched ensures y in scheduled {
      var i :| 0 <= i < |fetched| && fetched[i] == y;
      assert s.tasks[y].status == Scheduled;
    }
    if id :| id in scheduled && id !in fetched { AllListed(scheduled, fetched); }
  }

  /** With no more scheduled tasks than a poll fetches, a poll leaves a worker free only when every task still scheduled
      is blocked. */
  lemma FullConservation(now: Time, maxConcurrency: nat, steps: seq<Step>, fetched: seq<TaskId>)
    requires var s1 := PreparePoll(Exec(Init(now, maxConcurrency), steps));
             && IsFetch(s1.tasks, s1.maxConcurrency, fetched)
             && |set id | id in s1.tasks && s1.tasks[id].status == Scheduled| <= s1.maxConcurrency
    ensures var s1 := PreparePoll(Exec(Init(now, maxConcurrency), steps)); var s' := AssignAll(s1, fetched).0;
            || AvailableWorker(s'.pool).None?
            || forall id | id in s'.tasks && s'.tasks[id].status == Scheduled :: Blocked(s', id)
  {
    PollConserves(now, maxConcurrency, steps, fetched);
    var s1 := PreparePoll(Exec(Init(now, maxConcurrency), steps));
    ScheduledFetched(s1, fetched);
    var r := AssignAll(s1, fetched);
    hide Exec, Init, PreparePoll, AssignAll, Blocked, IsFetch, RowsKept, Subsequence;
    assert r.0.tasks.Keys == s1.tasks.Keys;
    forall id | id in r.0.tasks && r.0.tasks[id].status == Scheduled && AvailableWorker(r.0.pool).Some?
      ensures Blocked(r.0, id)
    {
      if id in r.1 { SubsequenceElements(r.1, fetched); }
    }
  }
}
