/** What a heartbeat tick recovers, and that nothing runs for ever on a worker whose process died. */
module TaskQueueRecovery {
  import opened Prelude
  import opened TaskQueue
  import opened TaskQueueRuns
  import opened TaskQueuePool
  import opened TaskQueueSafety

  predicate InPool(s: State, w: WorkerId) {
    exists i | 0 <= i < |s.pool| :: s.pool[i].id == w
  }

  /** The row is active, belongs to no worker of this process, and has not been refreshed for a minute. */
  predicate Gone(s: State, w: WorkerId) {
    w < |s.workers| && s.workers[w].active && s.workers[w].heartbeat <= s.now - 60000 && !InPool(s, w)
  }

  /** The row says the task runs on one of these workers. */
  predicate RunsOn(t: Task, gone: set<WorkerId>) {
    t.status == Running && t.worker.Some? && t.worker.value in gone
  }

  /** What the tables hold after these workers were recovered. */
  ghost predicate Recovered(s: State, gone: set<WorkerId>, s': State) {
    && s' == s.(tasks := s'.tasks, locks := s'.locks, workers := s'.workers)
    && s'.tasks.Keys == s.tasks.Keys
    && (forall id | id in s.tasks :: s'.tasks[id] ==
          if RunsOn(s.tasks[id], gone) then s.tasks[id].(status := Scheduled, worker := None, started := None)
          else s.tasks[id])
    && (forall k :: k in s'.locks <==> k in s.locks && s.locks[k].worker !in gone)
    && (forall k | k in s'.locks :: s'.locks[k] == s.locks[k])
    && |s'.workers| == |s.workers|
    && (forall w | 0 <= w < |s.workers| :: s'.workers[w] ==
          if w in gone then s.workers[w].(active := false) else s.workers[w])
  }

  lemma RecoverNobody(s: State)
    ensures Recovered(s, {}, s)
  {
  }

  lemma RecoverOne(s: State, w: WorkerId)
    requires w < |s.workers| && !InPool(s, w)
    ensures RecoverWorker(s, w) == RecoverTasks(s, w) && Recovered(s, {w}, RecoverTasks(s, w))
  {
  }

  lemma RecoverMore(a: State, gone: set<WorkerId>, b: State, more: set<WorkerId>, c: State)
    requires Recovered(a, gone, b) && Recovered(b, more, c)
    ensures Recovered(a, gone + more, c)
  {
  }

  lemma {:induction false} RecoverAll(s: State, dead: seq<WorkerId>)
    requires forall i | 0 <= i < |dead| :: dead[i] < |s.workers| && !InPool(s, dead[i])
    ensures Recovered(s, Elems(dead), RecoverWorkers(s, dead))
    decreases |dead|
  {
    if dead == [] {
      RecoverNobody(s);
      assert Elems(dead) == {};
    } else {
      RecoverOne(s, dead[0]);
      var s1 := RecoverTasks(s, dead[0]);
      RecoverAll(s1, dead[1..]);
      assert Elems(dead) == {dead[0]} + Elems(dead[1..]) by {
        assert dead == [dead[0]] + dead[1..];
      }
      RecoverMore(s, {dead[0]}, s1, Elems(dead[1..]), RecoverWorkers(s1, dead[1..]));
    }
  }

  lemma DeadAreGone(s: State)
    ensures Elems(DeadWorkers(HeartbeatAll(s), |s.workers|)) == set w | 0 <= w < |s.workers| && Gone(s, w)
    ensures forall w | w in DeadWorkers(HeartbeatAll(s), |s.workers|) :: !InPool(s, w)
  {
    var s1 := HeartbeatAll(s);
    forall w | 0 <= w < |s.workers|
      ensures InPool(s, w) == exists p | p in s.pool :: p.id == w
    {
      if InPool(s, w) {
        var i :| 0 <= i < |s.pool| && s.pool[i].id == w;
        assert s.pool[i] in s.pool;
      }
    }
  }

  /** What a heartbeat tick does: the rows of the pool are refreshed; every other active row at least a minute old
      becomes inactive, the tasks that ran on it wait for their turn again, and its lock rows are gone. Nothing else
      changes. */
  ghost predicate TickEffect(s: State, s': State) {
    && s' == s.(tasks := s'.tasks, locks := s'.locks, workers := s'.workers)
    && s'.tasks.Keys == s.tasks.Keys
    && (forall id | id in s.tasks :: var t := s.tasks[id];
          s'.tasks[id] ==
          if t.status == Running && t.worker.Some? && Gone(s, t.worker.value)
          then t.(status := Scheduled, worker := None, started := None) else t)
    && (forall k :: k in s'.locks <==> k in s.locks && !Gone(s, s.locks[k].worker))
    && (forall k | k in s'.locks :: s'.locks[k] == s.locks[k])
    && |s'.workers| == |s.workers|
    && (forall w | 0 <= w < |s.workers| :: s'.workers[w] ==
          if InPool(s, w) then WorkerRow(s.now, true)
          else if Gone(s, w) then WorkerRow(s.workers[w].heartbeat, false) else s.workers[w])
  }

  lemma RefreshedRows(s: State)
    ensures HeartbeatAll(s) == s.(workers := HeartbeatAll(s).workers)
    ensures forall w | 0 <= w < |s.workers| ::
              HeartbeatAll(s).workers[w] == if InPool(s, w) then WorkerRow(s.now, true) else s.workers[w]
  {
    forall w | 0 <= w < |s.workers|
      ensures InPool(s, w) == exists p | p in s.pool :: p.id == w
    {
      if InPool(s, w) {
        var i :| 0 <= i < |s.pool| && s.pool[i].id == w;
        assert s.pool[i] in s.pool;
      }
    }
  }

  ghost function GoneRows(s: State): set<WorkerId> {
    set w | 0 <= w < |s.workers| && Gone(s, w)
  }

  lemma TickIsRecovery(s: State)
    ensures Recovered(HeartbeatAll(s), GoneRows(s), HeartbeatTick(s))
  {
    var s1 := HeartbeatAll(s);
    RefreshedRows(s);
    DeadAreGone(s);
    assert forall w :: InPool(s1, w) == InPool(s, w);
    RecoverAll(s1, DeadWorkers(s1, |s1.workers|));
    hide HeartbeatAll, DeadWorkers, RecoverWorkers, InPool, Recovered, Gone;
  }

  /** In every state. */
  lemma TickRecovers(s: State)
    ensures TickEffect(s, HeartbeatTick(s))
  {
    TickIsRecovery(s);
    RefreshedRows(s);
    assert forall w: WorkerId :: w in GoneRows(s) <==> Gone(s, w);
    hide HeartbeatAll, HeartbeatTick, InPool, GoneRows;
  }

  // ---------------------------------------------------------------------------------------------
  // After a crash

  /** No row was refreshed in the future. */
  ghost predicate HeartbeatsPast(s: State) {
    forall w | 0 <= w < |s.workers| :: s.workers[w].heartbeat <= s.now
  }

  /** The rows outside the pool were last refreshed at this time or before. */
  ghost predicate StaleOutside(s: State, time: Time) {
    forall w | 0 <= w < |s.workers| && !InPool(s, w) :: s.workers[w].heartbeat <= time
  }

  /** The same rows, and the same workers in the pool. */
  ghost predicate SameWorkers(s: State, s': State) {
    && s'.workers == s.workers && s'.now >= s.now && s'.maxConcurrency == s.maxConcurrency
    && |s'.pool| == |s.pool| && forall i | 0 <= i < |s.pool| :: s'.pool[i].id == s.pool[i].id
  }

  lemma StepKeepsWorkers(s: State, step: Step)
    requires !step.Heartbeat? && !step.Crash?
    ensures SameWorkers(s, Apply(s, step))
  {
    match step
    case Start(id) =>
      var w := AvailableWorker(s.pool);
      if id in s.tasks && s.tasks[id].status == Scheduled && w.Some? {
        AcquireKeepsTasks(s, id, s.tasks[id].resources, w.value);
      }
    case FinishAt(_, _) =>
    case _ => QuietApply(s, step);
  }

  lemma SamePoolMembers(s: State, s': State)
    requires SameWorkers(s, s')
    ensures forall w :: InPool(s', w) == InPool(s, w)
  {
    forall w ensures InPool(s', w) == InPool(s, w) {
      if InPool(s, w) {
        var i :| 0 <= i < |s.pool| && s.pool[i].id == w;
        assert s'.pool[i].id == w;
      }
    }
  }

  /** A new process on the same database: tasks and lock rows stay, executions and notifications are forgotten, and a
      pool of idle workers is registered under new ids. */
  ghost predicate Restarted(s: State, s': State) {
    && s' == s.(workers := s'.workers, pool := s'.pool, runningTasks := 0, notifications := [])
    && |s'.workers| == |s.workers| + s.maxConcurrency && |s'.pool| == s.maxConcurrency
    && (forall w | 0 <= w < |s.workers| :: s'.workers[w] == s.workers[w])
    && (forall w | |s.workers| <= w < |s'.workers| :: s'.workers[w] == WorkerRow(s.now, true))
    && (forall i | 0 <= i < |s'.pool| :: s'.pool[i] == PoolWorker(|s.workers| + i, true, None))
  }

  /** `n` idle workers more, each with a row of its own refreshed now. */
  ghost predicate Spawned(s: State, n: nat, s': State) {
    && s' == s.(workers := s'.workers, pool := s'.pool)
    && |s'.workers| == |s.workers| + n && |s'.pool| == |s.pool| + n
    && (forall w | 0 <= w < |s.workers| :: s'.workers[w] == s.workers[w])
    && (forall i | 0 <= i < |s.pool| :: s'.pool[i] == s.pool[i])
    && (forall w | |s.workers| <= w < |s'.workers| :: s'.workers[w] == WorkerRow(s.now, true))
    && (forall i | |s.pool| <= i < |s'.pool| :: s'.pool[i] == PoolWorker(|s.workers| + i - |s.pool|, true, None))
  }

  lemma {:induction false} SpawnsExact(s: State, n: nat)
    ensures Spawned(s, n, SpawnWorkers(s, n))
    decreases n
  {
    if n > 0 {
      var s1 := SpawnWorker(s);
      SpawnsExact(s1, n - 1);
    }
  }

  lemma CrashExact(s: State)
    ensures Restarted(s, Apply(s, Crash))
  {
    SpawnsExact(s.(pool := [], runningTasks := 0, notifications := []), s.maxConcurrency);
    hide SpawnWorkers;
  }

  /** In every run the pool has as many workers as the concurrency limit says. */
  lemma {:induction false} PoolKeepsSize(now: Time, maxConcurrency: nat, steps: seq<Step>)
    ensures var s := Exec(Init(now, maxConcurrency), steps);
            |s.pool| == maxConcurrency && s.maxConcurrency == maxConcurrency
  {
    if steps == [] {
      SpawnsExact(State(now, map[], map[], 0, [], [], 0, maxConcurrency, []), maxConcurrency);
    } else {
      PoolKeepsSize(now, maxConcurrency, steps[..|steps| - 1]);
      SizeStep(Exec(Init(now, maxConcurrency), steps[..|steps| - 1]), steps[|steps| - 1]);
      hide Apply, Init;
    }
  }

  lemma SizeStep(s: State, step: Step)
    requires |s.pool| == s.maxConcurrency
    ensures var s' := Apply(s, step); |s'.pool| == s'.maxConcurrency == s.maxConcurrency
  {
    match step
    case Heartbeat => TickRecovers(s);
    case Crash => CrashExact(s);
    case _ => StepKeepsWorkers(s, step);
  }

  lemma StepKeepsPast(s: State, step: Step)
    requires HeartbeatsPast(s)
    ensures HeartbeatsPast(Apply(s, step))
  {
    match step
    case Heartbeat => TickRecovers(s);
    case Crash => CrashExact(s);
    case _ => StepKeepsWorkers(s, step);
  }

  lemma InitPast(now: Time, maxConcurrency: nat)
    ensures HeartbeatsPast(Init(now, maxConcurrency))
  {
    var empty := State(now, map[], map[], 0, [], [], 0, maxConcurrency, []);
    CrashExact(empty);
    assert Init(now, maxConcurrency) == Apply(empty, Crash);
  }

  lemma {:induction false} RunsKeepPast(now: Time, maxConcurrency: nat, steps: seq<Step>)
    ensures HeartbeatsPast(Exec(Init(now, maxConcurrency), steps))
  {
    if steps == [] {
      InitPast(now, maxConcurrency);
    } else {
      RunsKeepPast(now, maxConcurrency, steps[..|steps| - 1]);
      StepKeepsPast(Exec(Init(now, maxConcurrency), steps[..|steps| - 1]), steps[|steps| - 1]);
    }
  }

  lemma StepKeepsStale(s: State, step: Step, time: Time)
    requires StaleOutside(s, time) && !step.Crash?
    ensures StaleOutside(Apply(s, step), time)
  {
    if step.Heartbeat? {
      TickRecovers(s);
      assert forall w :: InPool(HeartbeatTick(s), w) == InPool(s, w);
    } else {
      StepKeepsWorkers(s, step);
      SamePoolMembers(s, Apply(s, step));
    }
    hide InPool, HeartbeatTick;
  }

  lemma {:induction false} RunKeepsStale(s: State, steps: seq<Step>, time: Time)
    requires StaleOutside(s, time) && forall step | step in steps :: !step.Crash?
    ensures StaleOutside(Exec(s, steps), time)
  {
    if steps != [] {
      RunKeepsStale(s, steps[..|steps| - 1], time);
      StepKeepsStale(Exec(s, steps[..|steps| - 1]), steps[|steps| - 1], time);
      hide Apply, StaleOutside;
    }
  }

  /** A tick leaves no task running on a worker outside the pool when the rows outside are a minute old. */
  lemma TickLeavesNoOrphan(s: State, time: Time, id: TaskId)
    requires SoundServer(s) && StaleOutside(s, time) && time + 60000 <= s.now
    requires id in HeartbeatTick(s).tasks && HeartbeatTick(s).tasks[id].status == Running
    ensures var t := HeartbeatTick(s).tasks[id]; t.worker.Some? && InPool(HeartbeatTick(s), t.worker.value)
  {
    TickRecovers(s);
    var s' := HeartbeatTick(s);
    assert s'.pool == s.pool;
    assert Claims(s.tasks[id], s.workers);
    hide HeartbeatTick, SoundLocks, SoundLeases, SoundPool;
  }

  lemma StaleAfterCrash(now: Time, maxConcurrency: nat, before: seq<Step>, later: seq<Step>)
    requires forall step | step in later :: !step.Crash?
    ensures var s0 := Exec(Init(now, maxConcurrency), before); StaleOutside(Exec(s0, [Crash] + later), s0.now)
  {
    var s0 := Exec(Init(now, maxConcurrency), before);
    RunsKeepPast(now, maxConcurrency, before);
    StepKeepsPast(s0, Crash);
    CrashExact(s0);
    assert StaleOutside(Apply(s0, Crash), s0.now);
    hide Apply, Init, StaleOutside;
    RunKeepsStale(Apply(s0, Crash), later, s0.now);
    ExecCons(s0, Crash, later);
  }

  lemma ExecSnoc(s: State, steps: seq<Step>, step: Step)
    ensures Exec(s, steps + [step]) == Apply(Exec(s, steps), step)
  {
    assert (steps + [step])[..|steps|] == steps;
    hide Apply;
  }

  lemma TickStep(s: State)
    ensures Apply(s, Heartbeat) == HeartbeatTick(s)
  {
    hide HeartbeatTick;
  }

  /** When the process dies and a new one works on the same database in any way for a minute, the next heartbeat tick
      leaves no task running on a worker that the new process does not have. */
  lemma OrphansRecovered(now: Time, maxConcurrency: nat, before: seq<Step>, later: seq<Step>, id: TaskId)
    requires forall step | step in later :: !step.Crash?
    requires var s0 := Exec(Init(now, maxConcurrency), before);
             Exec(s0, [Crash] + later).now >= s0.now + 60000
    requires var s := Exec(Init(now, maxConcurrency), before + ([Crash] + later) + [Heartbeat]);
             id in s.tasks && s.tasks[id].status == Running
    ensures var s := Exec(Init(now, maxConcurrency), before + ([Crash] + later) + [Heartbeat]);
            s.tasks[id].worker.Some? && InPool(s, s.tasks[id].worker.value)
  {
    var start, all := Init(now, maxConcurrency), before + ([Crash] + later);
    hide *;
    StaleAfterCrash(now, maxConcurrency, before, later);
    ExecAppend(start, before, [Crash] + later);
    ExecSnoc(start, all, Heartbeat);
    ReachableServers(now, maxConcurrency, all);
    TickStep(Exec(start, all));
    TickLeavesNoOrphan(Exec(start, all), Exec(start, before).now, id);
  }
}
