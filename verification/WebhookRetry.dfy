/** The webhook sender: a bounded retry queue, a pending list ordered by due time, a bounded number of retries. */
module WebhookRetry {
  import opened Prelude

  /** The capacity of the retry channel. */
  const CAPACITY := 1024

  datatype Config = Config(maxRetries: int, baseBackoff: int, maxBackoff: int)

  function Power(n: nat): nat {
    if n == 0 then 1 else 2 * Power(n - 1)
  }

  /** `backoff`: the base doubled `attempt` times, capped. */
  function BackOff(c: Config, attempt: nat): int {
    var d := c.baseBackoff * Power(attempt);
    if d > c.maxBackoff then c.maxBackoff else d
  }

  /** A failed message waiting for its next retry; `msg` tells the messages apart. */
  datatype Job = Job(msg: nat, attempt: nat, nextRetry: int)

  /** One request sent: for which message, when, whether it succeeded and, for a retry, when it was due. */
  datatype Request = Request(msg: nat, due: Option<int>, at: int, ok: bool)

  /** The sender between two steps, with the messages seen so far and what became of the finished ones. */
  datatype State = State(queue: seq<Job>, pending: seq<Job>, sent: nat, log: seq<Request>,
                         delivered: multiset<nat>, failed: multiset<nat>, dropped: multiset<nat>)

  ghost predicate Sorted(jobs: seq<Job>) {
    forall i, j | 0 <= i < j < |jobs| :: jobs[i].nextRetry <= jobs[j].nextRetry
  }

  // ---------------------------------------------------------------------------------------------
  // Insertion by due time

  /** The first position whose job is due strictly later. */
  function InsertionPoint(jobs: seq<Job>, due: int): (k: nat)
    ensures k <= |jobs|
    ensures forall i | 0 <= i < k :: jobs[i].nextRetry <= due
    ensures k < |jobs| ==> due < jobs[k].nextRetry
  {
    if jobs == [] || due < jobs[0].nextRetry then 0 else 1 + InsertionPoint(jobs[1..], due)
  }

  function Insert(jobs: seq<Job>, job: Job): seq<Job> {
    var k := InsertionPoint(jobs, job.nextRetry);
    jobs[..k] + [job] + jobs[k..]
  }

  /** The insertion loop. */
  method InsertByTime(jobs: seq<Job>, job: Job) returns (r: seq<Job>)
    ensures r == Insert(jobs, job)
  {
    for i := 0 to |jobs|
      invariant forall j | 0 <= j < i :: jobs[j].nextRetry <= job.nextRetry
    {
      if job.nextRetry < jobs[i].nextRetry {
        return jobs[..i] + [job] + jobs[i..];
      }
    }
    r := jobs + [job];
    assert jobs[..|jobs|] + [job] + jobs[|jobs|..] == r;
  }

  /** A sorted list stays sorted, gains exactly the new job, and keeps the others in their order. */
  lemma InsertExact(jobs: seq<Job>, job: Job)
    requires Sorted(jobs)
    ensures Sorted(Insert(jobs, job)) && multiset(Insert(jobs, job)) == multiset(jobs) + multiset{job}
    ensures exists k | 0 <= k <= |jobs| :: Insert(jobs, job)[k] == job
              && Insert(jobs, job)[..k] + Insert(jobs, job)[k + 1..] == jobs
  {
    InsertSorted(jobs, job);
    InsertPermutes(jobs, job);
    var k := InsertKeepsOrder(jobs, job);
    hide *;
  }

  lemma InsertPermutes(jobs: seq<Job>, job: Job)
    ensures multiset(Insert(jobs, job)) == multiset(jobs) + multiset{job}
  {
    var k := InsertionPoint(jobs, job.nextRetry);
    assert jobs == jobs[..k] + jobs[k..];
  }

  lemma InsertKeepsOrder(jobs: seq<Job>, job: Job) returns (k: nat)
    ensures k <= |jobs| && Insert(jobs, job)[k] == job
    ensures Insert(jobs, job)[..k] + Insert(jobs, job)[k + 1..] == jobs
  {
    k := InsertionPoint(jobs, job.nextRetry);
    assert Insert(jobs, job)[..k] == jobs[..k] && Insert(jobs, job)[k + 1..] == jobs[k..];
    assert jobs[..k] + jobs[k..] == jobs;
  }

  lemma InsertSorted(jobs: seq<Job>, job: Job)
    requires Sorted(jobs)
    ensures Sorted(Insert(jobs, job))
  {
    var k := InsertionPoint(jobs, job.nextRetry);
    var r := jobs[..k] + [job] + jobs[k..];
    assert forall i | 0 <= i < k :: r[i] == jobs[i];
    assert r[k] == job;
    assert forall i | k < i < |r| :: r[i] == jobs[i - 1];
    assert forall i | k <= i < |jobs| :: jobs[k].nextRetry <= jobs[i].nextRetry;
  }

  // ---------------------------------------------------------------------------------------------
  // Steps

  /** One step: a message is sent for the first time, the loop receives a queued job, or the timer fires. Each request
      succeeds or fails; `after` is the clock read again after a failure. */
  datatype Step =
    | Send(now: int, ok: bool, after: int)
    | Receive
    | Tick(now: int, ok: bool, after: int)

  function SendMessage(s: State, now: int, ok: bool, due: int): State {
    var t := s.(sent := s.sent + 1, log := s.log + [Request(s.sent, None, now, ok)]);
    if ok then t.(delivered := s.delivered + multiset{s.sent})
    else if |s.queue| < CAPACITY then t.(queue := s.queue + [Job(s.sent, 1, due)])
    else t.(dropped := s.dropped + multiset{s.sent})
  }

  function ReceiveJob(s: State): State {
    if s.queue == [] then s
    else s.(queue := s.queue[1..], pending := Insert(s.pending, s.queue[0]))
  }

  function Fired(s: State, now: int, ok: bool, after: int, c: Config): State {
    if s.pending == [] then s
    else
      var job, rest := s.pending[0], s.pending[1..];
      if now < job.nextRetry then s.(pending := Insert(rest, job))
      else
        var t := s.(log := s.log + [Request(job.msg, Some(job.nextRetry), now, ok)]);
        if ok then t.(pending := rest, delivered := s.delivered + multiset{job.msg})
        else if job.attempt >= c.maxRetries then t.(pending := rest, failed := s.failed + multiset{job.msg})
        else t.(pending := Insert(rest, Job(job.msg, job.attempt + 1, after + BackOff(c, job.attempt))))
  }

  function Apply(s: State, step: Step, c: Config): State {
    match step
    case Send(now, ok, after) => SendMessage(s, now, ok, after + BackOff(c, 0))
    case Receive => ReceiveJob(s)
    case Tick(now, ok, after) => Fired(s, now, ok, after, c)
  }

  const Init := State([], [], 0, [], multiset{}, multiset{}, multiset{})

  function Exec(steps: seq<Step>, c: Config): State {
    if steps == [] then Init
    else Apply(Exec(steps[..|steps| - 1], c), steps[|steps| - 1], c)
  }

  // ---------------------------------------------------------------------------------------------
  // What every run keeps

  /** The most retries a message gets: one is made even when none is configured. */
  function Limit(c: Config): nat {
    if c.maxRetries < 1 then 1 else c.maxRetries
  }

  function Held(jobs: seq<Job>, m: nat): nat {
    if jobs == [] then 0 else (if jobs[0].msg == m then 1 else 0) + Held(jobs[1..], m)
  }

  /** In how many places a message is. */
  function Places(s: State, m: nat): nat {
    Held(s.queue, m) + Held(s.pending, m) + s.delivered[m] + s.failed[m] + s.dropped[m]
  }

  function Requests(log: seq<Request>, m: nat): nat {
    if log == [] then 0
    else Requests(log[..|log| - 1], m) + if log[|log| - 1].msg == m then 1 else 0
  }

  function Successes(log: seq<Request>, m: nat): nat {
    if log == [] then 0
    else Successes(log[..|log| - 1], m) + if log[|log| - 1].msg == m && log[|log| - 1].ok then 1 else 0
  }

  /** The message is in one place, and was delivered by its only successful request. */
  ghost predicate OnePlace(s: State, m: nat) {
    Places(s, m) == (if m < s.sent then 1 else 0) && Successes(s.log, m) == s.delivered[m]
  }

  /** How many requests a message with no job left has had. */
  ghost predicate RequestsCounted(s: State, m: nat, limit: nat) {
    && (m >= s.sent ==> Requests(s.log, m) == 0)
    && (s.dropped[m] > 0 ==> Requests(s.log, m) == 1)
    && (s.failed[m] > 0 ==> Requests(s.log, m) == 1 + limit)
    && (s.delivered[m] > 0 ==> 1 <= Requests(s.log, m) <= 1 + limit)
  }

  /** The attempt of a job is the number of requests so far. */
  ghost predicate JobsCounted(s: State, m: nat, limit: nat) {
    && (forall j | j in s.queue && j.msg == m :: j.attempt == 1 == Requests(s.log, m))
    && (forall j | j in s.pending && j.msg == m :: 1 <= j.attempt == Requests(s.log, m) <= limit)
  }

  /** What is known of one message. */
  ghost predicate Fate(s: State, m: nat, limit: nat) {
    OnePlace(s, m) && RequestsCounted(s, m, limit) && JobsCounted(s, m, limit)
  }

  /** No retry was made before it was due. */
  ghost predicate NotEarly(log: seq<Request>) {
    forall i | 0 <= i < |log| && log[i].due.Some? :: log[i].due.value <= log[i].at
  }

  ghost predicate Sound(s: State, c: Config) {
    && Sorted(s.pending) && |s.queue| <= CAPACITY
    && (forall m: nat :: Fate(s, m, Limit(c)))
    && NotEarly(s.log)
  }

  lemma {:induction false} HeldSplit(a: seq<Job>, b: seq<Job>, m: nat)
    ensures Held(a + b, m) == Held(a, m) + Held(b, m)
  {
    if a == [] {
      assert a + b == b;
    } else {
      assert (a + b)[1..] == a[1..] + b;
      HeldSplit(a[1..], b, m);
    }
  }

  lemma HeldInsert(jobs: seq<Job>, job: Job, m: nat)
    ensures Held(Insert(jobs, job), m) == Held(jobs, m) + if job.msg == m then 1 else 0
  {
    var k := InsertionPoint(jobs, job.nextRetry);
    assert jobs == jobs[..k] + jobs[k..];
    HeldSplit(jobs[..k], jobs[k..], m);
    HeldSplit(jobs[..k], [job], m);
    HeldSplit(jobs[..k] + [job], jobs[k..], m);
  }

  lemma {:induction false} HeldMember(jobs: seq<Job>, j: Job)
    requires j in jobs
    ensures Held(jobs, j.msg) >= 1
  {
    if jobs[0] != j { HeldMember(jobs[1..], j); }
  }

  lemma LogStep(log: seq<Request>, r: Request, m: nat)
    ensures Requests(log + [r], m) == Requests(log, m) + if r.msg == m then 1 else 0
    ensures Successes(log + [r], m) == Successes(log, m) + if r.msg == m && r.ok then 1 else 0
  {
    assert (log + [r])[..|log|] == log;
  }

  lemma InsertMembers(jobs: seq<Job>, job: Job)
    ensures forall j :: j in Insert(jobs, job) <==> j in jobs || j == job
  {
    var k := InsertionPoint(jobs, job.nextRetry);
    assert jobs == jobs[..k] + jobs[k..];
  }

  /** What sending changes, counted. */
  ghost predicate SentOnce(s: State, ok: bool, due: int, t: State, m: nat) {
    && t == s.(queue := t.queue, sent := s.sent + 1, log := t.log, delivered := t.delivered, dropped := t.dropped)
    && Requests(t.log, m) == Requests(s.log, m) + (if s.sent == m then 1 else 0)
    && Successes(t.log, m) == Successes(s.log, m) + (if s.sent == m && ok then 1 else 0)
    && SentTo(s, ok, due, t, m)
  }

  /** The message is delivered, queued or dropped. */
  ghost predicate SentTo(s: State, ok: bool, due: int, t: State, m: nat) {
    && t.delivered[m] == s.delivered[m] + (if s.sent == m && ok then 1 else 0)
    && Held(t.queue, m) + t.dropped[m] ==
       Held(s.queue, m) + s.dropped[m] + (if s.sent == m && !ok then 1 else 0)
    && t.dropped[m] <= s.dropped[m] + (if s.sent == m && !ok then 1 else 0)
    && (forall j | j in t.queue :: j in s.queue || (!ok && j == Job(s.sent, 1, due)))
  }

  lemma SendPlaces(s: State, now: int, ok: bool, due: int, m: nat)
    ensures SentTo(s, ok, due, SendMessage(s, now, ok, due), m)
  {
    if !ok && |s.queue| < CAPACITY {
      HeldSplit(s.queue, [Job(s.sent, 1, due)], m);
      assert Held([Job(s.sent, 1, due)], m) == if s.sent == m then 1 else 0;
      hide Held;
    } else {
      hide Held;
    }
  }

  lemma SendCounts(s: State, now: int, ok: bool, due: int, m: nat)
    ensures SentOnce(s, ok, due, SendMessage(s, now, ok, due), m)
  {
    LogStep(s.log, Request(s.sent, None, now, ok), m);
    SendPlaces(s, now, ok, due, m);
    hide Requests, Successes, SentTo;
  }

  lemma SendKeepsFate(s: State, now: int, ok: bool, due: int, limit: nat, m: nat)
    requires Fate(s, m, limit)
    ensures Fate(SendMessage(s, now, ok, due), m, limit)
  {
    SendCounts(s, now, ok, due, m);
    NothingHeld(s, m);
    hide SendMessage, Requests, Successes, Held;
    SentKeepsFate(s, ok, due, SendMessage(s, now, ok, due), limit, m);
  }

  lemma SentKeepsFate(s: State, ok: bool, due: int, t: State, limit: nat, m: nat)
    requires Fate(s, m, limit) && SentOnce(s, ok, due, t, m)
    requires Held(s.queue, m) == 0 ==> forall j | j in s.queue :: j.msg != m
    requires Held(s.pending, m) == 0 ==> forall j | j in s.pending :: j.msg != m
    ensures Fate(t, m, limit)
  {
    hide Requests, Successes, Held;
    assert OnePlace(t, m) by { hide JobsCounted, RequestsCounted; }
    assert RequestsCounted(t, m, limit) by { hide JobsCounted; }
    assert JobsCounted(t, m, limit) by { hide RequestsCounted; }
  }

  /** A message that has no place yet has no job. */
  lemma NothingHeld(s: State, m: nat)
    ensures Held(s.queue, m) == 0 ==> forall j | j in s.queue :: j.msg != m
    ensures Held(s.pending, m) == 0 ==> forall j | j in s.pending :: j.msg != m
  {
    forall j | j in s.queue ensures Held(s.queue, j.msg) >= 1 { HeldMember(s.queue, j); }
    forall j | j in s.pending ensures Held(s.pending, j.msg) >= 1 { HeldMember(s.pending, j); }
  }

  lemma ReceiveKeepsFate(s: State, limit: nat, m: nat)
    requires limit >= 1 && Fate(s, m, limit)
    ensures Fate(ReceiveJob(s), m, limit)
  {
    if s.queue != [] {
      HeldInsert(s.pending, s.queue[0], m);
      InsertMembers(s.pending, s.queue[0]);
    }
  }

  lemma TickKeepsFate(s: State, now: int, ok: bool, after: int, c: Config, m: nat)
    requires Fate(s, m, Limit(c))
    ensures Fate(Fired(s, now, ok, after, c), m, Limit(c))
  {
    if s.pending != [] {
      if now < s.pending[0].nextRetry {
        PutBackKeepsFate(s, Limit(c), m);
      } else if ok || s.pending[0].attempt >= c.maxRetries {
        FinishKeepsFate(s, now, ok, after, c, m);
      } else {
        RetryKeepsFate(s, now, after, c, m);
      }
    }
  }

  lemma PutBackKeepsFate(s: State, limit: nat, m: nat)
    requires Fate(s, m, limit) && s.pending != []
    ensures Fate(s.(pending := Insert(s.pending[1..], s.pending[0])), m, limit)
  {
    HeldInsert(s.pending[1..], s.pending[0], m);
    InsertMembers(s.pending[1..], s.pending[0]);
    hide Insert, Requests, Successes;
  }

  /** The first pending job is the only place of its message; it was retried `Requests - 1` times. */
  lemma FirstPending(s: State, limit: nat, m: nat)
    requires Fate(s, m, limit) && s.pending != []
    ensures Held(s.pending, m) == (if s.pending[0].msg == m then 1 else 0) + Held(s.pending[1..], m)
    ensures forall j | j in s.pending[1..] :: j in s.pending
    ensures s.pending[0].msg == m ==>
              && m < s.sent && s.delivered[m] == s.failed[m] == s.dropped[m] == 0
              && Held(s.queue, m) == Held(s.pending[1..], m) == 0
              && (forall j | j in s.queue :: j.msg != m) && (forall j | j in s.pending[1..] :: j.msg != m)
              && 1 <= s.pending[0].attempt == Requests(s.log, m) <= limit && Successes(s.log, m) == 0
  {
    NothingHeld(s, m);
    NothingHeld(s.(pending := s.pending[1..]), m);
    assert s.pending[0] in s.pending;
    hide Requests, Successes;
  }

  lemma FinishKeepsFate(s: State, now: int, ok: bool, after: int, c: Config, m: nat)
    requires Fate(s, m, Limit(c)) && s.pending != [] && s.pending[0].nextRetry <= now
    requires ok || s.pending[0].attempt >= c.maxRetries
    ensures Fate(Fired(s, now, ok, after, c), m, Limit(c))
  {
    var log := s.log + [Request(s.pending[0].msg, Some(s.pending[0].nextRetry), now, ok)];
    var msg, t := s.pending[0].msg, s.(pending := s.pending[1..], log := log);
    FirstPending(s, Limit(c), m);
    LogStep(s.log, Request(msg, Some(s.pending[0].nextRetry), now, ok), m);
    hide Requests, Successes, Held;
    if ok {
      DeliverKeepsFate(s, t, msg, Limit(c), m);
    } else {
      GiveUpKeepsFate(s, t, msg, Limit(c), m);
    }
    hide Fate, Insert;
  }

  lemma DeliverKeepsFate(s: State, t: State, msg: nat, limit: nat, m: nat)
    requires Fate(s, m, limit) && t == s.(pending := t.pending, log := t.log)
    requires forall j | j in t.pending :: j in s.pending
    requires Held(s.pending, m) == (if msg == m then 1 else 0) + Held(t.pending, m)
    requires Requests(t.log, m) == Requests(s.log, m) + if msg == m then 1 else 0
    requires Successes(t.log, m) == Successes(s.log, m) + if msg == m then 1 else 0
    requires msg == m ==> 1 <= Requests(s.log, m) <= limit && NoJob(t, m)
    ensures Fate(t.(delivered := s.delivered + multiset{msg}), m, limit)
  {
    hide Held, Requests, Successes;
  }

  lemma GiveUpKeepsFate(s: State, t: State, msg: nat, limit: nat, m: nat)
    requires Fate(s, m, limit) && t == s.(pending := t.pending, log := t.log)
    requires forall j | j in t.pending :: j in s.pending
    requires Held(s.pending, m) == (if msg == m then 1 else 0) + Held(t.pending, m)
    requires Requests(t.log, m) == Requests(s.log, m) + if msg == m then 1 else 0
    requires Successes(t.log, m) == Successes(s.log, m)
    requires msg == m ==> Requests(s.log, m) == limit && NoJob(t, m)
    ensures Fate(t.(failed := s.failed + multiset{msg}), m, limit)
  {
    hide Held, Requests, Successes;
  }

  ghost predicate NoJob(s: State, m: nat) {
    (forall j | j in s.queue :: j.msg != m) && (forall j | j in s.pending :: j.msg != m)
  }

  /** The first pending job as it is retried next. */
  function Again(s: State, after: int, c: Config): Job
    requires s.pending != []
  {
    Job(s.pending[0].msg, s.pending[0].attempt + 1, after + BackOff(c, s.pending[0].attempt))
  }

  lemma AgainState(s: State, now: int, after: int, c: Config)
    requires s.pending != [] && s.pending[0].nextRetry <= now && s.pending[0].attempt < c.maxRetries
    ensures var t := Fired(s, now, false, after, c); var again := Again(s, after, c);
            && t == s.(pending := t.pending, log := t.log)
            && t.pending == Insert(s.pending[1..], again)
            && t.log == s.log + [Request(again.msg, Some(s.pending[0].nextRetry), now, false)]
            && again.msg == s.pending[0].msg && again.attempt == s.pending[0].attempt + 1 <= Limit(c)
  {
    hide BackOff, Insert;
  }

  lemma AgainCounts(s: State, now: int, after: int, c: Config, m: nat)
    requires Fate(s, m, Limit(c)) && s.pending != [] && s.pending[0].nextRetry <= now
    requires s.pending[0].attempt < c.maxRetries
    ensures var t := Fired(s, now, false, after, c); var again := Again(s, after, c);
            && Held(t.pending, m) == Held(s.pending, m)
            && Requests(t.log, m) == Requests(s.log, m) + (if again.msg == m then 1 else 0)
            && Successes(t.log, m) == Successes(s.log, m)
            && (forall j | j in t.pending :: j in s.pending[1..] || j == again)
  {
    AgainState(s, now, after, c);
    FirstPending(s, Limit(c), m);
    LogStep(s.log, Request(s.pending[0].msg, Some(s.pending[0].nextRetry), now, false), m);
    HeldInsert(s.pending[1..], Again(s, after, c), m);
    InsertMembers(s.pending[1..], Again(s, after, c));
    hide *;
  }

  lemma RetryKeepsFate(s: State, now: int, after: int, c: Config, m: nat)
    requires Fate(s, m, Limit(c)) && s.pending != [] && s.pending[0].nextRetry <= now
    requires s.pending[0].attempt < c.maxRetries
    ensures Fate(Fired(s, now, false, after, c), m, Limit(c))
  {
    AgainState(s, now, after, c);
    AgainCounts(s, now, after, c, m);
    FirstPending(s, Limit(c), m);
    hide Fired, Again, Insert, Held, Requests, Successes, Fate, Limit, BackOff;
    RescheduleKeepsFate(s, Fired(s, now, false, after, c), s.pending[1..], Again(s, after, c), Limit(c), m);
  }

  lemma RescheduleKeepsFate(s: State, t: State, rest: seq<Job>, again: Job, limit: nat, m: nat)
    requires Fate(s, m, limit) && t == s.(pending := t.pending, log := t.log)
    requires forall j | j in t.pending :: j in rest || j == again
    requires forall j | j in rest :: j in s.pending
    requires Held(t.pending, m) == Held(s.pending, m)
    requires Requests(t.log, m) == Requests(s.log, m) + if again.msg == m then 1 else 0
    requires Successes(t.log, m) == Successes(s.log, m)
    requires again.msg == m ==>
               && m < s.sent && s.delivered[m] == s.failed[m] == s.dropped[m] == 0
               && NoJob(s.(pending := rest), m) && 1 < again.attempt == Requests(t.log, m) <= limit
    ensures Fate(t, m, limit)
  {
    hide Held, Requests, Successes;
  }

  lemma StepKeepsSound(s: State, step: Step, c: Config)
    requires Sound(s, c)
    ensures Sound(Apply(s, step, c), c)
  {
    forall m: nat ensures Fate(Apply(s, step, c), m, Limit(c)) {
      hide Sorted, Fired, SendMessage, ReceiveJob;
      match step
      case Send(now, ok, after) => SendKeepsFate(s, now, ok, after + BackOff(c, 0), Limit(c), m);
      case Receive => ReceiveKeepsFate(s, Limit(c), m);
      case Tick(now, ok, after) => TickKeepsFate(s, now, ok, after, c, m);
    }
    StepKeepsOrder(s, step, c);
  }

  lemma StepKeepsOrder(s: State, step: Step, c: Config)
    requires Sorted(s.pending) && |s.queue| <= CAPACITY && NotEarly(s.log)
    ensures Sorted(Apply(s, step, c).pending) && NotEarly(Apply(s, step, c).log)
    ensures |Apply(s, step, c).queue| <= CAPACITY
  {
    hide Sorted, NotEarly, Insert;
    match step
    case Send(now, ok, after) => LogNotEarly(s.log, Request(s.sent, None, now, ok));
    case Receive =>
      if s.queue != [] { InsertSorted(s.pending, s.queue[0]); }
    case Tick(now, ok, after) =>
      if s.pending != [] { TickKeepsOrder(s, now, ok, after, c); }
  }

  lemma TickKeepsOrder(s: State, now: int, ok: bool, after: int, c: Config)
    requires Sorted(s.pending) && NotEarly(s.log) && s.pending != []
    ensures Sorted(Fired(s, now, ok, after, c).pending) && NotEarly(Fired(s, now, ok, after, c).log)
  {
    hide Sorted, NotEarly, Insert;
    var job, rest := s.pending[0], s.pending[1..];
    TailSorted(s.pending);
    InsertSorted(rest, job);
    InsertSorted(rest, Job(job.msg, job.attempt + 1, after + BackOff(c, job.attempt)));
    if job.nextRetry <= now { LogNotEarly(s.log, Request(job.msg, Some(job.nextRetry), now, ok)); }
  }

  lemma LogNotEarly(log: seq<Request>, r: Request)
    requires NotEarly(log) && (r.due.Some? ==> r.due.value <= r.at)
    ensures NotEarly(log + [r])
  {
  }

  lemma TailSorted(jobs: seq<Job>)
    requires Sorted(jobs) && jobs != []
    ensures Sorted(jobs[1..])
  {
  }

  /** In every reachable state the pending list is sorted by due time; a message sent is in exactly one place, and
      delivered exactly when one of its requests succeeded; it got at most one request and `Limit` retries, exactly
      that many when it failed for good and one when it was dropped; and no retry was made before it was due. */
  lemma {:induction false} RunsConserve(steps: seq<Step>, c: Config)
    ensures Sound(Exec(steps, c), c)
    ensures forall m: nat :: Requests(Exec(steps, c).log, m) <= 1 + Limit(c)
  {
    if steps == [] {
      assert Sound(Init, c);
    } else {
      RunsConserve(steps[..|steps| - 1], c);
      StepKeepsSound(Exec(steps[..|steps| - 1], c), steps[|steps| - 1], c);
    }
    forall m: nat ensures Requests(Exec(steps, c).log, m) <= 1 + Limit(c) {
      AtMostLimit(Exec(steps, c), m, Limit(c));
    }
  }

  /** With no retry configured a message still gets one. */
  lemma OneRetryAnyway(c: Config)
    requires c.maxRetries < 1
    ensures Requests(Exec([Send(0, false, 0), Receive, Tick(BackOff(c, 0), false, 0)], c).log, 0) == 2
  {
    var due := BackOff(c, 0);
    var steps := [Send(0, false, 0), Receive, Tick(due, false, 0)];
    assert steps[..2] == [Send(0, false, 0), Receive] && steps[..2][..1] == [Send(0, false, 0)];
    assert steps[..2][..1][..0] == [];
    var sent := SendMessage(Init, 0, false, due);
    assert Exec(steps[..2][..1], c) == sent;
    assert sent.queue == [Job(0, 1, due)];
    assert Exec(steps[..2], c) == ReceiveJob(sent);
    hide BackOff;
    assert ReceiveJob(sent).pending == [Job(0, 1, due)] && ReceiveJob(sent).log == [Request(0, None, 0, false)];
    assert Exec(steps, c) == Fired(ReceiveJob(sent), due, false, 0, c);
    LogStep([], Request(0, None, 0, false), 0);
    LogStep([Request(0, None, 0, false)], Request(0, Some(due), due, false), 0);
  }

  /** So `maxRetries` bounds the retries of every message in every run exactly when it is positive. */
  lemma BoundHoldsExactly(c: Config)
    ensures (forall steps: seq<Step>, m: nat :: Requests(Exec(steps, c).log, m) <= 1 + c.maxRetries)
       <==> c.maxRetries >= 1
  {
    if c.maxRetries >= 1 {
      forall steps: seq<Step>, m: nat ensures Requests(Exec(steps, c).log, m) <= 1 + c.maxRetries {
        RunsConserve(steps, c);
      }
    } else {
      OneRetryAnyway(c);
    }
  }

  lemma AtMostLimit(s: State, m: nat, limit: nat)
    requires Fate(s, m, limit) && limit >= 1
    ensures Requests(s.log, m) <= 1 + limit
  {
    if Held(s.queue, m) > 0 { var j := SomeHeld(s.queue, m); }
    if Held(s.pending, m) > 0 { var j := SomeHeld(s.pending, m); }
  }

  lemma {:induction false} SomeHeld(jobs: seq<Job>, m: nat) returns (j: Job)
    requires Held(jobs, m) > 0
    ensures j in jobs && j.msg == m
  {
    if jobs[0].msg == m { j := jobs[0]; } else { j := SomeHeld(jobs[1..], m); }
  }

  /** The job retried when the timer fires is due, and no pending job was due before it. */
  lemma EarliestFirst(steps: seq<Step>, now: int, ok: bool, after: int, c: Config)
    ensures var s := Exec(steps, c);
            var t := Apply(s, Tick(now, ok, after), c);
            || t.log == s.log
            || (exists job | job in s.pending :: t.log == s.log + [Request(job.msg, Some(job.nextRetry), now, ok)]
                  && job.nextRetry <= now && forall other | other in s.pending :: job.nextRetry <= other.nextRetry)
    ensures var s := Exec(steps, c);
            (Apply(s, Tick(now, ok, after), c).log == s.log)
            == (forall job | job in s.pending :: now < job.nextRetry)
  {
    RunsConserve(steps, c);
    var s := Exec(steps, c);
    if s.pending != [] {
      var job := s.pending[0];
      assert job in s.pending;
      assert forall other | other in s.pending :: job.nextRetry <= other.nextRetry;
    }
  }

  // ---------------------------------------------------------------------------------------------
  // The back-off between two requests of one message

  /** The steps that made the requests of the log, in its order. */
  ghost function Makers(steps: seq<Step>, c: Config): seq<Step> {
    if steps == [] then []
    else
      var before := steps[..|steps| - 1];
      if |Exec(steps, c).log| > |Exec(before, c).log|
      then Makers(before, c) + [steps[|steps| - 1]] else Makers(before, c)
  }

  /** When the next request of a message is due: the clock read after the last one, if that failed, and the back-off for
      as many requests as came before it. */
  function DueNext(c: Config, log: seq<Request>, makers: seq<Step>, m: nat): Option<int>
    requires |makers| == |log|
  {
    if log == [] then None
    else
      var n := |log| - 1;
      if log[n].msg != m then DueNext(c, log[..n], makers[..n], m)
      else if log[n].ok || makers[n].Receive? then None
      else Some(makers[n].after + BackOff(c, Requests(log[..n], m)))
  }

  /** The request is its step's; a first one is a `Send`, and a later one a `Tick` when it is due. */
  ghost predicate Linked(c: Config, log: seq<Request>, maker: Step, makers: seq<Step>, r: Request)
    requires |makers| == |log|
  {
    && !maker.Receive? && r.at == maker.now && r.ok == maker.ok
    && r.due == DueNext(c, log, makers, r.msg)
    && (if maker.Send? then Requests(log, r.msg) == 0 else r.due.Some? && r.due.value <= r.at)
  }

  ghost predicate Waits(c: Config, s: State, makers: seq<Step>) {
    && |makers| == |s.log|
    && (forall i | 0 <= i < |s.log| :: Linked(c, s.log[..i], makers[i], makers[..i], s.log[i]))
    && (forall j | j in s.queue || j in s.pending :: DueNext(c, s.log, makers, j.msg) == Some(j.nextRetry))
  }

  lemma {:induction false} NothingDue(c: Config, log: seq<Request>, makers: seq<Step>, m: nat)
    requires |makers| == |log| && Requests(log, m) == 0
    ensures DueNext(c, log, makers, m).None?
  {
    if log != [] { NothingDue(c, log[..|log| - 1], makers[..|log| - 1], m); }
  }

  lemma DueSnoc(c: Config, log: seq<Request>, makers: seq<Step>, r: Request, maker: Step, m: nat)
    requires |makers| == |log|
    ensures DueNext(c, log + [r], makers + [maker], m) ==
            if r.msg != m then DueNext(c, log, makers, m)
            else if r.ok || maker.Receive? then None else Some(maker.after + BackOff(c, Requests(log, m)))
  {
    assert (log + [r])[..|log|] == log && (makers + [maker])[..|log|] == makers;
  }

  /** One more request, after which every job left is an old one of another message or the message's own, due when the
      step says. */
  lemma WaitsSnoc(c: Config, s: State, makers: seq<Step>, r: Request, maker: Step, s': State)
    requires Waits(c, s, makers) && s'.log == s.log + [r] && Linked(c, s.log, maker, makers, r)
    requires forall j | j in s'.queue || j in s'.pending ::
               if j.msg == r.msg then !r.ok && j.nextRetry == maker.after + BackOff(c, Requests(s.log, r.msg))
               else j in s.queue || j in s.pending
    ensures Waits(c, s', makers + [maker])
  {
    var makers' := makers + [maker];
    forall i | 0 <= i < |s'.log| ensures Linked(c, s'.log[..i], makers'[i], makers'[..i], s'.log[i]) {
      assert s'.log[..i] == s.log[..i] && makers'[..i] == makers[..i];
    }
    forall j | j in s'.queue || j in s'.pending ensures DueNext(c, s'.log, makers', j.msg) == Some(j.nextRetry) {
      DueSnoc(c, s.log, makers, r, maker, j.msg);
    }
  }

  lemma SendWaits(s: State, makers: seq<Step>, now: int, ok: bool, after: int, c: Config)
    requires Sound(s, c) && Waits(c, s, makers)
    ensures Waits(c, SendMessage(s, now, ok, after + BackOff(c, 0)), makers + [Send(now, ok, after)])
  {
    assert Fate(s, s.sent, Limit(c));
    NothingHeld(s, s.sent);
    NothingDue(c, s.log, makers, s.sent);
    hide Waits, Sorted, NotEarly, BackOff;
    WaitsSnoc(c, s, makers, Request(s.sent, None, now, ok), Send(now, ok, after),
              SendMessage(s, now, ok, after + BackOff(c, 0)));
  }

  lemma TickWaits(s: State, makers: seq<Step>, now: int, ok: bool, after: int, c: Config)
    requires Sound(s, c) && Waits(c, s, makers) && s.pending != [] && s.pending[0].nextRetry <= now
    ensures Waits(c, Fired(s, now, ok, after, c), makers + [Tick(now, ok, after)])
  {
    var job, rest := s.pending[0], s.pending[1..];
    assert Fate(s, job.msg, Limit(c));
    FirstPending(s, Limit(c), job.msg);
    InsertMembers(rest, Job(job.msg, job.attempt + 1, after + BackOff(c, job.attempt)));
    assert DueNext(c, s.log, makers, job.msg) == Some(job.nextRetry) by { assert job in s.pending; }
    hide Waits, Sound, Fate, Insert, DueNext, BackOff, Requests;
    WaitsSnoc(c, s, makers, Request(job.msg, Some(job.nextRetry), now, ok), Tick(now, ok, after),
              Fired(s, now, ok, after, c));
  }

  /** No request, and no new job. */
  lemma ReorderWaits(c: Config, s: State, makers: seq<Step>, s': State)
    requires Waits(c, s, makers) && s'.log == s.log
    requires forall j | j in s'.queue || j in s'.pending :: j in s.queue || j in s.pending
    ensures Waits(c, s', makers)
  {
    hide Linked, DueNext;
  }

  lemma StepWaits(s: State, makers: seq<Step>, step: Step, c: Config)
    requires Sound(s, c) && Waits(c, s, makers)
    ensures var s' := Apply(s, step, c);
            Waits(c, s', if |s'.log| > |s.log| then makers + [step] else makers)
  {
    hide Sound, BackOff, Waits, Insert;
    match step
    case Send(now, ok, after) =>
      SendWaits(s, makers, now, ok, after, c);
    case Receive =>
      if s.queue != [] {
        InsertMembers(s.pending, s.queue[0]);
        ReorderWaits(c, s, makers, ReceiveJob(s));
      }
    case Tick(now, ok, after) =>
      if s.pending != [] {
        if now < s.pending[0].nextRetry {
          InsertMembers(s.pending[1..], s.pending[0]);
          ReorderWaits(c, s, makers, Fired(s, now, ok, after, c));
        } else {
          TickWaits(s, makers, now, ok, after, c);
        }
      }
  }

  lemma {:induction false} RunsWait(steps: seq<Step>, c: Config)
    ensures Waits(c, Exec(steps, c), Makers(steps, c))
  {
    if steps != [] {
      var before := steps[..|steps| - 1];
      RunsWait(before, c);
      RunsConserve(before, c);
      StepWaits(Exec(before, c), Makers(before, c), steps[|steps| - 1], c);
      hide Waits, Sound, Apply;
    }
  }

  /** The last request of a message before some position decides when the next one is due. */
  lemma {:induction false} DueAfter(c: Config, log: seq<Request>, makers: seq<Step>, i: nat, m: nat)
    requires |makers| == |log| && i < |log| && log[i].msg == m && forall k | i < k < |log| :: log[k].msg != m
    ensures DueNext(c, log, makers, m) ==
            if log[i].ok || makers[i].Receive? then None else Some(makers[i].after + BackOff(c, Requests(log[..i], m)))
    ensures Requests(log, m) == Requests(log[..i], m) + 1
  {
    hide BackOff;
    var n := |log| - 1;
    if i < n {
      DueAfter(c, log[..n], makers[..n], i, m);
      assert log[..n][..i] == log[..i];
    }
  }

  /** The later one of two requests of a message waits for what the earlier one left. */
  ghost predicate WaitsFor(c: Config, log: seq<Request>, makers: seq<Step>, i: nat, j: nat)
    requires i < j < |log| == |makers|
  {
    && !makers[i].Receive? && !makers[i].ok && makers[j].Tick?
    && log[j].due == Some(makers[i].after + BackOff(c, Requests(log[..i], log[i].msg)))
    && log[j].due.value <= makers[j].now == log[j].at
  }

  lemma LinkedWaits(c: Config, log: seq<Request>, makers: seq<Step>, i: nat, j: nat)
    requires i < j < |log| == |makers| && log[i].msg == log[j].msg && forall k | i < k < j :: log[k].msg != log[i].msg
    requires Linked(c, log[..i], makers[i], makers[..i], log[i]) && Linked(c, log[..j], makers[j], makers[..j], log[j])
    ensures WaitsFor(c, log, makers, i, j)
  {
    DueAfter(c, log[..j], makers[..j], i, log[i].msg);
    assert log[..j][..i] == log[..i];
    hide DueNext, Requests, BackOff;
  }

  /** In every run, of two consecutive requests of one message the earlier one failed and the later one is made by the
      timer, due when the clock read after the failure says plus the back-off for as many requests as came before both,
      and not made earlier. */
  lemma BackOffKept(steps: seq<Step>, c: Config, i: nat, j: nat)
    requires var log := Exec(steps, c).log;
             i < j < |log| && log[i].msg == log[j].msg && forall k | i < k < j :: log[k].msg != log[i].msg
    ensures var log, makers := Exec(steps, c).log, Makers(steps, c);
            |makers| == |log| && WaitsFor(c, log, makers, i, j)
  {
    RunsWait(steps, c);
    hide Exec, Makers, Linked, WaitsFor;
    LinkedWaits(c, Exec(steps, c).log, Makers(steps, c), i, j);
  }

  /** The back-off starts at the base and doubles with every request until it reaches the cap. */
  lemma BackOffDoubles(c: Config, n: nat)
    requires 0 <= c.baseBackoff && 0 <= c.maxBackoff
    ensures BackOff(c, 0) == if c.baseBackoff <= c.maxBackoff then c.baseBackoff else c.maxBackoff
    ensures BackOff(c, n + 1) == if 2 * BackOff(c, n) <= c.maxBackoff then 2 * BackOff(c, n) else c.maxBackoff
  {
    var d := c.baseBackoff * Power(n);
    assert c.baseBackoff * Power(n + 1) == 2 * d;
    assert d >= 0;
  }

  // ---------------------------------------------------------------------------------------------
  // The queue between the caller and the loop

  /** The first request of message `m` failed at the `k`-th step, which found the queue full. */
  ghost predicate FoundFull(steps: seq<Step>, c: Config, k: nat, m: nat)
    requires k < |steps|
  {
    var s := Exec(steps[..k], c);
    steps[k].Send? && !steps[k].ok && s.sent == m && |s.queue| == 1024
  }

  lemma StepDrops(s: State, step: Step, c: Config, m: nat)
    requires |s.queue| <= CAPACITY
    ensures Apply(s, step, c).dropped[m] > 0 <==>
            s.dropped[m] > 0 || (step.Send? && !step.ok && s.sent == m && |s.queue| == 1024)
  {
    hide Insert;
  }

  lemma SamePrefix(steps: seq<Step>, n: nat, c: Config, m: nat)
    requires n <= |steps|
    ensures forall k: nat | k < n :: FoundFull(steps[..n], c, k, m) == FoundFull(steps, c, k, m)
  {
    assert forall k: nat | k < n :: steps[..n][..k] == steps[..k];
    hide Exec;
  }

  lemma LastDrop(steps: seq<Step>, c: Config, m: nat)
    requires steps != []
    ensures var n := |steps| - 1;
            Exec(steps, c).dropped[m] > 0 <==> Exec(steps[..n], c).dropped[m] > 0 || FoundFull(steps, c, n, m)
  {
    var n := |steps| - 1;
    RunsConserve(steps[..n], c);
    StepDrops(Exec(steps[..n], c), steps[n], c, m);
    hide Apply, Fate, Sorted, NotEarly;
  }

  /** In every run a message is dropped exactly when its first request fails while the queue holds 1024 jobs. */
  lemma {:induction false} DroppedExactly(steps: seq<Step>, c: Config, m: nat)
    ensures Exec(steps, c).dropped[m] > 0 <==> exists k | 0 <= k < |steps| :: FoundFull(steps, c, k, m)
  {
    if steps != [] {
      hide *;
      var n := |steps| - 1;
      DroppedExactly(steps[..n], c, m);
      LastDrop(steps, c, m);
      SamePrefix(steps, n, c, m);
      if Exec(steps[..n], c).dropped[m] > 0 {
        var k :| 0 <= k < n && FoundFull(steps[..n], c, k, m);
        assert FoundFull(steps, c, k, m);
      }
    }
  }

  /** Messages are queued in the order in which they were sent. */
  ghost predicate InOrder(s: State) {
    && (forall i, j | 0 <= i < j < |s.queue| :: s.queue[i].msg < s.queue[j].msg)
    && (forall j | j in s.queue :: j.msg < s.sent)
  }

  lemma StepQueuesInOrder(s: State, step: Step, c: Config)
    requires InOrder(s)
    ensures InOrder(Apply(s, step, c))
  {
    match step
    case Send(now, ok, after) =>
      var s' := SendMessage(s, now, ok, after + BackOff(c, 0));
      assert forall i | 0 <= i < |s'.queue| :: i < |s.queue| ==> s'.queue[i] == s.queue[i];
    case Receive =>
      if s.queue != [] {
        var rest := s.queue[1..];
        assert forall i | 0 <= i < |rest| :: rest[i] == s.queue[i + 1];
        hide Insert;
      }
    case Tick(now, ok, after) =>
      assert Fired(s, now, ok, after, c).queue == s.queue && Fired(s, now, ok, after, c).sent == s.sent;
  }

  lemma {:induction false} RunsQueueInOrder(steps: seq<Step>, c: Config)
    ensures InOrder(Exec(steps, c))
  {
    if steps != [] {
      RunsQueueInOrder(steps[..|steps| - 1], c);
      StepQueuesInOrder(Exec(steps[..|steps| - 1], c), steps[|steps| - 1], c);
      hide InOrder, Apply;
    }
  }

  /** In every run the loop receives the message that was sent first among the queued ones, and only moves it. */
  lemma ReceivesOldest(steps: seq<Step>, c: Config)
    requires Exec(steps, c).queue != []
    ensures var s := Exec(steps, c); var s' := Apply(s, Receive, c);
            exists job ::
              && s.queue == [job] + s'.queue && (forall j | j in s'.queue :: job.msg < j.msg)
              && multiset(s'.pending) == multiset(s.pending) + multiset{job}
              && s' == s.(queue := s'.queue, pending := s'.pending)
  {
    var s := Exec(steps, c);
    RunsQueueInOrder(steps, c);
    var job, rest := s.queue[0], s.queue[1..];
    assert s.queue == [job] + rest;
    InsertPermutes(s.pending, job);
    hide Insert, Exec;
  }

  // ---------------------------------------------------------------------------------------------
  // The sender

  class Sender {
    const maxRetries: int
    const baseBackoff: int
    const maxBackoff: int
    var retryQueue: seq<Job>
    var pending: seq<Job>
    var sent: nat
    ghost var log: seq<Request>
    ghost var delivered: multiset<nat>
    ghost var failed: multiset<nat>
    ghost var dropped: multiset<nat>

    ghost function Snapshot(): State
      reads this
    {
      State(retryQueue, pending, sent, log, delivered, failed, dropped)
    }

    function Settings(): Config {
      Config(maxRetries, baseBackoff, maxBackoff)
    }

    constructor (c: Config)
      ensures Snapshot() == Init && Settings() == c
    {
      maxRetries, baseBackoff, maxBackoff := c.maxRetries, c.baseBackoff, c.maxBackoff;
      retryQueue, pending, sent, log := [], [], 0, [];
      delivered, failed, dropped := multiset{}, multiset{}, multiset{};
    }

    /** `Send`, its request answered by `ok` at `now` and the clock read again at `after`; a failed message is queued
        unless the queue is full. */
    method Send(ghost now: int, ok: bool, after: int)
      modifies this`retryQueue, this`sent, this`log, this`delivered, this`dropped
      ensures Snapshot() == SendMessage(old(Snapshot()), now, ok, after + BackOff(Settings(), 0))
    {
      hide BackOff;
      var msg := sent;
      sent, log := sent + 1, log + [Request(msg, None, now, ok)];
      if !ok {
        Enqueue(Job(msg, 1, after + BackOff(Settings(), 0)));
        return;
      }
      delivered := delivered + multiset{msg};
    }

    /** The `select` that queues the job or, when the channel is full, drops the message. */
    method Enqueue(job: Job)
      modifies this`retryQueue, this`dropped
      ensures Snapshot() == if |old(retryQueue)| < CAPACITY
                            then old(Snapshot()).(queue := old(retryQueue) + [job])
                            else old(Snapshot()).(dropped := old(dropped) + multiset{job.msg})
    {
      if |retryQueue| < CAPACITY {
        retryQueue := retryQueue + [job];
      } else {
        dropped := dropped + multiset{job.msg};
      }
    }

    /** The loop takes a queued job. */
    method Receive()
      modifies this`retryQueue, this`pending
      ensures Snapshot() == ReceiveJob(old(Snapshot()))
    {
      if |retryQueue| == 0 { return; }
      var job := retryQueue[0];
      retryQueue := retryQueue[1..];
      pending := InsertByTime(pending, job);
    }

    /** The timer case of the loop. */
    method TimerFires(now: int, ok: bool, after: int)
      modifies this`pending, this`log, this`delivered, this`failed
      ensures Snapshot() == Fired(old(Snapshot()), now, ok, after, Settings())
    {
      hide BackOff, Insert;
      if |pending| == 0 { return; }
      var job := pending[0];
      pending := pending[1..];
      if now < job.nextRetry {
        pending := InsertByTime(pending, job);
        return;
      }
      log := log + [Request(job.msg, Some(job.nextRetry), now, ok)];
      if ok {
        delivered := delivered + multiset{job.msg};
      } else {
        Failed(job, after);
      }
    }

    /** A retry failed. */
    method Failed(job: Job, after: int)
      modifies this`pending, this`failed
      ensures Snapshot() == if job.attempt >= maxRetries
                            then old(Snapshot()).(failed := old(failed) + multiset{job.msg})
                            else old(Snapshot()).(pending := Insert(old(pending),
                              Job(job.msg, job.attempt + 1, after + BackOff(Settings(), job.attempt))))
    {
      hide BackOff, Insert;
      if job.attempt >= maxRetries {
        failed := failed + multiset{job.msg};
        return;
      }
      var again := job.(attempt := job.attempt + 1);
      again := again.(nextRetry := after + BackOff(Settings(), again.attempt - 1));
      pending := InsertByTime(pending, again);
    }
  }
}
