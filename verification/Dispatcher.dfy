/**
 The leased job queue of apps/api/app/jobs/dispatcher.py (`InMemoryDispatcher`).
 The event loop's clock is a parameter of each call.
 */
module Dispatcher {
  import opened Wrappers

  type Time = real

  datatype Status = Queued | Running | Succeeded | Dead

  datatype MemoryJob = MemoryJob(
    id: nat, kind: string, threadId: string, key: string, payload: string,
    status: Status, attempts: nat, maxAttempts: int, lastError: string,
    availableAt: Time, owner: Option<string>, expires: Option<Time>)

  /** The snapshot a worker is handed. */
  datatype Job = Job(id: nat, kind: string, threadId: string, key: string, payload: string,
                     status: Status, attempts: nat, maxAttempts: int, lastError: string)

  datatype Queue = Queue(jobs: map<nat, MemoryJob>, byKey: map<string, nat>, next: nat, capacity: int, maxAttempts: int)

  datatype EnqueueResult = Existing(id: nat) | Created(id: nat) | QueueFull(depth: nat)

  /** What is kept of an error: all of it, or its first 2000 characters. */
  function Truncated(error: string): (kept: string)
    ensures kept <= error && |kept| == if |error| <= 2000 then |error| else 2000
  {
    if |error| > 2000 then error[..2000] else error
  }

  // ---------------------------------------------------------------------
  // What each operation does
  // ---------------------------------------------------------------------

  predicate IsLive(job: MemoryJob) {
    job.status == Queued || job.status == Running
  }

  /** How many of the jobs numbered below n wait or run. */
  function LiveBelow(jobs: map<nat, MemoryJob>, n: nat): nat {
    if n == 0 then 0
    else LiveBelow(jobs, n - 1) + (if n - 1 in jobs && IsLive(jobs[n - 1]) then 1 else 0)
  }

  function Depth(q: Queue): nat {
    LiveBelow(q.jobs, q.next)
  }

  function Enqueued(q: Queue, kind: string, threadId: string, key: string, payload: string): (Queue, EnqueueResult) {
    if key in q.byKey then (q, Existing(q.byKey[key]))
    else if Depth(q) >= q.capacity then (q, QueueFull(Depth(q)))
    else
      var job := MemoryJob(q.next, kind, threadId, key, payload, Queued, 0, q.maxAttempts, "", 0.0, None, None);
      (q.(jobs := q.jobs[q.next := job], byKey := q.byKey[key := q.next], next := q.next + 1), Created(q.next))
  }

  predicate Expired(job: MemoryJob, now: Time) {
    job.status == Running && job.expires.Some? && job.expires.value < now
  }

  /** An expired lease goes back to the queue; a claim also stamps the time and the reason. */
  function Reclaimed(job: MemoryJob, now: Time, claiming: bool): MemoryJob {
    if !Expired(job, now) then job
    else
      var freed := job.(status := Queued, owner := None, expires := None);
      if !claiming then freed
      else freed.(availableAt := now, lastError := if job.lastError == "" then "lease expired" else job.lastError)
  }

  function Swept(jobs: map<nat, MemoryJob>, now: Time, claiming: bool): map<nat, MemoryJob> {
    map id | id in jobs :: Reclaimed(jobs[id], now, claiming)
  }

  function ExpiredBelow(jobs: map<nat, MemoryJob>, now: Time, n: nat): nat {
    if n == 0 then 0
    else ExpiredBelow(jobs, now, n - 1) + (if n - 1 in jobs && Expired(jobs[n - 1], now) then 1 else 0)
  }

  /** The sweep counts the running jobs whose lease lies in the past. */
  lemma {:induction false} ExpiredAreCounted(jobs: map<nat, MemoryJob>, now: Time, n: nat)
    ensures ExpiredBelow(jobs, now, n) == |set id | id in jobs && id < n && Lapsed(jobs[id], now)|
  {
    if n == 0 {
      assert (set id | id in jobs && id < n && Lapsed(jobs[id], now)) == {};
    } else {
      ExpiredAreCounted(jobs, now, n - 1);
      var before := set id | id in jobs && id < n - 1 && Lapsed(jobs[id], now);
      assert (set id | id in jobs && id < n && Lapsed(jobs[id], now)) ==
             before + if n - 1 in jobs && Lapsed(jobs[n - 1], now) then {n - 1} else {};
    }
  }

  /** A lease that lies in the past. */
  ghost predicate Lapsed(job: MemoryJob, now: Time) {
    job.status == Running && exists t :: job.expires == Some(t) && t < now
  }

  /** What a sweep makes of a job: a lapsed one is freed for anybody, any other is left alone. */
  ghost predicate Freed(job: MemoryJob, job': MemoryJob, now: Time, claiming: bool) {
    if !Lapsed(job, now) then job' == job
    else
      && job'.status == Queued && job'.owner == None && job'.expires == None
      && job'.id == job.id && job'.key == job.key && job'.kind == job.kind && job'.threadId == job.threadId
      && job'.payload == job.payload && job'.attempts == job.attempts && job'.maxAttempts == job.maxAttempts
      && job'.availableAt == (if claiming then now else job.availableAt)
      && job'.lastError == (if claiming && |job.lastError| == 0 then "lease expired" else job.lastError)
  }

  lemma ReclaimedIsFreed(job: MemoryJob, now: Time, claiming: bool)
    ensures Freed(job, Reclaimed(job, now, claiming), now, claiming)
    ensures Expired(job, now) <==> Lapsed(job, now)
  {
    if Expired(job, now) {
      assert job.expires == Some(job.expires.value);
    }
  }

  predicate Ready(job: MemoryJob, now: Time) {
    job.status == Queued && job.availableAt <= now
  }

  /** The ready job with the lowest number in [from, to). */
  function LowestReady(jobs: map<nat, MemoryJob>, now: Time, from: nat, to: nat): (r: Option<nat>)
    ensures r.Some? ==> from <= r.value < to && r.value in jobs && Ready(jobs[r.value], now)
    ensures forall id: nat | from <= id < to && id in jobs && (r.Some? ==> id < r.value) :: !Ready(jobs[id], now)
    decreases if from < to then to - from else 0
  {
    if from >= to then None
    else if from in jobs && Ready(jobs[from], now) then Some(from)
    else LowestReady(jobs, now, from + 1, to)
  }

  function Leased(job: MemoryJob, worker: string, until: Time): MemoryJob {
    job.(status := Running, attempts := job.attempts + 1, owner := Some(worker), expires := Some(until),
         lastError := "")
  }

  function Snapshot(job: MemoryJob): Job {
    Job(job.id, job.kind, job.threadId, job.key, job.payload, job.status, job.attempts, job.maxAttempts, job.lastError)
  }

  function Claimed(q: Queue, worker: string, lease: Time, now: Time): (Queue, Option<Job>) {
    var swept := Swept(q.jobs, now, true);
    match LowestReady(swept, now, 0, q.next)
    case None => (q.(jobs := swept), None)
    case Some(id) =>
      var job := Leased(swept[id], worker, now + lease);
      (q.(jobs := swept[id := job]), Some(Snapshot(job)))
  }

  function Heartbeaten(q: Queue, id: nat, worker: string, lease: Time, now: Time): (Queue, bool) {
    if id !in q.jobs || q.jobs[id].status != Running || q.jobs[id].owner != Some(worker) then (q, false)
    else (q.(jobs := q.jobs[id := q.jobs[id].(expires := Some(now + lease))]), true)
  }

  /** `None` is the KeyError for an unknown id. */
  function Completed(q: Queue, id: nat): Option<Queue> {
    if id !in q.jobs then None
    else Some(q.(jobs := q.jobs[id := q.jobs[id].(status := Succeeded, owner := None, expires := None)]))
  }

  function FailedOnce(q: Queue, id: nat, error: string, delay: Time, now: Time): Option<(Queue, Status)> {
    if id !in q.jobs then None
    else
      var job := q.jobs[id].(lastError := Truncated(error), owner := None, expires := None);
      if job.attempts >= job.maxAttempts
      then Some((q.(jobs := q.jobs[id := job.(status := Dead)]), Dead))
      else Some((q.(jobs := q.jobs[id := job.(status := Queued, availableAt := now + delay)]), Queued))
  }

  /** The numbers in use are below the counter. */
  ghost predicate Numbered(q: Queue) {
    forall id | id in q.jobs :: id < q.next
  }

  /** The sweep has visited the jobs numbered below n. */
  ghost predicate PartlySwept(before: map<nat, MemoryJob>, jobs: map<nat, MemoryJob>, now: Time, claiming: bool,
                              n: nat) {
    && jobs.Keys == before.Keys
    && forall id | id in jobs :: jobs[id] == if id < n then Reclaimed(before[id], now, claiming) else before[id]
  }

  lemma SweptOneMore(before: map<nat, MemoryJob>, jobs: map<nat, MemoryJob>, now: Time, claiming: bool, id: nat)
    requires PartlySwept(before, jobs, now, claiming, id)
    ensures if id in jobs && Expired(jobs[id], now)
            then PartlySwept(before, jobs[id := Reclaimed(jobs[id], now, claiming)], now, claiming, id + 1)
            else PartlySwept(before, jobs, now, claiming, id + 1)
    ensures ExpiredBelow(before, now, id + 1) ==
              ExpiredBelow(before, now, id) + (if id in jobs && Expired(jobs[id], now) then 1 else 0)
  {
  }

  lemma SweptThroughout(before: map<nat, MemoryJob>, jobs: map<nat, MemoryJob>, now: Time, claiming: bool, n: nat)
    requires PartlySwept(before, jobs, now, claiming, n) && forall id | id in jobs :: id < n
    ensures jobs == Swept(before, now, claiming)
  {
  }

  lemma SweepFrees(before: map<nat, MemoryJob>, now: Time, claiming: bool, n: nat)
    requires forall id | id in before :: id < n
    ensures forall id | id in before :: Freed(before[id], Swept(before, now, claiming)[id], now, claiming)
    ensures ExpiredBelow(before, now, n) == |set id | id in before && Lapsed(before[id], now)|
  {
    forall id | id in before ensures Freed(before[id], Swept(before, now, claiming)[id], now, claiming) {
      ReclaimedIsFreed(before[id], now, claiming);
    }
    ExpiredAreCounted(before, now, n);
    assert (set id | id in before && id < n && Lapsed(before[id], now)) == set id | id in before
           && Lapsed(before[id], now);
  }

  class InMemoryDispatcher {
    const capacity: int
    const maxAttempts: int
    var jobs: map<nat, MemoryJob>
    var byKey: map<string, nat>
    var next: nat

    constructor (capacity: int, maxAttempts: int)
      ensures this.capacity == capacity && this.maxAttempts == maxAttempts
      ensures Now() == Empty(capacity, maxAttempts)
    {
      this.capacity, this.maxAttempts := capacity, maxAttempts;
      jobs, byKey, next := map[], map[], 1;
    }

    function Now(): Queue
      reads this
    {
      Queue(jobs, byKey, next, capacity, maxAttempts)
    }

    method CountLive() returns (depth: nat)
      ensures depth == Depth(Now())
    {
      depth := 0;
      for id := 0 to next
        invariant depth == LiveBelow(jobs, id)
      {
        if id in jobs && IsLive(jobs[id]) {
          depth := depth + 1;
        }
      }
    }

    method Enqueue(kind: string, threadId: string, key: string, payload: string) returns (result: EnqueueResult)
      modifies this
      ensures (Now(), result) == Enqueued(old(Now()), kind, threadId, key, payload)
    {
      if key in byKey {
        return Existing(byKey[key]);
      }
      var depth := CountLive();
      if depth >= capacity {
        return QueueFull(depth);
      }
      var id := next;
      next := next + 1;
      jobs := jobs[id := MemoryJob(id, kind, threadId, key, payload, Queued, 0, maxAttempts, "", 0.0, None, None)];
      byKey := byKey[key := id];
      result := Created(id);
    }

    /** The first loop of `claim`, and the whole of `reclaim_expired`. */
    method Sweep(now: Time, claiming: bool) returns (count: nat)
      requires Numbered(Now())
      modifies this
      ensures Now() == old(Now()).(jobs := Swept(old(jobs), now, claiming))
      ensures forall id | id in old(jobs) :: id in jobs && Freed(old(jobs[id]), jobs[id], now, claiming)
      ensures count == |set id | id in old(jobs) && Lapsed(old(jobs[id]), now)|
    {
      count := 0;
      ghost var before := jobs;
      assert PartlySwept(before, jobs, now, claiming, 0);
      hide PartlySwept, ExpiredBelow, LiveBelow;
      for id := 0 to next
        invariant next == old(next) && byKey == old(byKey) && jobs.Keys == before.Keys
        invariant PartlySwept(before, jobs, now, claiming, id)
        invariant count == ExpiredBelow(before, now, id)
      {
        SweptOneMore(before, jobs, now, claiming, id);
        if id in jobs && Expired(jobs[id], now) {
          count := count + 1;
          var job := jobs[id].(status := Queued, owner := None, expires := None);
          if claiming {
            job := job.(availableAt := now);
            if job.lastError == "" {
              job := job.(lastError := "lease expired");
            }
          }
          jobs := jobs[id := job];
        }
      }
      SweptThroughout(before, jobs, now, claiming, next);
      SweepFrees(before, now, claiming, next);
    }

    method Claim(worker: string, lease: Time, now: Time) returns (claimed: Option<Job>)
      requires Numbered(Now())
      modifies this
      ensures (Now(), claimed) == Claimed(old(Now()), worker, lease, now)
    {
      var _ := Sweep(now, true);
      for id := 0 to next
        invariant Now() == old(Now()).(jobs := Swept(old(jobs), now, true))
        invariant LowestReady(jobs, now, 0, next) == LowestReady(jobs, now, id, next)
      {
        if id in jobs && Ready(jobs[id], now) {
          var job := Leased(jobs[id], worker, now + lease);
          jobs := jobs[id := job];
          return Some(Snapshot(job));
        }
      }
      claimed := None;
    }

    method Heartbeat(id: nat, worker: string, lease: Time, now: Time) returns (held: bool)
      modifies this
      ensures (Now(), held) == Heartbeaten(old(Now()), id, worker, lease, now)
    {
      if id !in jobs || jobs[id].status != Running || jobs[id].owner != Some(worker) {
        return false;
      }
      jobs := jobs[id := jobs[id].(expires := Some(now + lease))];
      held := true;
    }

    /** Returns whether the id was known; the source raises KeyError otherwise. */
    method Complete(id: nat) returns (known: bool)
      modifies this
      ensures known <==> Completed(old(Now()), id).Some?
      ensures Now() == Completed(old(Now()), id).GetOr(old(Now()))
    {
      if id !in jobs {
        return false;
      }
      jobs := jobs[id := jobs[id].(status := Succeeded, owner := None, expires := None)];
      known := true;
    }

    method Fail(id: nat, error: string, delay: Time, now: Time) returns (status: Option<Status>)
      modifies this
      ensures var outcome := FailedOnce(old(Now()), id, error, delay, now);
              if outcome.None? then status == None && Now() == old(Now())
              else status == Some(outcome.value.1) && Now() == outcome.value.0
    {
      if id !in jobs {
        return None;
      }
      var job := jobs[id].(lastError := Truncated(error), owner := None, expires := None);
      if job.attempts >= job.maxAttempts {
        jobs := jobs[id := job.(status := Dead)];
        return Some(Dead);
      }
      jobs := jobs[id := job.(status := Queued, availableAt := now + delay)];
      status := Some(Queued);
    }
  }

  function Empty(capacity: int, maxAttempts: int): Queue {
    Queue(map[], map[], 1, capacity, maxAttempts)
  }
}

/** The queue over whole runs. */
module QueueRuns {
  import opened Wrappers
  import opened Dispatcher

  datatype Op =
    | Enqueue(kind: string, threadId: string, key: string, payload: string)
    | Claim(worker: string, lease: Time)
    | Heartbeat(id: nat, worker: string, lease: Time)
    | Complete(id: nat, worker: string)
    | Fail(id: nat, worker: string, error: string, delay: Time)
    | Reclaim

  datatype Event = Event(op: Op, at: Time)

  /**
   The queue, the latest time seen, until when each worker believes it holds each
   job, and how often each job was handed out.
   */
  datatype History = History(queue: Queue, clock: Time, beliefs: map<(nat, string), Time>, claims: map<nat, nat>)

  function ClaimsOf(claims: map<nat, nat>, id: nat): nat {
    if id in claims then claims[id] else 0
  }

  function Step(h: History, e: Event): History {
    var clock := if e.at >= h.clock then e.at else h.clock;
    match e.op
    case Enqueue(kind, threadId, key, payload) =>
      h.(queue := Enqueued(h.queue, kind, threadId, key, payload).0, clock := clock)
    case Claim(worker, lease) =>
      var (q, claimed) := Claimed(h.queue, worker, lease, e.at);
      if claimed.None? then h.(queue := q, clock := clock)
      else
        var id := claimed.value.id;
        History(q, clock, h.beliefs[(id, worker) := e.at + lease], h.claims[id := ClaimsOf(h.claims, id) + 1])
    case Heartbeat(id, worker, lease) =>
      var (q, held) := Heartbeaten(h.queue, id, worker, lease, e.at);
      h.(queue := q, clock := clock, beliefs := if held then h.beliefs[(id, worker) := e.at + lease] else h.beliefs)
    case Complete(id, worker) =>
      h.(queue := Completed(h.queue, id).GetOr(h.queue), clock := clock, beliefs := h.beliefs - {(id, worker)})
    case Fail(id, worker, error, delay) =>
      var outcome := FailedOnce(h.queue, id, error, delay, e.at);
      h.(queue := if outcome.Some? then outcome.value.0 else h.queue, clock := clock,
         beliefs := h.beliefs - {(id, worker)})
    case Reclaim => h.(queue := h.queue.(jobs := Swept(h.queue.jobs, e.at, false)), clock := clock)
  }

  function After(capacity: int, maxAttempts: int, events: seq<Event>): History {
    if events == [] then History(Empty(capacity, maxAttempts), 0.0, map[], map[])
    else Step(After(capacity, maxAttempts, events[..|events| - 1]), events[|events| - 1])
  }

  // ---------------------------------------------------------------------
  // What holds on every run, whoever calls what
  // ---------------------------------------------------------------------

  ghost predicate Filed(q: Queue, id: nat) {
    && id in q.jobs && 1 <= id < q.next && q.jobs[id].id == id
    && q.jobs[id].key in q.byKey && q.byKey[q.jobs[id].key] == id
  }

  ghost predicate Indexed(q: Queue, key: string) {
    key in q.byKey && q.byKey[key] in q.jobs && q.jobs[q.byKey[key]].key == key
  }

  ghost predicate KeysMatchJobs(q: Queue) {
    && 1 <= q.next
    && (forall id {:trigger Filed(q, id)} | id in q.jobs :: Filed(q, id))
    && (forall key {:trigger Indexed(q, key)} | key in q.byKey :: Indexed(q, key))
  }

  ghost predicate LeaseMeansRunning(q: Queue) {
    forall id | id in q.jobs ::
      && (q.jobs[id].status == Running <==> q.jobs[id].owner.Some?)
      && (q.jobs[id].owner.Some? <==> q.jobs[id].expires.Some?)
  }

  ghost predicate AttemptsAreClaims(h: History) {
    && (forall id | id in h.queue.jobs :: h.queue.jobs[id].attempts == ClaimsOf(h.claims, id))
    && (forall id | id in h.claims :: id in h.queue.jobs)
  }

  /** A job a worker may be handed now: due, or held under a lease that has run out. */
  ghost predicate Claimable(job: MemoryJob, now: Time) {
    (job.status == Queued && job.availableAt <= now) || Lapsed(job, now)
  }

  /**
   A claim leases the lowest-numbered claimable job to the caller and shows it as it is,
   and returns nothing exactly when none is claimable; the other lapsed jobs are freed.
   */
  lemma ClaimTakesLowestReady(q: Queue, worker: string, lease: Time, now: Time)
    requires KeysMatchJobs(q)
    ensures var (q', claimed) := Claimed(q, worker, lease, now);
            && q'.jobs.Keys == q.jobs.Keys && q'.byKey == q.byKey && q'.next == q.next
            && (claimed.None? <==> forall id | id in q.jobs :: !Claimable(q.jobs[id], now))
            && (claimed.Some? ==>
                  var id := claimed.value.id;
                  && id in q.jobs && Claimable(q.jobs[id], now)
                  && (forall other | other in q.jobs && Claimable(q.jobs[other], now) :: id <= other)
                  && HandedOut(q.jobs[id], q'.jobs[id], claimed.value, worker, now + lease))
            && (forall id | id in q.jobs && (claimed.Some? ==> id != claimed.value.id) ::
                  Freed(q.jobs[id], q'.jobs[id], now, true))
  {
    forall id | id in q.jobs
      ensures q.jobs[id].id == id && id < q.next
      ensures var swept := Swept(q.jobs, now, true);
              Freed(q.jobs[id], swept[id], now, true) && (Ready(swept[id], now) <==> Claimable(q.jobs[id], now))
    {
      FiledUnderItsNumber(q, id);
      ReclaimedIsFreed(q.jobs[id], now, true);
    }
    hide KeysMatchJobs, Reclaimed, Lapsed, Freed;
    var found := LowestReady(Swept(q.jobs, now, true), now, 0, q.next);
    if found.Some? {
      ReclaimedIsFreed(q.jobs[found.value], now, true);
      FreedKeepsFacts(q.jobs[found.value], Swept(q.jobs, now, true)[found.value], now);
    }
  }

  lemma FreedKeepsFacts(job: MemoryJob, job': MemoryJob, now: Time)
    requires Freed(job, job', now, true)
    ensures job'.id == job.id && job'.key == job.key && job'.kind == job.kind && job'.threadId == job.threadId
    ensures job'.payload == job.payload && job'.attempts == job.attempts && job'.maxAttempts == job.maxAttempts
  {
  }

  /** The job as it was, running for this worker until the lease runs out, and the worker's view of it. */
  ghost predicate HandedOut(job: MemoryJob, job': MemoryJob, view: Job, worker: string, until: Time) {
    && job'.status == Running && job'.owner == Some(worker) && job'.expires == Some(until)
    && job'.attempts == job.attempts + 1 && job'.maxAttempts == job.maxAttempts && job'.lastError == ""
    && job'.id == job.id && job'.key == job.key && job'.kind == job.kind && job'.threadId == job.threadId
    && job'.payload == job.payload
    && view.id == job.id && view.key == job.key && view.kind == job.kind && view.threadId == job.threadId
    && view.payload == job.payload && view.status == Running && view.attempts == job.attempts + 1
    && view.maxAttempts == job.maxAttempts && view.lastError == ""
  }

  /** On every run, a heartbeat is heard exactly from the worker on record, and moves the end of its lease alone. */
  lemma HeartbeatExactlyWhen(capacity: int, maxAttempts: int, events: seq<Event>, id: nat, worker: string, lease: Time,
                             now: Time)
    ensures var q := After(capacity, maxAttempts, events).queue;
            var (q', held) := Heartbeaten(q, id, worker, lease, now);
            && (held <==> id in q.jobs && q.jobs[id].owner == Some(worker))
            && (held ==> q' == q.(jobs := q.jobs[id := q.jobs[id].(expires := Some(now + lease))]))
            && (!held ==> q' == q)
  {
    BookkeepingHolds(capacity, maxAttempts, events);
    hide KeysMatchJobs, After;
  }

  /** Dedupe keys and jobs are in bijection, a job runs exactly while it has a lease, and
      its attempts count the times it was handed out. */
  lemma {:induction false} BookkeepingHolds(capacity: int, maxAttempts: int, events: seq<Event>)
    ensures var h := After(capacity, maxAttempts, events);
            KeysMatchJobs(h.queue) && LeaseMeansRunning(h.queue) && AttemptsAreClaims(h)
  {
    if events != [] {
      BookkeepingHolds(capacity, maxAttempts, events[..|events| - 1]);
      StepKeepsBookkeeping(After(capacity, maxAttempts, events[..|events| - 1]), events[|events| - 1]);
    }
  }

  /** Jobs may change everything but their numbers and keys. */
  lemma SameKeysStillMatch(q: Queue, jobs: map<nat, MemoryJob>)
    requires KeysMatchJobs(q) && jobs.Keys == q.jobs.Keys
    requires forall id | id in jobs :: jobs[id].id == q.jobs[id].id && jobs[id].key == q.jobs[id].key
    ensures KeysMatchJobs(q.(jobs := jobs))
  {
    var q' := q.(jobs := jobs);
    forall id | id in q'.jobs ensures Filed(q', id) {
      assert Filed(q, id);
    }
    forall key | key in q'.byKey ensures Indexed(q', key) {
      assert Indexed(q, key);
    }
  }

  lemma UpdateKeepsBookkeeping(q: Queue, id: nat, job: MemoryJob)
    requires KeysMatchJobs(q) && LeaseMeansRunning(q)
    requires id in q.jobs && job.id == q.jobs[id].id && job.key == q.jobs[id].key
    requires (job.status == Running <==> job.owner.Some?) && (job.owner.Some? <==> job.expires.Some?)
    ensures KeysMatchJobs(q.(jobs := q.jobs[id := job])) && LeaseMeansRunning(q.(jobs := q.jobs[id := job]))
  {
    SameKeysStillMatch(q, q.jobs[id := job]);
    hide KeysMatchJobs;
  }

  lemma SweepKeepsBookkeeping(h: History, now: Time, claiming: bool)
    requires KeysMatchJobs(h.queue) && LeaseMeansRunning(h.queue) && AttemptsAreClaims(h)
    ensures var q' := h.queue.(jobs := Swept(h.queue.jobs, now, claiming));
            KeysMatchJobs(q') && LeaseMeansRunning(q') && AttemptsAreClaims(h.(queue := q'))
  {
    hide KeysMatchJobs, Reclaimed, Expired, LeaseMeansRunning;
    forall id | id in h.queue.jobs
      ensures var job, job' := h.queue.jobs[id], Reclaimed(h.queue.jobs[id], now, claiming);
              job'.id == job.id && job'.key == job.key && job'.attempts == job.attempts
    {
      ReclaimKeepsIdentity(h.queue.jobs[id], now, claiming);
    }
    SameKeysStillMatch(h.queue, Swept(h.queue.jobs, now, claiming));
    SweepKeepsLeases(h.queue, now, claiming);
  }

  lemma ReclaimKeepsIdentity(job: MemoryJob, now: Time, claiming: bool)
    ensures var job' := Reclaimed(job, now, claiming);
            job'.id == job.id && job'.key == job.key && job'.attempts == job.attempts
  {
  }

  lemma SweepKeepsLeases(q: Queue, now: Time, claiming: bool)
    requires LeaseMeansRunning(q)
    ensures LeaseMeansRunning(q.(jobs := Swept(q.jobs, now, claiming)))
  {
  }

  lemma ClaimKeepsBookkeeping(h: History, worker: string, lease: Time, at: Time)
    requires KeysMatchJobs(h.queue) && LeaseMeansRunning(h.queue) && AttemptsAreClaims(h)
    ensures var h' := Step(h, Event(Claim(worker, lease), at));
            KeysMatchJobs(h'.queue) && LeaseMeansRunning(h'.queue) && AttemptsAreClaims(h')
  {
    hide Swept, KeysMatchJobs, LeaseMeansRunning;
    var q := h.queue.(jobs := Swept(h.queue.jobs, at, true));
    SweepKeepsBookkeeping(h, at, true);
    var found := LowestReady(q.jobs, at, 0, q.next);
    if found.Some? {
      FiledUnderItsNumber(q, found.value);
      UpdateKeepsBookkeeping(q, found.value, Leased(q.jobs[found.value], worker, at + lease));
    }
  }

  lemma FiledUnderItsNumber(q: Queue, id: nat)
    requires KeysMatchJobs(q) && id in q.jobs
    ensures q.jobs[id].id == id && 1 <= id < q.next
  {
    assert Filed(q, id);
  }

  lemma NextNumberIsFree(q: Queue)
    requires KeysMatchJobs(q)
    ensures q.next !in q.jobs
  {
    if q.next in q.jobs {
      FiledUnderItsNumber(q, q.next);
    }
  }

  lemma EnqueueKeepsBookkeeping(h: History, kind: string, threadId: string, key: string, payload: string, at: Time)
    requires KeysMatchJobs(h.queue) && LeaseMeansRunning(h.queue) && AttemptsAreClaims(h)
    ensures var h' := Step(h, Event(Enqueue(kind, threadId, key, payload), at));
            KeysMatchJobs(h'.queue) && LeaseMeansRunning(h'.queue) && AttemptsAreClaims(h')
  {
    hide LiveBelow;
    var q, q' := h.queue, Enqueued(h.queue, kind, threadId, key, payload).0;
    if q' != q {
      NextNumberIsFree(q);
      forall id | id in q'.jobs ensures Filed(q', id) {
        assert id in q.jobs ==> Filed(q, id);
      }
      forall k | k in q'.byKey ensures Indexed(q', k) {
        assert k in q.byKey ==> Indexed(q, k);
      }
    }
  }

  lemma StepKeepsBookkeeping(h: History, e: Event)
    requires KeysMatchJobs(h.queue) && LeaseMeansRunning(h.queue) && AttemptsAreClaims(h)
    ensures var h' := Step(h, e);
            KeysMatchJobs(h'.queue) && LeaseMeansRunning(h'.queue) && AttemptsAreClaims(h')
  {
    hide KeysMatchJobs, LiveBelow, Swept, Enqueued, Claimed;
    match e.op
    case Enqueue(kind, threadId, key, payload) =>
      EnqueueKeepsBookkeeping(h, kind, threadId, key, payload, e.at);
    case Claim(worker, lease) =>
      ClaimKeepsBookkeeping(h, worker, lease, e.at);
    case Reclaim =>
      SweepKeepsBookkeeping(h, e.at, false);
    case _ =>
      var id, h' := e.op.id, Step(h, e);
      assert h'.queue == h.queue
             || (id in h.queue.jobs && h'.queue == h.queue.(jobs := h.queue.jobs[id := h'.queue.jobs[id]]));
      if h'.queue != h.queue {
        ReportKeepsBookkeeping(h, h', id);
      }
  }

  lemma ReportKeepsBookkeeping(h: History, h': History, id: nat)
    requires KeysMatchJobs(h.queue) && LeaseMeansRunning(h.queue) && AttemptsAreClaims(h)
    requires id in h.queue.jobs && id in h'.queue.jobs && h'.claims == h.claims
    requires var job, job' := h.queue.jobs[id], h'.queue.jobs[id];
             && h'.queue == h.queue.(jobs := h.queue.jobs[id := job'])
             && job'.id == job.id && job'.key == job.key && job'.attempts == job.attempts
             && (job'.status == Running <==> job'.owner.Some?) && (job'.owner.Some? <==> job'.expires.Some?)
    ensures KeysMatchJobs(h'.queue) && LeaseMeansRunning(h'.queue) && AttemptsAreClaims(h')
  {
    UpdateKeepsBookkeeping(h.queue, id, h'.queue.jobs[id]);
    hide KeysMatchJobs, LeaseMeansRunning;
  }

  // ---------------------------------------------------------------------
  // What needs the callers' discipline
  // ---------------------------------------------------------------------

  /** Time does not go backwards, and only the current holder reports on a job. */
  ghost predicate Proper(h: History, e: Event) {
    && e.at >= h.clock
    && (e.op.Complete? || e.op.Fail? ==> e.op.id in h.queue.jobs && h.queue.jobs[e.op.id].owner == Some(e.op.worker))
  }

  ghost predicate ProperRun(capacity: int, maxAttempts: int, events: seq<Event>) {
    events != [] ==>
      && ProperRun(capacity, maxAttempts, events[..|events| - 1])
      && Proper(After(capacity, maxAttempts, events[..|events| - 1]), events[|events| - 1])
  }

  /** A worker whose lease has not run out is the one the queue has on record. */
  ghost predicate BeliefsAreTrue(h: History) {
    forall id, worker | (id, worker) in h.beliefs && h.beliefs[(id, worker)] >= h.clock ::
      && id in h.queue.jobs
      && h.queue.jobs[id].status == Running
      && h.queue.jobs[id].owner == Some(worker)
      && h.queue.jobs[id].expires == Some(h.beliefs[(id, worker)])
  }

  /** Time does not go backwards, and nobody reports on a job while another worker's lease on it is unexpired. */
  ghost predicate Harmless(h: History, e: Event) {
    && e.at >= h.clock
    && (e.op.Complete? || e.op.Fail? ==> e.op.id in h.queue.jobs ==> !HeldByOther(h, e.op.id, e.op.worker, e.at))
  }

  ghost predicate HeldByOther(h: History, id: nat, worker: string, now: Time) {
    exists other :: other != worker && (id, other) in h.beliefs && h.beliefs[(id, other)] >= now
  }

  ghost predicate HarmlessRun(capacity: int, maxAttempts: int, events: seq<Event>) {
    events != [] ==>
      && HarmlessRun(capacity, maxAttempts, events[..|events| - 1])
      && Harmless(After(capacity, maxAttempts, events[..|events| - 1]), events[|events| - 1])
  }

  /** A report keeps the beliefs true exactly when nobody else holds an unexpired lease. */
  lemma ReportKeepsBeliefsExactlyWhen(h: History, e: Event)
    requires BeliefsAreTrue(h) && e.at >= h.clock && (e.op.Complete? || e.op.Fail?)
    ensures BeliefsAreTrue(Step(h, e)) <==> Harmless(h, e)
  {
    var id, worker, h' := e.op.id, e.op.worker, Step(h, e);
    if id in h.queue.jobs {
      assert h'.queue.jobs[id].status != Running;
      assert forall other | other != id && other in h.queue.jobs :: h'.queue.jobs[other] == h.queue.jobs[other];
      if HeldByOther(h, id, worker, e.at) {
        var other :| other != worker && (id, other) in h.beliefs && h.beliefs[(id, other)] >= e.at;
        assert (id, other) in h'.beliefs;
      }
    }
  }

  lemma SweepKeepsBeliefs(h: History, now: Time, claiming: bool)
    requires BeliefsAreTrue(h) && now >= h.clock
    ensures BeliefsAreTrue(h.(queue := h.queue.(jobs := Swept(h.queue.jobs, now, claiming)), clock := now))
  {
  }

  lemma ClaimKeepsBeliefs(h: History, worker: string, lease: Time, at: Time)
    requires KeysMatchJobs(h.queue) && BeliefsAreTrue(h) && at >= h.clock
    ensures BeliefsAreTrue(Step(h, Event(Claim(worker, lease), at)))
  {
    SweepKeepsBeliefs(h, at, true);
    var swept := Swept(h.queue.jobs, at, true);
    var found := LowestReady(swept, at, 0, h.queue.next);
    if found.Some? {
      FiledUnderItsNumber(h.queue, found.value);
      LeaseKeepsBeliefs(h.(queue := h.queue.(jobs := swept), clock := at), found.value, worker, at + lease);
    }
    hide Swept, LowestReady, BeliefsAreTrue;
  }

  /** Leasing a queued job contradicts nobody: an unexpired belief would mean it runs. */
  lemma LeaseKeepsBeliefs(h: History, id: nat, worker: string, until: Time)
    requires BeliefsAreTrue(h) && id in h.queue.jobs && h.queue.jobs[id].status == Queued
    ensures BeliefsAreTrue(h.(queue := h.queue.(jobs := h.queue.jobs[id := Leased(h.queue.jobs[id], worker, until)]),
                              beliefs := h.beliefs[(id, worker) := until]))
  {
  }

  lemma StepKeepsBeliefs(h: History, e: Event)
    requires KeysMatchJobs(h.queue) && LeaseMeansRunning(h.queue) && BeliefsAreTrue(h) && Harmless(h, e)
    ensures BeliefsAreTrue(Step(h, e))
  {
    match e.op
    case Enqueue(kind, threadId, key, payload) =>
      hide LiveBelow;
      NextNumberIsFree(h.queue);
    case Claim(worker, lease) =>
      ClaimKeepsBeliefs(h, worker, lease, e.at);
    case Heartbeat(id, worker, lease) =>
    case Complete(id, worker) =>
      ReportKeepsBeliefsExactlyWhen(h, e);
      hide BeliefsAreTrue;
    case Fail(id, worker, error, delay) =>
      ReportKeepsBeliefsExactlyWhen(h, e);
      hide BeliefsAreTrue;
    case Reclaim =>
      SweepKeepsBeliefs(h, e.at, false);
      hide BeliefsAreTrue;
  }

  lemma {:induction false} BeliefsHold(capacity: int, maxAttempts: int, events: seq<Event>)
    requires HarmlessRun(capacity, maxAttempts, events)
    ensures BeliefsAreTrue(After(capacity, maxAttempts, events))
  {
    if events != [] {
      var front := events[..|events| - 1];
      BeliefsHold(capacity, maxAttempts, front);
      BookkeepingHolds(capacity, maxAttempts, front);
      StepKeepsBeliefs(After(capacity, maxAttempts, front), events[|events| - 1]);
    }
  }

  /** No two workers ever hold an unexpired lease on the same job. */
  lemma LeasesAreExclusive(capacity: int, maxAttempts: int, events: seq<Event>, id: nat, first: string, second: string)
    requires HarmlessRun(capacity, maxAttempts, events)
    requires var h := After(capacity, maxAttempts, events);
             && (id, first) in h.beliefs && h.beliefs[(id, first)] >= h.clock
             && (id, second) in h.beliefs && h.beliefs[(id, second)] >= h.clock
    ensures first == second
  {
    BeliefsHold(capacity, maxAttempts, events);
  }

  // ---------------------------------------------------------------------
  // Capacity
  // ---------------------------------------------------------------------

  function One(b: bool): nat {
    if b then 1 else 0
  }

  lemma {:induction false} UpdateChangesCount(jobs: map<nat, MemoryJob>, id: nat, job: MemoryJob, n: nat)
    ensures LiveBelow(jobs[id := job], n) ==
              if id < n then LiveBelow(jobs, n) - One(id in jobs && IsLive(jobs[id])) + One(IsLive(job))
                else LiveBelow(jobs, n)
    ensures id < n && id in jobs && IsLive(jobs[id]) ==> LiveBelow(jobs, n) > 0
  {
    if n > 0 {
      UpdateChangesCount(jobs, id, job, n - 1);
    }
  }

  lemma {:induction false} SweepKeepsCount(jobs: map<nat, MemoryJob>, now: Time, claiming: bool, n: nat)
    ensures LiveBelow(Swept(jobs, now, claiming), n) == LiveBelow(jobs, n)
  {
    if n > 0 {
      SweepKeepsCount(jobs, now, claiming, n - 1);
    }
  }

  /** Reporting a failure makes the queue deeper exactly when the job was already finished and has attempts left. */
  lemma FailDeepensExactlyWhen(q: Queue, id: nat, error: string, delay: Time, now: Time)
    requires Numbered(q)
    ensures var outcome := FailedOnce(q, id, error, delay, now);
            (outcome.Some? && Depth(outcome.value.0) > Depth(q)) <==>
              id in q.jobs && !IsLive(q.jobs[id]) && q.jobs[id].attempts < q.jobs[id].maxAttempts
    ensures var outcome := FailedOnce(q, id, error, delay, now);
            outcome.Some? ==> Depth(outcome.value.0) <= Depth(q) + 1
  {
    if id in q.jobs {
      var outcome := FailedOnce(q, id, error, delay, now);
      UpdateChangesCount(q.jobs, id, outcome.value.0.jobs[id], q.next);
    }
  }

  // ---------------------------------------------------------------------
  // Retries
  // ---------------------------------------------------------------------

  /** Every job is held to the configured number of attempts. */
  ghost predicate LimitsAre(q: Queue, capacity: int, maxAttempts: int) {
    q.capacity == capacity && q.maxAttempts == maxAttempts && forall id | id in q.jobs ::
      q.jobs[id].maxAttempts == maxAttempts
  }

  lemma StepKeepsLimits(h: History, e: Event, capacity: int, maxAttempts: int)
    requires LimitsAre(h.queue, capacity, maxAttempts)
    ensures LimitsAre(Step(h, e).queue, capacity, maxAttempts)
  {
    hide LiveBelow, LowestReady, Swept, Leased;
    match e.op
    case Claim(worker, lease) => ClaimKeepsLimits(h.queue, worker, lease, e.at, capacity, maxAttempts);
    case Reclaim => SweepKeepsLimits(h.queue, e.at, false, capacity, maxAttempts);
    case _ =>
  }

  lemma SweepKeepsLimits(q: Queue, now: Time, claiming: bool, capacity: int, maxAttempts: int)
    requires LimitsAre(q, capacity, maxAttempts)
    ensures LimitsAre(q.(jobs := Swept(q.jobs, now, claiming)), capacity, maxAttempts)
  {
  }

  lemma ClaimKeepsLimits(q: Queue, worker: string, lease: Time, now: Time, capacity: int, maxAttempts: int)
    requires LimitsAre(q, capacity, maxAttempts)
    ensures LimitsAre(Claimed(q, worker, lease, now).0, capacity, maxAttempts)
  {
    hide LowestReady, Swept;
    SweepKeepsLimits(q, now, true, capacity, maxAttempts);
  }

  lemma {:induction false} LimitsHold(capacity: int, maxAttempts: int, events: seq<Event>)
    ensures LimitsAre(After(capacity, maxAttempts, events).queue, capacity, maxAttempts)
  {
    hide LimitsAre, Step;
    if events == [] {
      EmptyHasLimits(capacity, maxAttempts);
    } else {
      LimitsHold(capacity, maxAttempts, events[..|events| - 1]);
      StepKeepsLimits(After(capacity, maxAttempts, events[..|events| - 1]), events[|events| - 1], capacity,
                      maxAttempts);
    }
  }

  lemma EmptyHasLimits(capacity: int, maxAttempts: int)
    ensures LimitsAre(Empty(capacity, maxAttempts), capacity, maxAttempts)
  {
  }

  /** The job waits, for nobody, until this moment. */
  ghost predicate WaitsUntil(q: Queue, id: nat, until: Time) {
    id in q.jobs && q.jobs[id].status == Queued && q.jobs[id].availableAt == until
  }

  /**
   On every run, a failure reported for a known job leaves it dead exactly when it was
   handed out as often as it may be, and otherwise waiting for the delay to pass.
   */
  lemma FailureIsFinalExactlyWhen(capacity: int, maxAttempts: int, events: seq<Event>, e: Event)
    requires e.op.Fail? && e.op.id in After(capacity, maxAttempts, events).queue.jobs
    ensures var h := After(capacity, maxAttempts, events);
            var q, id := After(capacity, maxAttempts, events + [e]).queue, e.op.id;
            && id in q.jobs && q.jobs[id].owner == None && q.jobs[id].lastError == Truncated(e.op.error)
            && (q.jobs[id].status == Dead <==> ClaimsOf(h.claims, id) >= maxAttempts)
            && (ClaimsOf(h.claims, id) < maxAttempts ==> WaitsUntil(q, id, e.at + e.op.delay))
  {
    BookkeepingHolds(capacity, maxAttempts, events);
    LimitsHold(capacity, maxAttempts, events);
    OneMoreEvent(capacity, maxAttempts, events, e);
    hide After, KeysMatchJobs;
  }

  /** The events of a run that leave a waiting job alone: earlier than it is due, and no report on it. */
  ghost predicate Undue(events: seq<Event>, id: nat, until: Time) {
    forall i | 0 <= i < |events| ::
      && events[i].at < until
      && (events[i].op.Complete? || events[i].op.Fail? ==> events[i].op.id != id)
  }

  lemma StepKeepsWaiting(h: History, e: Event, id: nat, until: Time)
    requires KeysMatchJobs(h.queue) && WaitsUntil(h.queue, id, until) && Undue([e], id, until)
    ensures WaitsUntil(Step(h, e).queue, id, until) && Step(h, e).claims.Keys >= h.claims.Keys
    ensures ClaimsOf(Step(h, e).claims, id) == ClaimsOf(h.claims, id)
  {
    hide LiveBelow;
    assert e == [e][0];
    FiledUnderItsNumber(h.queue, id);
    if e.op.Claim? {
      ClaimTakesLowestReady(h.queue, e.op.worker, e.op.lease, e.at);
      NextNumberIsFree(h.queue);
    } else if e.op.Enqueue? {
      NextNumberIsFree(h.queue);
    }
    hide KeysMatchJobs, LowestReady;
  }

  /** Until its delay has passed a job that is to be retried is handed to nobody. */
  lemma {:induction false} RetryWaitsOutItsDelay(capacity: int, maxAttempts: int, events: seq<Event>, rest: seq<Event>,
                                                 id: nat, until: Time)
    requires WaitsUntil(After(capacity, maxAttempts, events).queue, id, until) && Undue(rest, id, until)
    ensures var h := After(capacity, maxAttempts, events + rest);
            WaitsUntil(h.queue, id, until)
              && ClaimsOf(h.claims, id) == ClaimsOf(After(capacity, maxAttempts, events).claims, id)
  {
    if rest == [] {
      assert events + rest == events;
    } else {
      var front, e := rest[..|rest| - 1], rest[|rest| - 1];
      assert events + rest == (events + front) + [e];
      RetryWaitsOutItsDelay(capacity, maxAttempts, events, front, id, until);
      OneMoreEvent(capacity, maxAttempts, events + front, e);
      BookkeepingHolds(capacity, maxAttempts, events + front);
      StepKeepsWaiting(After(capacity, maxAttempts, events + front), e, id, until);
      hide After, Step, KeysMatchJobs;
    }
  }

  ghost predicate WithinCapacity(q: Queue) {
    Depth(q) <= q.capacity || Depth(q) == 0
  }

  lemma StepKeepsCapacity(h: History, e: Event)
    requires KeysMatchJobs(h.queue) && LeaseMeansRunning(h.queue) && WithinCapacity(h.queue) && Proper(h, e)
    ensures WithinCapacity(Step(h, e).queue)
  {
    hide KeysMatchJobs;
    var q, q' := h.queue, Step(h, e).queue;
    match e.op
    case Enqueue(kind, threadId, key, payload) =>
      if q' != q {
        UpdateChangesCount(q.jobs, q.next, q'.jobs[q.next], q.next);
      }
    case Claim(worker, lease) =>
      var swept := Swept(q.jobs, e.at, true);
      SweepKeepsCount(q.jobs, e.at, true, q.next);
      var id := LowestReady(swept, e.at, 0, q.next);
      if id.Some? {
        UpdateChangesCount(swept, id.value, q'.jobs[id.value], q.next);
      }
    case Heartbeat(id, worker, lease) =>
      if id in q.jobs {
        UpdateChangesCount(q.jobs, id, q'.jobs[id], q.next);
      }
    case Complete(id, worker) =>
      UpdateChangesCount(q.jobs, id, q'.jobs[id], q.next);
    case Fail(id, worker, error, delay) =>
      UpdateChangesCount(q.jobs, id, q'.jobs[id], q.next);
    case Reclaim =>
      SweepKeepsCount(q.jobs, e.at, false, q.next);
  }

  /** The waiting and running jobs never outnumber the configured capacity. */
  lemma {:induction false} CapacityHolds(capacity: int, maxAttempts: int, events: seq<Event>)
    requires ProperRun(capacity, maxAttempts, events)
    ensures WithinCapacity(After(capacity, maxAttempts, events).queue)
  {
    if events != [] {
      var front := events[..|events| - 1];
      CapacityHolds(capacity, maxAttempts, front);
      BookkeepingHolds(capacity, maxAttempts, front);
      StepKeepsCapacity(After(capacity, maxAttempts, front), events[|events| - 1]);
    }
  }

  lemma OneMoreEvent(capacity: int, maxAttempts: int, events: seq<Event>, e: Event)
    ensures After(capacity, maxAttempts, events + [e]) == Step(After(capacity, maxAttempts, events), e)
  {
    assert (events + [e])[..|events|] == events;
  }

  const FIRST := MemoryJob(1, "apply", "t1", "a", "", Queued, 0, 3, "", 0.0, None, None)
  const SECOND := MemoryJob(2, "apply", "t2", "b", "", Queued, 0, 3, "", 0.0, None, None)
  const FINISHED := FIRST.(status := Succeeded, attempts := 1)

  const ONE_JOB_DONE := [
    Event(Enqueue("apply", "t1", "a", ""), 0.0), Event(Claim("w", 60.0), 0.0), Event(Complete(1, "w"), 0.0)]

  lemma OneJobDone()
    ensures After(1, 3, ONE_JOB_DONE).queue == Queue(map[1 := FINISHED], map["a" := 1], 2, 1, 3)
  {
    var e := ONE_JOB_DONE;
    assert e == ([] + [e[0]] + [e[1]]) + [e[2]];
    OneMoreEvent(1, 3, [], e[0]);
    OneMoreEvent(1, 3, [] + [e[0]], e[1]);
    OneMoreEvent(1, 3, [] + [e[0]] + [e[1]], e[2]);
    var h0 := After(1, 3, []);
    hide After;
    var h1 := Step(h0, e[0]);
    assert h1.queue == Queue(map[1 := FIRST], map["a" := 1], 2, 1, 3);
    assert LowestReady(h1.queue.jobs, 0.0, 0, 2) == Some(1);
    assert Swept(h1.queue.jobs, 0.0, true) == h1.queue.jobs;
    var h2 := Step(h1, e[1]);
    assert h2.queue == Queue(map[1 := Leased(FIRST, "w", 60.0)], map["a" := 1], 2, 1, 3);
  }

  lemma DepthOfTwo(q: Queue)
    requires q.next <= 3 && 0 !in q.jobs && 1 in q.jobs && !IsLive(q.jobs[1])
    ensures Depth(q) == if q.next == 3 && 2 in q.jobs && IsLive(q.jobs[2]) then 1 else 0
  {
    assert LiveBelow(q.jobs, 1) == 0;
    assert LiveBelow(q.jobs, 2) == 0;
  }

  const MEDDLING := [
    Event(Enqueue("apply", "t1", "a", ""), 0.0), Event(Claim("w", 60.0), 0.0),
    Event(Fail(1, "v", "not mine", 0.0), 0.0), Event(Claim("v", 60.0), 0.0)]

  /** A failure reported by somebody else while the lease runs hands the job out twice. */
  lemma MeddlingSharesAJob()
    ensures var h := After(1, 3, MEDDLING);
            && (1, "w") in h.beliefs && h.beliefs[(1, "w")] >= h.clock
            && (1, "v") in h.beliefs && h.beliefs[(1, "v")] >= h.clock
  {
    var e := MEDDLING;
    assert e == ([] + [e[0]] + [e[1]] + [e[2]]) + [e[3]];
    OneMoreEvent(1, 3, [], e[0]);
    OneMoreEvent(1, 3, [] + [e[0]], e[1]);
    OneMoreEvent(1, 3, [] + [e[0]] + [e[1]], e[2]);
    OneMoreEvent(1, 3, [] + [e[0]] + [e[1]] + [e[2]], e[3]);
    var h0 := After(1, 3, []);
    hide After;
    var h2 := Step(Step(h0, e[0]), e[1]);
    OneJobLeased(h0, Step(h0, e[0]));
    var again := FIRST.(attempts := 1, lastError := "not mine");
    var h3 := Step(h2, e[2]);
    FailedByAnother(h2);
    ReadyJobIsLeased(h3, "v", again);
  }

  lemma OneJobLeased(h0: History, h1: History)
    requires h0 == History(Empty(1, 3), 0.0, map[], map[]) && h1 == Step(h0, MEDDLING[0])
    ensures var h2 := Step(h1, MEDDLING[1]);
            && h2.queue == Queue(map[1 := Leased(FIRST, "w", 60.0)], map["a" := 1], 2, 1, 3)
            && h2.beliefs == map[(1, "w") := 60.0] && h2.clock == 0.0
  {
    assert h1.queue == Queue(map[1 := FIRST], map["a" := 1], 2, 1, 3);
    ReadyJobIsLeased(h1, "w", FIRST);
  }

  lemma ReadyJobIsLeased(h: History, worker: string, job: MemoryJob)
    requires h.queue == Queue(map[1 := job], map["a" := 1], 2, 1, 3) && h.clock == 0.0
    requires job.status == Queued && job.availableAt <= 0.0 && job.id == 1
    ensures var h' := Step(h, Event(Claim(worker, 60.0), 0.0));
            && h'.queue == Queue(map[1 := Leased(job, worker, 60.0)], map["a" := 1], 2, 1, 3)
            && h'.beliefs == h.beliefs[(1, worker) := 60.0] && h'.clock == 0.0
  {
    assert Swept(h.queue.jobs, 0.0, true) == h.queue.jobs;
    assert LowestReady(h.queue.jobs, 0.0, 0, 2) == Some(1);
  }

  lemma FailedByAnother(h: History)
    requires h.queue == Queue(map[1 := Leased(FIRST, "w", 60.0)], map["a" := 1], 2, 1, 3)
    requires h.beliefs == map[(1, "w") := 60.0] && h.clock == 0.0
    ensures var h' := Step(h, MEDDLING[2]);
            && h'.queue == Queue(map[1 := FIRST.(attempts := 1, lastError := "not mine")], map["a" := 1], 2, 1, 3)
            && h'.beliefs == h.beliefs && h'.clock == 0.0
  {
    assert Truncated("not mine") == "not mine";
  }

  const TWO_JOBS := ONE_JOB_DONE + [Event(Enqueue("apply", "t2", "b", ""), 0.0)]

  lemma SecondJobWaits()
    ensures After(1, 3, TWO_JOBS).queue == Queue(map[1 := FINISHED, 2 := SECOND], map["a" := 1, "b" := 2], 3, 1, 3)
  {
    OneJobDone();
    OneMoreEvent(1, 3, ONE_JOB_DONE, Event(Enqueue("apply", "t2", "b", ""), 0.0));
    DepthOfTwo(Queue(map[1 := FINISHED], map["a" := 1], 2, 1, 3));
    hide After, LiveBelow;
  }

  const LATE_FAILURE := Event(Fail(1, "w", "late", 0.0), 0.0)

  lemma FailingTheFinishedJob(h: History)
    requires h.queue == Queue(map[1 := FINISHED, 2 := SECOND], map["a" := 1, "b" := 2], 3, 1, 3)
    ensures Depth(Step(h, LATE_FAILURE).queue) == 2
  {
    DepthOfTwo(h.queue);
    FailDeepensExactlyWhen(h.queue, 1, "late", 0.0, 0.0);
    hide LiveBelow;
  }

  /** The discipline is needed: a worker that fails the job it has completed puts two jobs into a queue for one. */
  lemma LateFailureOverfills()
    ensures Depth(After(1, 3, TWO_JOBS + [LATE_FAILURE]).queue) == 2
    ensures !WithinCapacity(After(1, 3, TWO_JOBS + [LATE_FAILURE]).queue)
  {
    SecondJobWaits();
    OneMoreEvent(1, 3, TWO_JOBS, LATE_FAILURE);
    FailingTheFinishedJob(After(1, 3, TWO_JOBS));
    LimitsHold(1, 3, TWO_JOBS + [LATE_FAILURE]);
    hide After, LiveBelow, Step;
  }
}
