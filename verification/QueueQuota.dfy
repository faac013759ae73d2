/** What the tenant quotas of store.py guarantee over whole runs of the job queue, and where they do not. */
module QueueQuota {
  import opened Wrappers
  import opened FiniteSets
  import opened Models
  import LeaseSql
  import opened JobQueue

  ghost predicate Within(limit: Option<nat>, usage: nat) {
    limit.Some? ==> usage <= limit.value
  }

  ghost predicate FixedQuota(events: seq<Event>) {
    forall e :: e in events ==> !e.SetQuota?
  }

  lemma {:induction false} QuotaStays(s: Queue, events: seq<Event>)
    requires FixedQuota(events)
    ensures After(s, events).quota == s.quota
    decreases |events|
  {
    if events != [] {
      assert events[|events| - 1] in events;
      QuotaStays(s, events[..|events| - 1]);
    }
  }

  // ---- Counting ----

  lemma IdsAfterUpdate(jobs: map<JobId, Job>, id: JobId, job: Job, p: Job -> bool)
    ensures Ids(jobs[id := job], p) == (Ids(jobs, p) - {id}) + (if p(job) then {id} else {})
  {
    var jobs' := jobs[id := job];
    forall x
      ensures x in Ids(jobs', p) <==> x in (Ids(jobs, p) - {id}) + (if p(job) then {id} else {})
    {
      assert x != id ==> (x in jobs' <==> x in jobs) && (x in jobs ==> jobs'[x] == jobs[x]);
    }
  }

  /** One job's row changes: the count changes by what that job counted and what it counts now. */
  lemma IdsUpdate(jobs: map<JobId, Job>, id: JobId, job: Job, p: Job -> bool)
    ensures |Ids(jobs[id := job], p)|
            == |Ids(jobs, p)| - (if id in jobs && p(jobs[id]) then 1 else 0) + (if p(job) then 1 else 0)
  {
    IdsAfterUpdate(jobs, id, job, p);
    assert id in Ids(jobs, p) <==> id in jobs && p(jobs[id]);
    ReplaceCard(Ids(jobs, p), id, p(job));
  }

  lemma ReplaceCard(all: set<JobId>, id: JobId, counts: bool)
    ensures |(all - {id}) + (if counts then {id} else {})|
            == |all| - (if id in all then 1 else 0) + (if counts then 1 else 0)
  {
    if id !in all {
      assert all - {id} == all;
    }
  }

  lemma IdsWeaker(jobs: map<JobId, Job>, p: Job -> bool, q: Job -> bool)
    requires forall id :: id in jobs && p(jobs[id]) ==> q(jobs[id])
    ensures |Ids(jobs, p)| <= |Ids(jobs, q)|
  {
    SubsetCard(Ids(jobs, p), Ids(jobs, q));
  }

  /** The job an event rewrites, if it rewrites one that exists. */
  function Touched(e: Event): (id: Option<JobId>) {
    match e
    case Lease(id, _, _, _, _) => Some(id)
    case Renew(id, _, _) => Some(id)
    case Complete(id, _, _) => Some(id)
    case Fail(id, _, _) => Some(id)
    case Cancel(id) => Some(id)
    case _ => None
  }

  lemma StepShape(s: Queue, e: Event)
    requires Enabled(s, e)
    ensures Touched(e).Some? ==>
              var id := Touched(e).value;
              && id in s.jobs && Apply(s, e).jobs == s.jobs[id := Apply(s, e).jobs[id]] && Apply(s, e).now == s.now
              && Apply(s, e).jobs[id].createdAt == s.jobs[id].createdAt
    ensures Touched(e).None? && !e.Enqueue? ==> Apply(s, e).jobs == s.jobs
  {
  }

  // ---- Submissions ----

  /** Jobs created at or after `from`. */
  function CreatedSince(jobs: map<JobId, Job>, from: int): (n: nat) {
    |Ids(jobs, (job: Job) => job.createdAt >= from)|
  }

  lemma SubmittedIsCreatedSince(s: Queue)
    ensures SubmittedLastHour(s) == CreatedSince(s.jobs, s.now - HOUR)
  {
    assert Ids(s.jobs, (job: Job) => job.createdAt >= s.now - HOUR)
           == Ids(s.jobs, (job: Job) => job.createdAt >= (s.now - HOUR));
  }

  lemma StepCreated(s: Queue, e: Event, from: int)
    requires Enabled(s, e)
    ensures CreatedSince(Apply(s, e).jobs, from)
            == CreatedSince(s.jobs, from) + (if e.Enqueue? && e.createdAt >= from then 1 else 0)
  {
    var p := (job: Job) => job.createdAt >= from;
    StepShape(s, e);
    if e.Enqueue? {
      IdsUpdate(s.jobs, e.id, NewJob(e.priority, e.maxAttempts, e.createdAt, e.requirements), p);
    } else if Touched(e).Some? {
      IdsUpdate(s.jobs, Touched(e).value, Apply(s, e).jobs[Touched(e).value], p);
    }
  }

  lemma CreatedLater(jobs: map<JobId, Job>, from: int, later: int)
    requires from <= later
    ensures CreatedSince(jobs, later) <= CreatedSince(jobs, from)
  {
    IdsWeaker(jobs, (job: Job) => job.createdAt >= later, (job: Job) => job.createdAt >= from);
  }

  lemma StepHour(s: Queue, e: Event)
    requires Enabled(s, e) && !e.SetQuota?
    requires Within(Limits(s).maxJobsPerHour, SubmittedLastHour(s))
    ensures Within(Limits(s).maxJobsPerHour, SubmittedLastHour(Apply(s, e)))
  {
    SubmittedIsCreatedSince(s);
    SubmittedIsCreatedSince(Apply(s, e));
    StepCreated(s, e, s.now - HOUR);
    CreatedLater(Apply(s, e).jobs, s.now - HOUR, Apply(s, e).now - HOUR);
  }

  /**
   Under a fixed quota the jobs created in the trailing hour never exceed max_jobs_per_hour, in any
   state of any run, whatever creation times the submitters' clocks supply.
   */
  lemma {:induction false} HourlyLimitHolds(quota: Option<Quota>, now: int, events: seq<Event>)
    requires IsRun(Start(quota, now), events) && FixedQuota(events)
    ensures var s := After(Start(quota, now), events);
            Within(Limits(Start(quota, now)).maxJobsPerHour, SubmittedLastHour(s))
    decreases |events|
  {
    var s0 := Start(quota, now);
    if events == [] {
      assert Ids(s0.jobs, (job: Job) => job.createdAt >= s0.now - HOUR) == {};
    } else {
      var before := events[..|events| - 1];
      assert events[|events| - 1] in events;
      HourlyLimitHolds(quota, now, before);
      QuotaStays(s0, before);
      StepHour(After(s0, before), events[|events| - 1]);
    }
  }

  // ---- Queue depth: a promise of each enqueue, not of every state ----

  /** A successful enqueue leaves the queue within its limit. */
  lemma EnqueueKeepsDepth(s: Queue, e: Event)
    requires Enabled(s, e) && e.Enqueue?
    ensures QueuedJobs(Apply(s, e)) == QueuedJobs(s) + 1
    ensures Within(Limits(s).maxQueuedJobs, QueuedJobs(Apply(s, e)))
  {
    IdsUpdate(s.jobs, e.id, NewJob(e.priority, e.maxAttempts, e.createdAt, e.requirements), IsQueued);
  }

  /** A failed attempt re-enters the queue without a quota check, exactly when attempts are left. */
  lemma FailureDeepensQueue(s: Queue, e: Event)
    requires Enabled(s, e) && e.Fail?
    ensures QueuedJobs(Apply(s, e))
            == QueuedJobs(s) + (if s.jobs[e.id].attempts < s.jobs[e.id].maxAttempts then 1 else 0)
    ensures Within(Limits(s).maxQueuedJobs, QueuedJobs(s)) ==>
              (Within(Limits(s).maxQueuedJobs, QueuedJobs(Apply(s, e))) <==>
               s.jobs[e.id].attempts >= s.jobs[e.id].maxAttempts || !AtLimit(Limits(s).maxQueuedJobs, QueuedJobs(s)))
  {
    IdsUpdate(s.jobs, e.id, FailedJob(s.jobs[e.id], s.now, e.error), IsQueued);
  }

  /** The one step that takes a queue within its limit beyond it. */
  predicate DeepensFullQueue(s: Queue, e: Event) {
    && e.Fail? && e.id in s.jobs && s.jobs[e.id].attempts < s.jobs[e.id].maxAttempts
    && AtLimit(Limits(s).maxQueuedJobs, QueuedJobs(s))
  }

  ghost predicate DepthWithin(s: Queue) {
    Within(Limits(s).maxQueuedJobs, QueuedJobs(s))
  }

  lemma StepDepth(s: Queue, e: Event)
    requires Enabled(s, e) && !e.SetQuota? && DepthWithin(s)
    ensures DepthWithin(Apply(s, e)) <==> !DeepensFullQueue(s, e)
  {
    StepShape(s, e);
    if e.Fail? {
      FailureDeepensQueue(s, e);
    } else if e.Enqueue? {
      EnqueueKeepsDepth(s, e);
    } else if Touched(e).Some? {
      IdsUpdate(s.jobs, Touched(e).value, Apply(s, e).jobs[Touched(e).value], IsQueued);
    }
  }

  /** `state` holds in every state of the run. */
  ghost predicate InEveryState(s: Queue, events: seq<Event>, state: Queue -> bool) {
    forall k :: 0 <= k <= |events| ==> state(After(s, events[..k]))
  }

  /** `step` holds of no step of the run. */
  ghost predicate InNoStep(s: Queue, events: seq<Event>, step: (Queue, Event) -> bool) {
    forall k :: 0 <= k < |events| ==> !step(After(s, events[..k]), events[k])
  }

  /** What each step keeps exactly when it is not a bad one is in every state exactly when no step is bad. */
  lemma {:induction false} KeptByEveryStep(s: Queue, events: seq<Event>, state: Queue -> bool,
                                           bad: (Queue, Event) -> bool)
    requires state(s)
    requires forall k :: 0 <= k < |events| && state(After(s, events[..k])) ==>
               (state(After(s, events[..k + 1])) <==> !bad(After(s, events[..k]), events[k]))
    ensures InEveryState(s, events, state) <==> InNoStep(s, events, bad)
  {
    if InNoStep(s, events, bad) {
      forall k | 0 <= k <= |events|
        ensures state(After(s, events[..k]))
      {
        KeptUpTo(s, events, state, bad, k);
      }
    }
    if InEveryState(s, events, state) {
      forall k | 0 <= k < |events|
        ensures !bad(After(s, events[..k]), events[k])
      {
        assert state(After(s, events[..k])) && state(After(s, events[..k + 1]));
      }
    }
  }

  lemma {:induction false} KeptUpTo(s: Queue, events: seq<Event>, state: Queue -> bool, bad: (Queue, Event) -> bool,
                                    k: nat)
    requires state(s) && InNoStep(s, events, bad) && k <= |events|
    requires forall n :: 0 <= n < |events| && state(After(s, events[..n])) ==>
               (state(After(s, events[..n + 1])) <==> !bad(After(s, events[..n]), events[n]))
    ensures state(After(s, events[..k]))
  {
    if k > 0 {
      KeptUpTo(s, events, state, bad, k - 1);
      assert state(After(s, events[..k - 1 + 1]));
    }
  }

  /** A state of a run under a fixed quota, and the step that follows. */
  lemma StateOfRun(s: Queue, events: seq<Event>, k: nat)
    requires IsRun(s, events) && FixedQuota(events) && k < |events|
    ensures Enabled(After(s, events[..k]), events[k]) && !events[k].SetQuota?
    ensures After(s, events[..k + 1]) == Apply(After(s, events[..k]), events[k])
    ensures Limits(After(s, events[..k])) == Limits(s)
  {
    IsRunPrefix(s, events, k + 1);
    assert events[..k + 1][..k] == events[..k];
    QuotaStays(s, events[..k]);
  }

  /**
   Under a fixed quota the queued jobs stay within max_queued_jobs in every state of a run exactly when
   no attempt fails, with attempts left, while the queue is full.
   */
  lemma QueueDepthHolds(quota: Option<Quota>, now: int, events: seq<Event>)
    requires IsRun(Start(quota, now), events) && FixedQuota(events)
    ensures InEveryState(Start(quota, now), events, s => DepthWithin(s)) <==>
            InNoStep(Start(quota, now), events, DeepensFullQueue)
  {
    var s0 := Start(quota, now);
    NoneQueued(s0);
    forall k | 0 <= k < |events| && DepthWithin(After(s0, events[..k]))
      ensures DepthWithin(After(s0, events[..k + 1])) <==> !DeepensFullQueue(After(s0, events[..k]), events[k])
    {
      StateOfRun(s0, events, k);
      StepDepth(After(s0, events[..k]), events[k]);
    }
    KeptByEveryStep(s0, events, s => DepthWithin(s), DeepensFullQueue);
  }

  // ---- Running jobs ----

  /** Active leases, of all jobs or of those that need CUDA. */
  function Active(s: Queue, cudaOnly: bool): (n: nat) {
    if cudaOnly then ActiveRunningCuda(s) else ActiveRunning(s)
  }

  predicate Counts(job: Job, now: int, cudaOnly: bool) {
    Unexpired(job, now) && (cudaOnly ==> NeedsCuda(job))
  }

  lemma ActiveIsCount(s: Queue, cudaOnly: bool)
    ensures Active(s, cudaOnly) == |Ids(s.jobs, (job: Job) => Counts(job, s.now, cudaOnly))|
  {
    var p := (job: Job) => Counts(job, s.now, cudaOnly);
    assert Ids(s.jobs, p) == if cudaOnly then Ids(s.jobs, (job: Job) => Unexpired(job, s.now) && NeedsCuda(job))
                             else Ids(s.jobs, (job: Job) => Unexpired(job, s.now));
  }

  function RunningLimit(s: Queue, cudaOnly: bool): (limit: Option<nat>) {
    if cudaOnly then Limits(s).maxRunningCudaJobs else Limits(s).maxRunningJobs
  }

  /** How a step on one job changes the number of active leases. */
  lemma TouchChangesActive(s: Queue, e: Event, cudaOnly: bool)
    requires Enabled(s, e) && Touched(e).Some?
    ensures var id, s' := Touched(e).value, Apply(s, e);
            Active(s', cudaOnly) == Active(s, cudaOnly) - (if Counts(s.jobs[id], s.now, cudaOnly) then 1 else 0)
                                    + (if Counts(s'.jobs[id], s.now, cudaOnly) then 1 else 0)
  {
    StepShape(s, e);
    var id, s' := Touched(e).value, Apply(s, e);
    ActiveIsCount(s, cudaOnly);
    ActiveIsCount(s', cudaOnly);
    IdsUpdate(s.jobs, id, s'.jobs[id], (job: Job) => Counts(job, s.now, cudaOnly));
  }

  /** A successful lease leaves the running jobs within their limit, and so does one of a CUDA job the CUDA jobs. */
  lemma LeaseKeepsLimits(s: Queue, e: Event, cudaOnly: bool)
    requires Enabled(s, e) && e.Lease?
    ensures !cudaOnly || NeedsCuda(s.jobs[e.id]) ==> Within(RunningLimit(s, cudaOnly), Active(Apply(s, e), cudaOnly))
    ensures Within(RunningLimit(s, cudaOnly), Active(s, cudaOnly)) ==>
              Within(RunningLimit(s, cudaOnly), Active(Apply(s, e), cudaOnly))
  {
    TouchChangesActive(s, e, cudaOnly);
  }

  /** A renewal that makes an expired lease count again. */
  predicate Revives(s: Queue, e: Event, cudaOnly: bool) {
    && e.Renew? && e.id in s.jobs && e.seconds >= 0
    && !Unexpired(s.jobs[e.id], s.now) && (cudaOnly ==> NeedsCuda(s.jobs[e.id]))
  }

  /** The one step that takes the active leases from within their limit beyond it. */
  predicate RevivesAtLimit(s: Queue, e: Event, cudaOnly: bool) {
    Revives(s, e, cudaOnly) && AtLimit(RunningLimit(s, cudaOnly), Active(s, cudaOnly))
  }

  ghost predicate ActiveWithin(s: Queue, cudaOnly: bool) {
    Within(RunningLimit(s, cudaOnly), Active(s, cudaOnly))
  }

  /**
   A renewal revives an expired lease without asking the quota: the count rises by one exactly then.
   From a state within the limit it stays within it exactly when nothing is revived or there was room.
   */
  lemma RenewalAndLimit(s: Queue, e: Event, cudaOnly: bool)
    requires Enabled(s, e) && e.Renew?
    ensures Active(Apply(s, e), cudaOnly) > Active(s, cudaOnly) <==> Revives(s, e, cudaOnly)
    ensures e.seconds >= 0 ==>
              Active(Apply(s, e), cudaOnly) == Active(s, cudaOnly) + (if Revives(s, e, cudaOnly) then 1 else 0)
    ensures ActiveWithin(s, cudaOnly) ==> (ActiveWithin(Apply(s, e), cudaOnly) <==> !RevivesAtLimit(s, e, cudaOnly))
  {
    TouchChangesActive(s, e, cudaOnly);
  }

  lemma StepRunning(s: Queue, e: Event, cudaOnly: bool)
    requires Enabled(s, e) && !e.SetQuota? && ActiveWithin(s, cudaOnly)
    ensures ActiveWithin(Apply(s, e), cudaOnly) <==> !RevivesAtLimit(s, e, cudaOnly)
  {
    var s' := Apply(s, e);
    StepShape(s, e);
    if e.Lease? {
      LeaseKeepsLimits(s, e, cudaOnly);
    } else if e.Renew? {
      RenewalAndLimit(s, e, cudaOnly);
    } else if Touched(e).Some? {
      TouchChangesActive(s, e, cudaOnly);
    } else {
      ActiveIsCount(s, cudaOnly);
      ActiveIsCount(s', cudaOnly);
      var p := (job: Job) => Counts(job, s.now, cudaOnly);
      var p' := (job: Job) => Counts(job, s'.now, cudaOnly);
      if e.Enqueue? {
        IdsUpdate(s.jobs, e.id, s'.jobs[e.id], p);
        assert Ids(s'.jobs, p) == Ids(s'.jobs, p');
      } else {
        IdsWeaker(s.jobs, p', p);
      }
    }
  }

  /**
   Under a fixed quota the unexpired leases stay within each running limit in every state of a run
   exactly when no renewal revives an expired lease while the limit is reached.
   */
  lemma RunningLimitsHold(quota: Option<Quota>, now: int, events: seq<Event>, cudaOnly: bool)
    requires IsRun(Start(quota, now), events) && FixedQuota(events)
    ensures InEveryState(Start(quota, now), events, s => ActiveWithin(s, cudaOnly)) <==>
            InNoStep(Start(quota, now), events, (s, e) => RevivesAtLimit(s, e, cudaOnly))
  {
    var s0 := Start(quota, now);
    ActiveIsCount(s0, cudaOnly);
    assert Ids(s0.jobs, (job: Job) => Counts(job, s0.now, cudaOnly)) == {};
    forall k | 0 <= k < |events| && ActiveWithin(After(s0, events[..k]), cudaOnly)
      ensures ActiveWithin(After(s0, events[..k + 1]), cudaOnly) <==>
              !RevivesAtLimit(After(s0, events[..k]), events[k], cudaOnly)
    {
      StateOfRun(s0, events, k);
      StepRunning(After(s0, events[..k]), events[k], cudaOnly);
    }
    KeptByEveryStep(s0, events, s => ActiveWithin(s, cudaOnly), (s, e) => RevivesAtLimit(s, e, cudaOnly));
  }

  /** A renewal that comes after its lease expired. */
  predicate RenewsExpired(s: Queue, e: Event) {
    e.Renew? && e.id in s.jobs && !Unexpired(s.jobs[e.id], s.now)
  }

  /** In runs that renew in time both running limits hold in every state. */
  lemma RenewingInTime(quota: Option<Quota>, now: int, events: seq<Event>, cudaOnly: bool)
    requires IsRun(Start(quota, now), events) && FixedQuota(events)
    requires InNoStep(Start(quota, now), events, RenewsExpired)
    ensures InEveryState(Start(quota, now), events, s => ActiveWithin(s, cudaOnly))
  {
    RunningLimitsHold(quota, now, events, cudaOnly);
  }

  // ---- Any hour, not only the trailing one ----

  /** The jobs created in the hour that starts at `from`. */
  function CreatedWithin(jobs: map<JobId, Job>, from: int): (n: nat) {
    |Ids(jobs, (job: Job) => from <= job.createdAt <= from + HOUR)|
  }

  /** The submitters' clocks agree with the database's. */
  ghost predicate Punctual(s: Queue, events: seq<Event>) {
    forall k :: 0 <= k < |events| && events[k].Enqueue? ==> events[k].createdAt == After(s, events[..k]).now
  }

  lemma StepWithin(s: Queue, e: Event, from: int)
    requires Enabled(s, e) && (e.Enqueue? ==> e.createdAt == s.now)
    requires Within(Limits(s).maxJobsPerHour, CreatedWithin(s.jobs, from))
    ensures Within(Limits(s).maxJobsPerHour, CreatedWithin(Apply(s, e).jobs, from))
  {
    var p := (job: Job) => from <= job.createdAt <= from + HOUR;
    StepShape(s, e);
    if e.Enqueue? {
      IdsUpdate(s.jobs, e.id, NewJob(e.priority, e.maxAttempts, e.createdAt, e.requirements), p);
      if from <= s.now <= from + HOUR {
        IdsWeaker(s.jobs, p, (job: Job) => job.createdAt >= s.now - HOUR);
      }
    } else if Touched(e).Some? {
      IdsUpdate(s.jobs, Touched(e).value, Apply(s, e).jobs[Touched(e).value], p);
    }
  }

  /** With synchronised clocks no hour at all sees more submissions than max_jobs_per_hour. */
  lemma {:induction false} AnyHourWithinLimit(quota: Option<Quota>, now: int, events: seq<Event>, from: int)
    requires IsRun(Start(quota, now), events) && FixedQuota(events) && Punctual(Start(quota, now), events)
    ensures Within(Limits(Start(quota, now)).maxJobsPerHour, CreatedWithin(After(Start(quota, now), events).jobs, from))
    decreases |events|
  {
    var s0 := Start(quota, now);
    if events == [] {
      assert Ids(s0.jobs, (job: Job) => from <= job.createdAt <= from + HOUR) == {};
    } else {
      var n := |events| - 1;
      var before := events[..n];
      assert events[n] in events;
      assert Punctual(s0, before) by {
        forall k | 0 <= k < n && before[k].Enqueue?
          ensures before[k].createdAt == After(s0, before[..k]).now
        {
          assert before[..k] == events[..k] && before[k] == events[k];
        }
      }
      AnyHourWithinLimit(quota, now, before, from);
      QuotaStays(s0, before);
      StepWithin(After(s0, before), events[n], from);
    }
  }

  // ---- Where the limits fail: concrete runs ----

  const AnyWorker := Requirements(Cpu, map[], 0, None, 0, None, None)
  const CpuWorker := WorkerCapabilities([Cpu], [], map[])

  lemma IsRunNext(s: Queue, events: seq<Event>, e: Event)
    requires IsRun(s, events) && Enabled(After(s, events), e)
    ensures IsRun(s, events + [e]) && After(s, events + [e]) == Apply(After(s, events), e)
  {
    assert (events + [e])[..|events|] == events;
  }

  lemma ClaimsOnly(s: Queue, c: WorkerCapabilities, locked: set<JobId>, id: JobId)
    requires Candidates(s, c, locked) == {id}
    ensures Claims(s, c, locked, id)
  {
    assert id in Candidates(s, c, locked);
  }

  function Waiting(): (job: Job) {
    NewJob(0, 3, 0, AnyWorker)
  }

  /** Job "a" is queued and leased by "v" for ten seconds. */
  lemma OneLeased(quota: Option<Quota>) returns (events: seq<Event>)
    requires quota.Some? ==>
               && !AtLimit(quota.value.maxQueuedJobs, 0) && !AtLimit(quota.value.maxJobsPerHour, 0)
               && !AtLimit(quota.value.maxRunningJobs, 0)
    ensures IsRun(Start(quota, 0), events) && FixedQuota(events)
    ensures After(Start(quota, 0), events) == Queue(map["a" := LeasedJob(Waiting(), "v", 0, 10)], quota, {}, 0)
  {
    var s0 := Start(quota, 0);
    assert Ids(s0.jobs, IsQueued) == {};
    assert Ids(s0.jobs, (job: Job) => job.createdAt >= s0.now - HOUR) == {};
    events := [Enqueue("a", 0, 3, 0, AnyWorker)];
    IsRunNext(s0, [], events[0]);
    assert [] + events == events;
    var s1 := After(s0, events);
    assert s1 == Queue(map["a" := Waiting()], quota, {}, 0);
    OnlyClaim(s1);
    IsRunNext(s0, events, Lease("a", "v", 10, CpuWorker, {}));
    events := events + [Lease("a", "v", 10, CpuWorker, {})];
  }

  lemma OnlyClaim(s: Queue)
    requires s.jobs == map["a" := Waiting()] && !AtLimit(Limits(s).maxRunningJobs, 0)
    ensures Claims(s, CpuWorker, {}, "a")
  {
    assert Ids(s.jobs, (job: Job) => Unexpired(job, s.now)) == {};
    assert Candidates(s, CpuWorker, {}) == {"a"};
    ClaimsOnly(s, CpuWorker, {}, "a");
  }

  const OneRunning := Quota(None, None, Some(1), None)

  /** Job "a" is leased by "v" for ten seconds, "b" waits, and twenty seconds pass. */
  lemma OneLeaseExpired() returns (events: seq<Event>)
    ensures IsRun(Start(Some(OneRunning), 0), events) && FixedQuota(events)
    ensures After(Start(Some(OneRunning), 0), events)
            == Queue(map["a" := LeasedJob(Waiting(), "v", 0, 10), "b" := Waiting()], Some(OneRunning), {}, 20 * SECOND)
  {
    var s0 := Start(Some(OneRunning), 0);
    events := OneLeased(Some(OneRunning));
    IsRunNext(s0, events, Enqueue("b", 0, 3, 0, AnyWorker));
    events := events + [Enqueue("b", 0, 3, 0, AnyWorker)];
    IsRunNext(s0, events, Tick(20 * SECOND));
    events := events + [Tick(20 * SECOND)];
  }

  lemma ExpiredAllowsClaim(s: Queue)
    requires s == Queue(map["a" := LeasedJob(Waiting(), "v", 0, 10), "b" := Waiting()], Some(OneRunning), {},
                        20 * SECOND)
    ensures Claims(s, CpuWorker, {"a"}, "b")
  {
    assert Ids(s.jobs, (job: Job) => Unexpired(job, s.now)) == {};
    assert Candidates(s, CpuWorker, {"a"}) == {"b"};
    ClaimsOnly(s, CpuWorker, {"a"}, "b");
  }

  /** Two leases with a limit of one: the first expires, the second is granted, the first is renewed. */
  lemma LateRenewalExceedsLimit() returns (events: seq<Event>)
    ensures IsRun(Start(Some(OneRunning), 0), events) && FixedQuota(events)
    ensures ActiveRunning(After(Start(Some(OneRunning), 0), events)) == 2
  {
    var s0 := Start(Some(OneRunning), 0);
    var expired := OneLeaseExpired();
    var lease, renew := Lease("b", "w", 10, CpuWorker, {"a"}), Renew("a", "v", 10);
    ExpiredAllowsClaim(After(s0, expired));
    IsRunNext(s0, expired, lease);
    LateRenewalCounts(After(s0, expired));
    IsRunNext(s0, expired + [lease], renew);
    events := expired + [lease] + [renew];
  }

  lemma LateRenewalCounts(s: Queue)
    requires s == Queue(map["a" := LeasedJob(Waiting(), "v", 0, 10), "b" := Waiting()], Some(OneRunning), {},
                        20 * SECOND)
    requires Enabled(s, Lease("b", "w", 10, CpuWorker, {"a"}))
    ensures var s' := Apply(s, Lease("b", "w", 10, CpuWorker, {"a"}));
            Enabled(s', Renew("a", "v", 10)) && ActiveRunning(Apply(s', Renew("a", "v", 10))) == 2
  {
    var s' := Apply(s, Lease("b", "w", 10, CpuWorker, {"a"}));
    BothRun(Apply(s', Renew("a", "v", 10)));
  }

  lemma BothRun(s: Queue)
    requires s.jobs.Keys == {"a", "b"} && Unexpired(s.jobs["a"], s.now) && Unexpired(s.jobs["b"], s.now)
    ensures ActiveRunning(s) == 2
  {
    assert Ids(s.jobs, (job: Job) => Unexpired(job, s.now)) == {"a", "b"};
  }

  const OneQueued := Quota(Some(1), None, None, None)

  /** A queue limit of one: the failed attempt of a leased job joins a job that was queued meanwhile. */
  lemma RequeueExceedsDepth() returns (events: seq<Event>)
    ensures IsRun(Start(Some(OneQueued), 0), events) && FixedQuota(events)
    ensures QueuedJobs(After(Start(Some(OneQueued), 0), events)) == 2
  {
    var s0 := Start(Some(OneQueued), 0);
    events := OneLeased(Some(OneQueued));
    NoneQueued(After(s0, events));
    IsRunNext(s0, events, Enqueue("b", 0, 3, 0, AnyWorker));
    events := events + [Enqueue("b", 0, 3, 0, AnyWorker)];
    IsRunNext(s0, events, Fail("a", "v", ""));
    events := events + [Fail("a", "v", "")];
    BothQueued(After(s0, events));
  }

  lemma NoneQueued(s: Queue)
    requires forall id :: id in s.jobs ==> !IsQueued(s.jobs[id])
    ensures QueuedJobs(s) == 0
  {
    assert Ids(s.jobs, IsQueued) == {};
  }

  lemma BothQueued(s: Queue)
    requires s.jobs.Keys == {"a", "b"} && IsQueued(s.jobs["a"]) && IsQueued(s.jobs["b"])
    ensures QueuedJobs(s) == 2
  {
    assert Ids(s.jobs, IsQueued) == {"a", "b"};
  }

  /** A worker whose lease has expired, and that nobody has replaced, still completes the job. */
  lemma LateCompletion() returns (events: seq<Event>)
    ensures IsRun(Start(None, 0), events) && |events| > 0 && events[|events| - 1].Complete?
    ensures var s := After(Start(None, 0), events[..|events| - 1]); var id := events[|events| - 1].id;
            id in s.jobs && !Unexpired(s.jobs[id], s.now)
  {
    var s0 := Start(None, 0);
    events := OneLeased(None);
    IsRunNext(s0, events, SaveRun("r"));
    events := events + [SaveRun("r")];
    IsRunNext(s0, events, Tick(20 * SECOND));
    events := events + [Tick(20 * SECOND)];
    var before := events;
    IsRunNext(s0, events, Complete("a", "v", "r"));
    events := events + [Complete("a", "v", "r")];
    assert events[..|events| - 1] == before;
  }
}
