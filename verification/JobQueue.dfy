/**
 The leased job queue of store.py for one tenant: every store method is one atomic step, and a run is
 any interleaving of steps of any callers with ticks of a clock that never goes back.
 */
module JobQueue {
  import opened Wrappers
  import opened Models
  import LeaseSql

  const HOUR := 3600 * 1_000_000
  const SECOND := 1_000_000
  const MAX_ERROR := 4000

  datatype Quota = Quota(
    maxQueuedJobs: Option<nat>, maxJobsPerHour: Option<nat>,
    maxRunningJobs: Option<nat>, maxRunningCudaJobs: Option<nat>)

  const Unlimited := Quota(None, None, None, None)

  /** The tables one tenant's steps read and write; `runs` are the ids in evaluation_runs. */
  datatype Queue = Queue(jobs: map<JobId, Job>, quota: Option<Quota>, runs: set<RunId>, now: int)

  // ---- Usage, as `_tenant_quota_usage` counts it ----

  /** The jobs for which `p` holds. */
  function Ids(jobs: map<JobId, Job>, p: Job -> bool): (ids: set<JobId>) {
    set id | id in jobs && p(jobs[id])
  }

  predicate IsQueued(job: Job) {
    job.status == Queued
  }

  predicate Unexpired(job: Job, now: int) {
    job.status == Running && job.leaseExpiresAt.Some? && job.leaseExpiresAt.value >= now
  }

  predicate NeedsCuda(job: Job) {
    job.requirements.accelerator == Cuda
  }

  function QueuedJobs(s: Queue): (n: nat) {
    |Ids(s.jobs, IsQueued)|
  }

  function ActiveRunning(s: Queue): (n: nat) {
    |Ids(s.jobs, (job: Job) => Unexpired(job, s.now))|
  }

  function ActiveRunningCuda(s: Queue): (n: nat) {
    |Ids(s.jobs, (job: Job) => Unexpired(job, s.now) && NeedsCuda(job))|
  }

  function SubmittedLastHour(s: Queue): (n: nat) {
    |Ids(s.jobs, (job: Job) => job.createdAt >= s.now - HOUR)|
  }

  predicate AtLimit(limit: Option<nat>, usage: nat) {
    limit.Some? && usage >= limit.value
  }

  function Limits(s: Queue): (q: Quota) {
    if s.quota.None? then Unlimited else s.quota.value
  }

  // ---- The steps ----

  /** What the job model accepts. */
  predicate ValidRequest(priority: int, maxAttempts: nat, r: Requirements) {
    && -100 <= priority <= 100 && 1 <= maxAttempts <= 10
    && (r.accelerator == Cuda
        || (r.minimumGpuMemory == 0 && r.minimumComputeCapability.None? && r.minimumGpuMemoryAvailable == 0
            && r.maximumGpuUtilization.None? && r.migProfile.None?))
  }

  function NewJob(priority: int, maxAttempts: nat, createdAt: int, r: Requirements): (job: Job) {
    Job(Queued, priority, 0, maxAttempts, createdAt, createdAt, None, None, None, None, None, r)
  }

  predicate Owns(s: Queue, id: JobId, worker: WorkerId) {
    id in s.jobs && s.jobs[id].status == Running && s.jobs[id].leaseOwner == Some(worker)
  }

  /** The WHERE clause of the claim query. */
  predicate Claimable(job: Job, c: WorkerCapabilities, cudaAvailable: bool, now: int) {
    && job.attempts < job.maxAttempts
    && (NeedsCuda(job) ==> cudaAvailable)
    && LeaseSql.Admits(job.requirements, c)
    && (job.status == Queued
        || (job.status == Running && job.leaseExpiresAt.Some? && job.leaseExpiresAt.value < now))
  }

  /** ORDER BY priority DESC, created_at. */
  predicate NoLater(a: Job, b: Job) {
    a.priority > b.priority || (a.priority == b.priority && a.createdAt <= b.createdAt)
  }

  /** The rows the claim query may take; `locked` are the rows other transactions hold. */
  function Candidates(s: Queue, c: WorkerCapabilities, locked: set<JobId>): (ids: set<JobId>) {
    var cudaAvailable := !AtLimit(Limits(s).maxRunningCudaJobs, ActiveRunningCuda(s));
    if AtLimit(Limits(s).maxRunningJobs, ActiveRunning(s)) then {}
    else set id | id in s.jobs && id !in locked && Claimable(s.jobs[id], c, cudaAvailable, s.now)
  }

  /** One of the candidates that come first. */
  predicate Claims(s: Queue, c: WorkerCapabilities, locked: set<JobId>, id: JobId) {
    && id in s.jobs && id in Candidates(s, c, locked)
    && forall other :: other in Candidates(s, c, locked) ==> other in s.jobs && NoLater(s.jobs[id], s.jobs[other])
  }

  /** A claimed job has the greatest priority of all that may be claimed, and is the oldest among those. */
  lemma ClaimsGreatest(s: Queue, c: WorkerCapabilities, locked: set<JobId>, id: JobId, other: JobId)
    requires Claims(s, c, locked, id) && other in Candidates(s, c, locked)
    ensures s.jobs[other].priority <= s.jobs[id].priority
    ensures s.jobs[other].priority == s.jobs[id].priority ==> s.jobs[id].createdAt <= s.jobs[other].createdAt
  {
  }

  function LeasedJob(job: Job, worker: WorkerId, now: int, seconds: int): (leased: Job) {
    job.(status := Running, attempts := job.attempts + 1, startedAt := Some(now), leaseOwner := Some(worker),
         leaseExpiresAt := Some(now + seconds * SECOND), updatedAt := now, error := None)
  }

  function RenewedJob(job: Job, now: int, seconds: int): (renewed: Job) {
    job.(leaseExpiresAt := Some(now + seconds * SECOND), updatedAt := now)
  }

  function CompletedJob(job: Job, now: int, run: RunId): (completed: Job) {
    job.(status := Completed, runId := Some(run), updatedAt := now, leaseOwner := None, leaseExpiresAt := None,
         error := None)
  }

  function FailedJob(job: Job, now: int, error: string): (failed: Job) {
    var exhausted := job.attempts >= job.maxAttempts;
    job.(status := if exhausted then Failed else Queued, updatedAt := now,
         startedAt := if exhausted then job.startedAt else None,
         leaseOwner := None, leaseExpiresAt := None,
         error := Some(if |error| > MAX_ERROR then error[..MAX_ERROR] else error))
  }

  function CancelledJob(job: Job, now: int): (cancelled: Job) {
    job.(status := Cancelled, updatedAt := now, leaseOwner := None, leaseExpiresAt := None)
  }

  /** A step that took effect. Calls that are refused change nothing and are no events. */
  datatype Event =
    | Enqueue(id: JobId, priority: int, maxAttempts: nat, createdAt: int, requirements: Requirements)
    | Lease(id: JobId, worker: WorkerId, seconds: int, capabilities: WorkerCapabilities, locked: set<JobId>)
    | Renew(id: JobId, worker: WorkerId, seconds: int)
    | Complete(id: JobId, worker: WorkerId, run: RunId)
    | Fail(id: JobId, worker: WorkerId, error: string)
    | Cancel(id: JobId)
    | SaveRun(run: RunId)
    | SetQuota(quota: Option<Quota>)
    | Tick(time: int)

  /** When the step takes effect. */
  predicate Enabled(s: Queue, e: Event) {
    match e
    case Enqueue(id, priority, maxAttempts, createdAt, r) =>
      && id !in s.jobs && ValidRequest(priority, maxAttempts, r)
      && !AtLimit(Limits(s).maxQueuedJobs, QueuedJobs(s))
      && !AtLimit(Limits(s).maxJobsPerHour, SubmittedLastHour(s))
    case Lease(id, worker, seconds, c, locked) => Claims(s, c, locked, id)
    case Renew(id, worker, seconds) => Owns(s, id, worker)
    case Complete(id, worker, run) => Owns(s, id, worker) && run in s.runs
    case Fail(id, worker, error) => Owns(s, id, worker)
    case Cancel(id) => id in s.jobs && (s.jobs[id].status == Queued || s.jobs[id].status == Running)
    case SaveRun(run) => true
    case SetQuota(quota) => true
    case Tick(time) => time >= s.now
  }

  function Apply(s: Queue, e: Event): (s': Queue)
    requires Enabled(s, e)
  {
    match e
    case Enqueue(id, priority, maxAttempts, createdAt, r) =>
      s.(jobs := s.jobs[id := NewJob(priority, maxAttempts, createdAt, r)])
    case Lease(id, worker, seconds, c, locked) =>
      s.(jobs := s.jobs[id := LeasedJob(s.jobs[id], worker, s.now, seconds)])
    case Renew(id, worker, seconds) => s.(jobs := s.jobs[id := RenewedJob(s.jobs[id], s.now, seconds)])
    case Complete(id, worker, run) => s.(jobs := s.jobs[id := CompletedJob(s.jobs[id], s.now, run)])
    case Fail(id, worker, error) => s.(jobs := s.jobs[id := FailedJob(s.jobs[id], s.now, error)])
    case Cancel(id) => s.(jobs := s.jobs[id := CancelledJob(s.jobs[id], s.now)])
    case SaveRun(run) => s.(runs := s.runs + {run})
    case SetQuota(quota) => s.(quota := quota)
    case Tick(time) => s.(now := time)
  }

  // ---- Runs ----

  function Start(quota: Option<Quota>, now: int): (s: Queue) {
    Queue(map[], quota, {}, now)
  }

  /** The state after the events; one that cannot take effect changes nothing. */
  function After(s: Queue, events: seq<Event>): (s': Queue)
    decreases |events|
  {
    if events == [] then s
    else
      var before := After(s, events[..|events| - 1]);
      if Enabled(before, events[|events| - 1]) then Apply(before, events[|events| - 1]) else before
  }

  /** Each event takes effect in its turn. */
  predicate IsRun(s: Queue, events: seq<Event>)
    decreases |events|
  {
    events == [] || (IsRun(s, events[..|events| - 1])
                     && Enabled(After(s, events[..|events| - 1]), events[|events| - 1]))
  }

  // ---- What holds of every job in every run ----

  predicate Ended(status: JobStatus) {
    status == Completed || status == Failed || status == Cancelled
  }

  /** The shape of a job row. */
  predicate WellFormed(job: Job, runs: set<RunId>) {
    && 1 <= job.maxAttempts && job.attempts <= job.maxAttempts
    && (job.status == Running <==> job.leaseOwner.Some?) && (job.status == Running <==> job.leaseExpiresAt.Some?)
    && (job.status == Running ==> job.attempts > 0)
    && (job.status == Queued ==> job.attempts < job.maxAttempts && job.startedAt.None?)
    && (job.status == Failed ==> job.attempts == job.maxAttempts)
    && (job.status == Completed <==> job.runId.Some?)
    && (job.runId.Some? ==> job.runId.value in runs)
  }

  /** How often the job was leased. */
  function Leases(events: seq<Event>, id: JobId): (n: nat) {
    if events == [] then 0
    else Leases(events[..|events| - 1], id)
         + (if events[|events| - 1].Lease? && events[|events| - 1].id == id then 1 else 0)
  }

  /** The worker of the last lease, unless something has ended that lease since. */
  function Holder(events: seq<Event>, id: JobId): (w: Option<WorkerId>) {
    if events == [] then None
    else
      var earlier := Holder(events[..|events| - 1], id);
      match events[|events| - 1]
      case Lease(i, worker, _, _, _) => if i == id then Some(worker) else earlier
      case Complete(i, _, _) => if i == id then None else earlier
      case Fail(i, _, _) => if i == id then None else earlier
      case Cancel(i) => if i == id then None else earlier
      case _ => earlier
  }

  /** What the history says of a job: its attempts are its leases, and its owner holds the last one. */
  ghost predicate Traced(s: Queue, events: seq<Event>, id: JobId) {
    if id in s.jobs then
      && WellFormed(s.jobs[id], s.runs)
      && s.jobs[id].attempts == Leases(events, id)
      && s.jobs[id].leaseOwner == Holder(events, id)
    else Leases(events, id) == 0 && Holder(events, id) == None
  }

  lemma StepTraced(s: Queue, events: seq<Event>, e: Event, id: JobId)
    requires Enabled(s, e) && Traced(s, events, id)
    ensures Traced(Apply(s, e), events + [e], id)
  {
    var longer := events + [e];
    assert longer[..|longer| - 1] == events;
  }

  /**
   Over every run: a job's attempts are the leases granted and never exceed its maximum; it runs
   exactly while it has an owner and an expiry; and its owner made its last lease, which nothing has ended.
   */
  lemma {:induction false} RunTraced(quota: Option<Quota>, now: int, events: seq<Event>, id: JobId)
    requires IsRun(Start(quota, now), events)
    ensures Traced(After(Start(quota, now), events), events, id)
  {
    if events != [] {
      var before := events[..|events| - 1];
      RunTraced(quota, now, before, id);
      StepTraced(After(Start(quota, now), before), before, events[|events| - 1], id);
      assert before + [events[|events| - 1]] == events;
    }
  }

  // ---- Terminal states ----

  lemma StepKeepsEnded(s: Queue, e: Event, id: JobId)
    requires Enabled(s, e) && id in s.jobs && Ended(s.jobs[id].status)
    ensures id in Apply(s, e).jobs && Apply(s, e).jobs[id] == s.jobs[id]
  {
  }

  /** A job that has completed, failed or been cancelled never changes again. */
  lemma {:induction false} EndedForever(quota: Option<Quota>, now: int, events: seq<Event>, k: nat, id: JobId)
    requires IsRun(Start(quota, now), events) && k <= |events|
    requires var s := After(Start(quota, now), events[..k]); id in s.jobs && Ended(s.jobs[id].status)
    ensures var s, s' := After(Start(quota, now), events[..k]), After(Start(quota, now), events);
            id in s'.jobs && s'.jobs[id] == s.jobs[id]
    decreases |events|
  {
    if k == |events| {
      assert events[..k] == events;
    } else {
      var before := events[..|events| - 1];
      assert before[..k] == events[..k];
      EndedForever(quota, now, before, k, id);
      StepKeepsEnded(After(Start(quota, now), before), events[|events| - 1], id);
    }
  }

  // ---- Fencing ----

  /**
   Renewing and failing succeed exactly for the holder of the last lease, expired or not; completing
   needs a stored run besides. There is no other fence: an expired lease still counts, and a worker
   that leased the job again may finish with what it did under its earlier lease.
   */
  lemma FenceIsLastLease(quota: Option<Quota>, now: int, events: seq<Event>, id: JobId, worker: WorkerId, run: RunId,
                         seconds: int, error: string)
    requires IsRun(Start(quota, now), events)
    ensures var s := After(Start(quota, now), events);
            && (Enabled(s, Renew(id, worker, seconds)) <==> Holder(events, id) == Some(worker))
            && (Enabled(s, Fail(id, worker, error)) <==> Holder(events, id) == Some(worker))
            && (Enabled(s, Complete(id, worker, run)) <==> Holder(events, id) == Some(worker) && run in s.runs)
  {
    RunTraced(quota, now, events, id);
  }

  /** The index of the lease that made `worker` the holder. */
  lemma {:induction false} HolderMadeLastLease(events: seq<Event>, id: JobId) returns (k: nat)
    requires Holder(events, id).Some?
    ensures k < |events| && events[k].Lease? && events[k].id == id && Some(events[k].worker) == Holder(events, id)
    ensures forall m :: k < m < |events| ==>
              !(events[m].Lease? && events[m].id == id) && !Ends(events[m], id)
  {
    var n := |events| - 1;
    if events[n].Lease? && events[n].id == id {
      k := n;
    } else {
      k := HolderMadeLastLease(events[..n], id);
      forall m | k < m < |events|
        ensures !(events[m].Lease? && events[m].id == id) && !Ends(events[m], id)
      {
        assert m < n ==> events[m] == events[..n][m];
      }
    }
  }

  predicate Ends(e: Event, id: JobId) {
    match e
    case Complete(i, _, _) => i == id
    case Fail(i, _, _) => i == id
    case Cancel(i) => i == id
    case _ => false
  }

  // ---- Active leases ----

  /** What the last tick of a history shows on the clock. */
  function Clock(now: int, events: seq<Event>): (time: int) {
    if events == [] then now
    else
      match events[|events| - 1]
      case Tick(time) => time
      case _ => Clock(now, events[..|events| - 1])
  }

  /** How long the last lease of a job or its last renewal lasts, unless something has ended the lease since. */
  function LeaseEnd(now: int, events: seq<Event>, id: JobId): (end: Option<int>) {
    if events == [] then None
    else
      var before := events[..|events| - 1];
      var earlier := LeaseEnd(now, before, id);
      match events[|events| - 1]
      case Lease(i, _, seconds, _, _) => if i == id then Some(Clock(now, before) + seconds * SECOND) else earlier
      case Renew(i, _, seconds) => if i == id then Some(Clock(now, before) + seconds * SECOND) else earlier
      case Complete(i, _, _) => if i == id then None else earlier
      case Fail(i, _, _) => if i == id then None else earlier
      case Cancel(i) => if i == id then None else earlier
      case _ => earlier
  }

  lemma {:induction false} ClockIsNow(quota: Option<Quota>, now: int, events: seq<Event>)
    requires IsRun(Start(quota, now), events)
    ensures After(Start(quota, now), events).now == Clock(now, events)
  {
    if events != [] {
      ClockIsNow(quota, now, events[..|events| - 1]);
    }
  }

  /** In every run a job's expiry is the end of its last lease or renewal, as the history tells it. */
  lemma {:induction false} ExpiryIsLeaseEnd(quota: Option<Quota>, now: int, events: seq<Event>, id: JobId)
    requires IsRun(Start(quota, now), events)
    ensures var s := After(Start(quota, now), events);
            LeaseEnd(now, events, id) == if id in s.jobs then s.jobs[id].leaseExpiresAt else None
  {
    if events != [] {
      var before := events[..|events| - 1];
      ExpiryIsLeaseEnd(quota, now, before, id);
      ClockIsNow(quota, now, before);
      RunTraced(quota, now, before, id);
      StepExpiry(After(Start(quota, now), before), now, before, events[|events| - 1], id);
      assert before + [events[|events| - 1]] == events;
    }
  }

  lemma StepExpiry(s: Queue, now: int, events: seq<Event>, e: Event, id: JobId)
    requires Enabled(s, e) && s.now == Clock(now, events) && Traced(s, events, id)
    requires LeaseEnd(now, events, id) == if id in s.jobs then s.jobs[id].leaseExpiresAt else None
    ensures var s' := Apply(s, e);
            LeaseEnd(now, events + [e], id) == if id in s'.jobs then s'.jobs[id].leaseExpiresAt else None
  {
    assert (events + [e])[..|events|] == events;
  }

  /** A worker reports a job as done or as failed. */
  predicate Acknowledges(e: Event) {
    e.Complete? || e.Fail?
  }

  /** The worker's lease on the job it reports is active. */
  predicate UnderActiveLease(s: Queue, e: Event)
    requires Acknowledges(e)
  {
    Owns(s, e.id, e.worker) && Unexpired(s.jobs[e.id], s.now)
  }

  /** The report comes no later than the last lease or renewal of its job lasts. */
  predicate InTime(now: int, events: seq<Event>, e: Event)
    requires Acknowledges(e)
  {
    var end := LeaseEnd(now, events, e.id);
    end.Some? && Clock(now, events) <= end.value
  }

  lemma StepUnderLease(quota: Option<Quota>, now: int, events: seq<Event>, e: Event)
    requires IsRun(Start(quota, now), events) && Acknowledges(e) && Enabled(After(Start(quota, now), events), e)
    ensures UnderActiveLease(After(Start(quota, now), events), e) <==> InTime(now, events, e)
  {
    ClockIsNow(quota, now, events);
    ExpiryIsLeaseEnd(quota, now, events, e.id);
  }

  /**
   Workers complete and fail jobs only under active leases, throughout a run, exactly when each report
   comes no later than the last lease or renewal of its job lasts. Nothing else enforces it.
   */
  lemma ReportsUnderActiveLeases(quota: Option<Quota>, now: int, events: seq<Event>)
    requires IsRun(Start(quota, now), events)
    ensures (forall k :: 0 <= k < |events| && Acknowledges(events[k]) ==>
               UnderActiveLease(After(Start(quota, now), events[..k]), events[k]))
            <==> (forall k :: 0 <= k < |events| && Acknowledges(events[k]) ==> InTime(now, events[..k], events[k]))
  {
    forall k | 0 <= k < |events| && Acknowledges(events[k])
      ensures UnderActiveLease(After(Start(quota, now), events[..k]), events[k])
              <==> InTime(now, events[..k], events[k])
    {
      IsRunPrefix(Start(quota, now), events, k + 1);
      assert events[..k + 1][..k] == events[..k];
      StepUnderLease(quota, now, events[..k], events[k]);
    }
  }

  // ---- One completion ----

  lemma CompletedAfter(quota: Option<Quota>, now: int, events: seq<Event>, i: nat)
    requires IsRun(Start(quota, now), events) && i < |events| && events[i].Complete?
    ensures var s := After(Start(quota, now), events[..i + 1]);
            events[i].id in s.jobs && s.jobs[events[i].id].status == Completed
  {
    IsRunPrefix(Start(quota, now), events, i + 1);
    assert events[..i + 1][..i] == events[..i];
  }

  lemma CompletesRunning(quota: Option<Quota>, now: int, events: seq<Event>, j: nat)
    requires IsRun(Start(quota, now), events) && j < |events| && events[j].Complete?
    ensures var s := After(Start(quota, now), events[..j]);
            events[j].id in s.jobs && s.jobs[events[j].id].status == Running
  {
    EnabledAt(Start(quota, now), events, j);
  }

  lemma EnabledAt(s: Queue, events: seq<Event>, j: nat)
    requires IsRun(s, events) && j < |events|
    ensures IsRun(s, events[..j]) && Enabled(After(s, events[..j]), events[j])
  {
    IsRunPrefix(s, events, j + 1);
    assert events[..j + 1][..j] == events[..j];
  }

  lemma StillCompleted(quota: Option<Quota>, now: int, events: seq<Event>, i: nat, j: nat)
    requires IsRun(Start(quota, now), events) && i < j <= |events| && events[i].Complete?
    ensures var s := After(Start(quota, now), events[..j]);
            events[i].id in s.jobs && s.jobs[events[i].id].status == Completed
  {
    CompletedAfter(quota, now, events, i);
    IsRunPrefix(Start(quota, now), events, j);
    assert events[..j][..i + 1] == events[..i + 1];
    EndedForever(quota, now, events[..j], i + 1, events[i].id);
  }

  /** A job completes at most once. */
  lemma CompletesOnce(quota: Option<Quota>, now: int, events: seq<Event>, i: nat, j: nat)
    requires IsRun(Start(quota, now), events) && i < j < |events|
    requires events[i].Complete? && events[j].Complete?
    ensures events[i].id != events[j].id
  {
    StillCompleted(quota, now, events, i, j);
    CompletesRunning(quota, now, events, j);
  }

  lemma {:induction false} IsRunPrefix(s: Queue, events: seq<Event>, k: nat)
    requires IsRun(s, events) && k <= |events|
    ensures IsRun(s, events[..k])
    decreases |events|
  {
    if k == |events| {
      assert events[..k] == events;
    } else {
      var before := events[..|events| - 1];
      assert before[..k] == events[..k];
      IsRunPrefix(s, before, k);
    }
  }
}
