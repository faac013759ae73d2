/** The queue methods of store.py: each call is one step of the job queue, or is refused and changes nothing. */
module JobStore {
  import opened Wrappers
  import opened Models
  import opened JobQueue
  import LeaseSql
  import Placement

  datatype EnqueueOutcome =
    | Enqueued
    | InvalidRequest
    | DuplicateJob
    | QueueFull(limit: nat, observed: nat)
    | HourFull(limit: nat, observed: nat)

  datatype AckOutcome = Acknowledged | LeaseLost | UnknownRun

  datatype CancelOutcome = CancelDone | NotCancellable(status: JobStatus) | NoSuchJob

  predicate QueueIsFull(s: Queue) {
    AtLimit(Limits(s).maxQueuedJobs, QueuedJobs(s))
  }

  predicate HourIsFull(s: Queue) {
    AtLimit(Limits(s).maxJobsPerHour, SubmittedLastHour(s))
  }

  predicate NoLease(job: Job) {
    job.leaseOwner == None && job.leaseExpiresAt == None
  }

  /** What was asked for at enqueue is as it was. */
  predicate SameRequest(job: Job, was: Job) {
    && job.priority == was.priority && job.maxAttempts == was.maxAttempts
    && job.createdAt == was.createdAt && job.requirements == was.requirements
  }

  /** All of a text that is no longer than `most`, and else as many of its first characters. */
  predicate KeepsStart(kept: string, text: string, most: nat) {
    kept <= text && |kept| == if |text| < most then |text| else most
  }

  class QueueStore {
    var jobs: map<JobId, Job>
    var quota: Option<Quota>
    var runs: set<RunId>
    var now: int

    function View(): (s: Queue)
      reads this
    {
      Queue(jobs, quota, runs, now)
    }

    constructor (quota: Option<Quota>, now: int)
      ensures View() == Start(quota, now)
    {
      jobs, this.quota, runs, this.now := map[], quota, {}, now;
    }

    /** `enqueue_job`: refused for an invalid request, for a limit reached, or for an id in use. */
    method EnqueueJob(id: JobId, priority: int, maxAttempts: nat, createdAt: int, r: Requirements)
      returns (outcome: EnqueueOutcome)
      modifies this`jobs
      ensures var e := Enqueue(id, priority, maxAttempts, createdAt, r);
              && (outcome == Enqueued <==> Enabled(old(View()), e))
              && View() == (if Enabled(old(View()), e) then Apply(old(View()), e) else old(View()))
      ensures outcome == InvalidRequest <==> !ValidRequest(priority, maxAttempts, r)
      ensures outcome == InvalidRequest <==>
              || !(-100 <= priority <= 100) || !(1 <= maxAttempts <= 10)
              || (r.accelerator == Cpu
                  && !(r.minimumGpuMemory == 0 && r.minimumComputeCapability == None && r.minimumGpuMemoryAvailable == 0
                       && r.maximumGpuUtilization == None && r.migProfile == None))
      ensures outcome.QueueFull? <==> ValidRequest(priority, maxAttempts, r) && QueueIsFull(old(View()))
      ensures outcome.HourFull? <==>
              ValidRequest(priority, maxAttempts, r) && !QueueIsFull(old(View())) && HourIsFull(old(View()))
      ensures outcome == DuplicateJob <==>
              && ValidRequest(priority, maxAttempts, r) && !QueueIsFull(old(View())) && !HourIsFull(old(View()))
              && id in old(jobs)
      ensures outcome.QueueFull? ==>
                && Limits(View()).maxQueuedJobs == Some(outcome.limit)
                && outcome.limit < outcome.observed == QueuedJobs(View()) + 1
      ensures outcome.HourFull? ==>
                && Limits(View()).maxJobsPerHour == Some(outcome.limit)
                && outcome.limit < outcome.observed == SubmittedLastHour(View()) + 1
      ensures outcome == Enqueued ==>
                && id in jobs && jobs == old(jobs)[id := jobs[id]]
                && jobs[id].status == Queued && jobs[id].attempts == 0
                && jobs[id].priority == priority && jobs[id].maxAttempts == maxAttempts
                && jobs[id].createdAt == createdAt == jobs[id].updatedAt && jobs[id].requirements == r
                && NoLease(jobs[id]) && jobs[id].startedAt == None && jobs[id].runId == None && jobs[id].error == None
    {
      if !ValidRequest(priority, maxAttempts, r) {
        return InvalidRequest;
      }
      if quota.Some? {
        var queued, submitted := QueuedJobs(View()), SubmittedLastHour(View());
        if quota.value.maxQueuedJobs.Some? && queued >= quota.value.maxQueuedJobs.value {
          return QueueFull(quota.value.maxQueuedJobs.value, queued + 1);
        }
        if quota.value.maxJobsPerHour.Some? && submitted >= quota.value.maxJobsPerHour.value {
          return HourFull(quota.value.maxJobsPerHour.value, submitted + 1);
        }
      }
      if id in jobs {
        return DuplicateJob;
      }
      jobs := jobs[id := NewJob(priority, maxAttempts, createdAt, r)];
      return Enqueued;
    }

    /** The first of some rows in claim order. */
    method FirstOf(all: set<JobId>) returns (first: JobId)
      requires all != {} && all <= jobs.Keys
      ensures first in all && forall other :: other in all ==> NoLater(jobs[first], jobs[other])
      ensures forall other :: other in all ==> jobs[other].priority <= jobs[first].priority
      ensures forall other :: other in all && jobs[other].priority == jobs[first].priority ==>
                jobs[first].createdAt <= jobs[other].createdAt
    {
      var rest := all;
      first :| first in rest;
      rest := rest - {first};
      while rest != {}
        invariant rest <= all && first in all
        invariant forall other :: other in all && other !in rest ==> NoLater(jobs[first], jobs[other])
        decreases |rest|
      {
        var other :| other in rest;
        rest := rest - {other};
        if !NoLater(jobs[first], jobs[other]) {
          first := other;
        }
      }
    }

    /** `lease_job`: nothing when no unlocked row may be claimed, else a lease on the first one. */
    method LeaseJob(worker: WorkerId, seconds: int, capabilities: Option<WorkerCapabilities>, locked: set<JobId>)
      returns (leased: Option<JobId>)
      modifies this`jobs
      ensures var c := LeaseSql.Advertised(capabilities);
              && (leased.None? <==> Candidates(old(View()), c, locked) == {})
              && (leased.None? ==> View() == old(View()))
              && (leased.Some? ==> var e := Lease(leased.value, worker, seconds, c, locked);
                                   Enabled(old(View()), e) && View() == Apply(old(View()), e))
      ensures leased.Some? ==>
                var id, claimable := leased.value, Candidates(old(View()), LeaseSql.Advertised(capabilities), locked);
                && id in old(jobs) && id !in locked
                && (capabilities == None ==>
                    var r := old(jobs)[id].requirements; r.accelerator == Cpu && r.labels == map[])
                && (forall other :: other in claimable ==>
                      other in old(jobs) && old(jobs)[other].priority <= old(jobs)[id].priority)
                && (forall other :: other in claimable && old(jobs)[other].priority == old(jobs)[id].priority ==>
                      old(jobs)[id].createdAt <= old(jobs)[other].createdAt)
                && id in jobs && jobs == old(jobs)[id := jobs[id]]
                && jobs[id].status == Running && jobs[id].attempts == old(jobs)[id].attempts + 1
                && jobs[id].leaseOwner == Some(worker) && jobs[id].leaseExpiresAt == Some(now + seconds * 1_000_000)
                && jobs[id].startedAt == Some(now) && jobs[id].updatedAt == now && jobs[id].error == None
                && SameRequest(jobs[id], old(jobs)[id])
    {
      var c := LeaseSql.Advertised(capabilities);
      var candidates := Candidates(View(), c, locked);
      if candidates == {} {
        return None;
      }
      var id := FirstOf(candidates);
      jobs := jobs[id := LeasedJob(jobs[id], worker, now, seconds)];
      return Some(id);
    }

    method RenewJobLease(id: JobId, worker: WorkerId, seconds: int) returns (outcome: AckOutcome)
      modifies this`jobs
      ensures var e := Renew(id, worker, seconds);
              && outcome == (if Enabled(old(View()), e) then Acknowledged else LeaseLost)
              && View() == (if Enabled(old(View()), e) then Apply(old(View()), e) else old(View()))
      ensures outcome == Acknowledged <==>
              id in old(jobs) && old(jobs)[id].status == Running && old(jobs)[id].leaseOwner == Some(worker)
      ensures outcome == Acknowledged ==>
                var renewed := old(jobs)[id].(leaseExpiresAt := Some(now + seconds * 1_000_000), updatedAt := now);
                jobs == old(jobs)[id := renewed]
    {
      if !Owns(View(), id, worker) {
        return LeaseLost;
      }
      jobs := jobs[id := RenewedJob(jobs[id], now, seconds)];
      return Acknowledged;
    }

    /** `complete_job`; a run that is not stored violates the foreign key. */
    method CompleteJob(id: JobId, worker: WorkerId, run: RunId) returns (outcome: AckOutcome)
      modifies this`jobs
      ensures var e := Complete(id, worker, run);
              && (outcome == Acknowledged <==> Enabled(old(View()), e))
              && (outcome == LeaseLost <==> !Owns(old(View()), id, worker))
              && View() == (if Enabled(old(View()), e) then Apply(old(View()), e) else old(View()))
      ensures outcome == LeaseLost <==>
              !(id in old(jobs) && old(jobs)[id].status == Running && old(jobs)[id].leaseOwner == Some(worker))
      ensures outcome == Acknowledged ==>
                && run in runs && id in old(jobs) && id in jobs && jobs == old(jobs)[id := jobs[id]]
                && jobs[id].status == Completed && jobs[id].runId == Some(run) && jobs[id].updatedAt == now
                && NoLease(jobs[id]) && jobs[id].error == None && jobs[id].attempts == old(jobs)[id].attempts
                && jobs[id].startedAt == old(jobs)[id].startedAt && SameRequest(jobs[id], old(jobs)[id])
    {
      if !Owns(View(), id, worker) {
        return LeaseLost;
      }
      if run !in runs {
        return UnknownRun;
      }
      jobs := jobs[id := CompletedJob(jobs[id], now, run)];
      return Acknowledged;
    }

    method FailJob(id: JobId, worker: WorkerId, error: string) returns (outcome: AckOutcome)
      modifies this`jobs
      ensures var e := Fail(id, worker, error);
              && outcome == (if Enabled(old(View()), e) then Acknowledged else LeaseLost)
              && View() == (if Enabled(old(View()), e) then Apply(old(View()), e) else old(View()))
      ensures outcome == Acknowledged <==>
              id in old(jobs) && old(jobs)[id].status == Running && old(jobs)[id].leaseOwner == Some(worker)
      ensures outcome == Acknowledged ==>
                && id in jobs && jobs == old(jobs)[id := jobs[id]]
                && jobs[id].status == (if old(jobs)[id].attempts < old(jobs)[id].maxAttempts then Queued else Failed)
                && jobs[id].startedAt == (if jobs[id].status == Queued then None else old(jobs)[id].startedAt)
                && jobs[id].error.Some? && KeepsStart(jobs[id].error.value, error, 4000)
                && NoLease(jobs[id]) && jobs[id].attempts == old(jobs)[id].attempts
                && jobs[id].runId == old(jobs)[id].runId && jobs[id].updatedAt == now
                && SameRequest(jobs[id], old(jobs)[id])
    {
      if !Owns(View(), id, worker) {
        return LeaseLost;
      }
      jobs := jobs[id := FailedJob(jobs[id], now, error)];
      return Acknowledged;
    }

    method CancelJob(id: JobId) returns (outcome: CancelOutcome)
      modifies this`jobs
      ensures (outcome == CancelDone <==> Enabled(old(View()), Cancel(id)))
      ensures View() == (if Enabled(old(View()), Cancel(id)) then Apply(old(View()), Cancel(id)) else old(View()))
      ensures outcome == NoSuchJob <==> id !in old(jobs)
      ensures outcome.NotCancellable? <==> id in old(jobs) && Ended(old(jobs)[id].status)
      ensures outcome.NotCancellable? ==> outcome.status == old(jobs)[id].status
      ensures outcome.NotCancellable? ==> old(jobs)[id].status != Queued && old(jobs)[id].status != Running
      ensures outcome == CancelDone ==>
                && id in old(jobs) && id in jobs && jobs == old(jobs)[id := jobs[id]]
                && jobs[id].status == Cancelled && NoLease(jobs[id]) && jobs[id].updatedAt == now
                && jobs[id].attempts == old(jobs)[id].attempts && SameRequest(jobs[id], old(jobs)[id])
    {
      if id !in jobs {
        return NoSuchJob;
      }
      if jobs[id].status != Queued && jobs[id].status != Running {
        return NotCancellable(jobs[id].status);
      }
      jobs := jobs[id := CancelledJob(jobs[id], now)];
      return CancelDone;
    }
  }

  // ---- Diagnostics and leases ----

  /** A job that the claim query may take now, if a worker is eligible for it. */
  predicate Waits(s: Queue, id: JobId, locked: set<JobId>) {
    && id in s.jobs && id !in locked && s.jobs[id].attempts < s.jobs[id].maxAttempts
    && (NeedsCuda(s.jobs[id]) ==> !AtLimit(Limits(s).maxRunningCudaJobs, ActiveRunningCuda(s)))
    && (IsQueued(s.jobs[id])
        || (s.jobs[id].status == Running && s.jobs[id].leaseExpiresAt.Some? && s.jobs[id].leaseExpiresAt.value < s.now))
  }

  lemma {:induction false} FirstExists(jobs: map<JobId, Job>, all: set<JobId>) returns (first: JobId)
    requires all != {} && all <= jobs.Keys
    ensures first in all && forall other :: other in all ==> NoLater(jobs[first], jobs[other])
    decreases |all|
  {
    var any :| any in all;
    var rest := all - {any};
    if rest == {} {
      first := any;
    } else {
      var next := FirstExists(jobs, rest);
      first := if NoLater(jobs[any], jobs[next]) then any else next;
    }
    forall other | other in all
      ensures NoLater(jobs[first], jobs[other])
    {
      assert other == any || other in rest;
    }
  }

  /**
   What the diagnostic says and what the claim query does: an active worker is given a job exactly when
   the running limit leaves room and the diagnostic calls it eligible for some waiting job, and each
   job that it may be given is one of those.
   */
  lemma EligibleWorkersAreServed(s: Queue, w: WorkerRecord, window: int, locked: set<JobId>)
    requires Placement.IsActive(w, s.now, window)
    ensures (exists id :: Claims(s, w.capabilities, locked, id)) <==>
            && !AtLimit(Limits(s).maxRunningJobs, ActiveRunning(s))
            && exists id :: Waits(s, id, locked) && Placement.CanTake(s.jobs[id].requirements, w, s.now, window)
    ensures forall id :: Claims(s, w.capabilities, locked, id) ==>
              Waits(s, id, locked) && Placement.CanTake(s.jobs[id].requirements, w, s.now, window)
  {
    CandidatesAreEligible(s, w, window, locked);
    if Candidates(s, w.capabilities, locked) != {} {
      var first := FirstExists(s.jobs, Candidates(s, w.capabilities, locked));
      assert Claims(s, w.capabilities, locked, first);
    }
  }

  /** The rows the claim query may take are the waiting jobs that the diagnostic calls the worker eligible for. */
  lemma CandidatesAreEligible(s: Queue, w: WorkerRecord, window: int, locked: set<JobId>)
    requires Placement.IsActive(w, s.now, window)
    ensures forall id :: id in Candidates(s, w.capabilities, locked) <==>
              && !AtLimit(Limits(s).maxRunningJobs, ActiveRunning(s))
              && Waits(s, id, locked) && Placement.CanTake(s.jobs[id].requirements, w, s.now, window)
    ensures Candidates(s, w.capabilities, locked) <= s.jobs.Keys
  {
  }

  /**
   A queued job that the diagnostic calls eligible for the asking worker, unlocked, not held back by a
   running limit, and strictly first among the claimable rows, is the one job the claim query can take.
   */
  lemma EligibleFirstIsLeased(s: Queue, id: JobId, w: WorkerRecord, window: int, locked: set<JobId>, choice: JobId)
    requires id in s.jobs && IsQueued(s.jobs[id]) && WellFormed(s.jobs[id], s.runs) && id !in locked
    requires Placement.CanTake(s.jobs[id].requirements, w, s.now, window)
    requires !AtLimit(Limits(s).maxRunningJobs, ActiveRunning(s))
    requires NeedsCuda(s.jobs[id]) ==> !AtLimit(Limits(s).maxRunningCudaJobs, ActiveRunningCuda(s))
    requires forall other :: other in Candidates(s, w.capabilities, locked) && other != id ==>
               NoLater(s.jobs[id], s.jobs[other]) && !NoLater(s.jobs[other], s.jobs[id])
    ensures Claims(s, w.capabilities, locked, choice) <==> choice == id
  {
    assert id in Candidates(s, w.capabilities, locked);
  }

  lemma StepOnLastAttempt(s: Queue, e: Event, id: JobId)
    requires Enabled(s, e) && OnLastAttempt(s, id)
    ensures if Ends(e, id) then id in Apply(s, e).jobs && Ended(Apply(s, e).jobs[id].status)
            else OnLastAttempt(Apply(s, e), id) && Apply(s, e).jobs[id].leaseOwner == s.jobs[id].leaseOwner
  {
  }

  predicate OnLastAttempt(s: Queue, id: JobId) {
    id in s.jobs && s.jobs[id].status == Running && s.jobs[id].attempts == s.jobs[id].maxAttempts
  }

  /** No report of the owner and no cancellation ends the job's lease from event `k` on. */
  predicate NeverEnded(events: seq<Event>, k: nat, id: JobId) {
    forall m :: k <= m < |events| ==> !Ends(events[m], id)
  }

  /**
   A job on its last attempt stays with its owner, expired or not, exactly until the owner reports or
   the job is cancelled: whatever else happens in the run, nobody can claim it again.
   */
  lemma {:induction false} ExhaustedLeaseIsStuck(quota: Option<Quota>, now: int, events: seq<Event>, k: nat, id: JobId)
    requires IsRun(Start(quota, now), events) && k <= |events|
    requires OnLastAttempt(After(Start(quota, now), events[..k]), id)
    ensures var s, s' := After(Start(quota, now), events[..k]), After(Start(quota, now), events);
            && id in s'.jobs
            && (NeverEnded(events, k, id) ==>
                OnLastAttempt(s', id) && s'.jobs[id].leaseOwner == s.jobs[id].leaseOwner)
            && (!NeverEnded(events, k, id) ==> Ended(s'.jobs[id].status))
    decreases |events|
  {
    if k == |events| {
      assert events[..k] == events;
    } else {
      var n := |events| - 1;
      var before := events[..n];
      assert before[..k] == events[..k];
      ExhaustedLeaseIsStuck(quota, now, before, k, id);
      NeverEndedNext(events, k, id);
      if NeverEnded(before, k, id) {
        StepOnLastAttempt(After(Start(quota, now), before), events[n], id);
      } else {
        StepKeepsEnded(After(Start(quota, now), before), events[n], id);
      }
    }
  }

  lemma NeverEndedNext(events: seq<Event>, k: nat, id: JobId)
    requires k < |events|
    ensures NeverEnded(events, k, id) <==>
            NeverEnded(events[..|events| - 1], k, id) && !Ends(events[|events| - 1], id)
  {
    var before := events[..|events| - 1];
    assert forall m :: k <= m < |before| ==> before[m] == events[m];
  }
}
