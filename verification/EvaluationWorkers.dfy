/**
 The worker side of the lease protocol, from jobs.py: processes that claim a job, keep its lease alive,
 store a run and then acknowledge, and that may crash at any point. Each process states a worker id.
 */
module EvaluationWorkers {
  import opened Wrappers
  import opened Models
  import Q = JobQueue
  import QueueQuota

  type ProcessId = string

  /** Where a process is in `run_once`; `attempt` is the job's attempt count when it was claimed. */
  datatype Phase =
    | Idle
    | Evaluating(job: JobId, attempt: nat)
    | Stored(job: JobId, attempt: nat, run: RunId)
    | Refused(job: JobId, attempt: nat)

  datatype Fleet = Fleet(queue: Q.Queue, phases: map<ProcessId, Phase>)

  datatype Move =
    | Claim(p: ProcessId, id: JobId, seconds: int, capabilities: WorkerCapabilities, locked: set<JobId>)
    | Heartbeat(p: ProcessId, seconds: int)
    | SaveRun(p: ProcessId, run: RunId)
    | Finish(p: ProcessId)
    | GiveUp(p: ProcessId, error: string)
    | Crash(p: ProcessId)
    | Elsewhere(e: Q.Event)

  function PhaseOf(f: Fleet, p: ProcessId): (phase: Phase) {
    if p in f.phases then f.phases[p] else Idle
  }

  /** The queue after the step, or as it was when the step is refused. */
  function Take(s: Q.Queue, e: Q.Event): (s': Q.Queue) {
    if Q.Enabled(s, e) then Q.Apply(s, e) else s
  }

  /** Only workers claim, renew, complete and fail. */
  predicate ByWorker(e: Q.Event) {
    e.Lease? || e.Renew? || e.Complete? || e.Fail?
  }

  /** One move; what the process or the queue does not allow changes nothing. */
  function Do(name: ProcessId -> WorkerId, f: Fleet, m: Move): (f': Fleet) {
    match m
    case Claim(p, id, seconds, c, locked) =>
      var e := Q.Lease(id, name(p), seconds, c, locked);
      if PhaseOf(f, p) == Idle && Q.Enabled(f.queue, e)
      then Fleet(Q.Apply(f.queue, e), f.phases[p := Evaluating(id, f.queue.jobs[id].attempts + 1)]) else f
    case Heartbeat(p, seconds) =>
      var phase := PhaseOf(f, p);
      if phase.Idle? then f else f.(queue := Take(f.queue, Q.Renew(phase.job, name(p), seconds)))
    case SaveRun(p, run) =>
      var phase := PhaseOf(f, p);
      if phase.Evaluating?
      then Fleet(Q.Apply(f.queue, Q.SaveRun(run)), f.phases[p := Stored(phase.job, phase.attempt, run)]) else f
    case Finish(p) =>
      var phase := PhaseOf(f, p);
      if !phase.Stored? then f
      else
        var e := Q.Complete(phase.job, name(p), phase.run);
        if Q.Enabled(f.queue, e) then Fleet(Q.Apply(f.queue, e), f.phases[p := Idle])
        else f.(phases := f.phases[p := Refused(phase.job, phase.attempt)])
    case GiveUp(p, error) =>
      var phase := PhaseOf(f, p);
      if phase.Idle? then f else Fleet(Take(f.queue, Q.Fail(phase.job, name(p), error)), f.phases[p := Idle])
    case Crash(p) => f.(phases := f.phases[p := Idle])
    case Elsewhere(e) => if ByWorker(e) then f else f.(queue := Take(f.queue, e))
  }

  /**
   What the moves of a process leave behind: a crash forgets the job and leaves its lease as it is; giving
   up reports the failure if the queue takes it; a completion that the queue takes ends the work, and one
   that it refuses leaves the failure still to be reported.
   */
  lemma MovesLeave(name: ProcessId -> WorkerId, f: Fleet, p: ProcessId, error: string)
    ensures Do(name, f, Crash(p)).queue == f.queue && PhaseOf(Do(name, f, Crash(p)), p) == Idle
    ensures var phase, f' := PhaseOf(f, p), Do(name, f, GiveUp(p, error));
            && PhaseOf(f', p) == Idle
            && (!phase.Idle? && Q.Enabled(f.queue, Q.Fail(phase.job, name(p), error)) ==>
                f'.queue == Q.Apply(f.queue, Q.Fail(phase.job, name(p), error)))
    ensures PhaseOf(f, p).Stored? ==>
              var phase, f' := PhaseOf(f, p), Do(name, f, Finish(p));
              var complete := Q.Complete(phase.job, name(p), phase.run);
              if Q.Enabled(f.queue, complete) then PhaseOf(f', p) == Idle && f'.queue == Q.Apply(f.queue, complete)
              else PhaseOf(f', p) == Refused(phase.job, phase.attempt) && f'.queue == f.queue
  {
  }

  function After(name: ProcessId -> WorkerId, f: Fleet, moves: seq<Move>): (f': Fleet) {
    if moves == [] then f else Do(name, After(name, f, moves[..|moves| - 1]), moves[|moves| - 1])
  }

  function Start(quota: Option<Q.Quota>, now: int): (f: Fleet) {
    Fleet(Q.Start(quota, now), map[])
  }

  // ---- Fencing by attempt ----

  /** The attempt is the last one of a job that is running still. */
  predicate IsLastAttempt(job: Job, attempt: nat) {
    job.status == Running && job.attempts == attempt
  }

  /** The worker id owns the job in hand exactly while this very attempt is the last and has not ended. */
  predicate Fenced(s: Q.Queue, phase: Phase, worker: WorkerId) {
    phase.Idle?
    || (&& phase.job in s.jobs && phase.attempt <= s.jobs[phase.job].attempts
        && (Q.Owns(s, phase.job, worker) <==> IsLastAttempt(s.jobs[phase.job], phase.attempt))
        && (phase.Refused? ==> !Q.Owns(s, phase.job, worker))
        && (phase.Stored? ==> phase.run in s.runs))
  }

  ghost predicate AllFenced(name: ProcessId -> WorkerId, f: Fleet) {
    forall p :: p in f.phases ==> Fenced(f.queue, f.phases[p], name(p))
  }

  ghost predicate Injective(name: ProcessId -> WorkerId) {
    forall p, q :: name(p) == name(q) ==> p == q
  }

  /** A queue step other than a claim under the same worker id keeps the fence. */
  lemma TakeKeepsFence(s: Q.Queue, e: Q.Event, phase: Phase, worker: WorkerId)
    requires Fenced(s, phase, worker)
    requires e.Lease? ==> e.worker != worker
    ensures Fenced(Take(s, e), phase, worker)
  {
  }

  lemma AllKeepFence(name: ProcessId -> WorkerId, f: Fleet, e: Q.Event)
    requires AllFenced(name, f) && !e.Lease?
    ensures AllFenced(name, f.(queue := Take(f.queue, e)))
  {
    forall p | p in f.phases
      ensures Fenced(Take(f.queue, e), f.phases[p], name(p))
    {
      TakeKeepsFence(f.queue, e, f.phases[p], name(p));
    }
  }

  lemma ClaimKeepsFence(name: ProcessId -> WorkerId, f: Fleet, m: Move)
    requires Injective(name) && AllFenced(name, f) && m.Claim?
    ensures AllFenced(name, Do(name, f, m))
  {
    var f' := Do(name, f, m);
    var e := Q.Lease(m.id, name(m.p), m.seconds, m.capabilities, m.locked);
    if f' != f {
      forall p | p in f'.phases
        ensures Fenced(f'.queue, f'.phases[p], name(p))
      {
        if p != m.p {
          TakeKeepsFence(f.queue, e, f.phases[p], name(p));
        }
      }
    }
  }

  lemma FinishKeepsFence(name: ProcessId -> WorkerId, f: Fleet, m: Move)
    requires AllFenced(name, f) && m.Finish?
    ensures AllFenced(name, Do(name, f, m))
  {
    if PhaseOf(f, m.p).Stored? {
      AllKeepFence(name, f, Q.Complete(PhaseOf(f, m.p).job, name(m.p), PhaseOf(f, m.p).run));
    }
  }

  lemma MoveKeepsFence(name: ProcessId -> WorkerId, f: Fleet, m: Move)
    requires Injective(name) && AllFenced(name, f)
    ensures AllFenced(name, Do(name, f, m))
  {
    match m
    case Claim(_, _, _, _, _) => ClaimKeepsFence(name, f, m);
    case Heartbeat(p, seconds) =>
      if !PhaseOf(f, p).Idle? {
        AllKeepFence(name, f, Q.Renew(PhaseOf(f, p).job, name(p), seconds));
      }
    case SaveRun(p, run) => AllKeepFence(name, f, Q.SaveRun(run));
    case Finish(_) => FinishKeepsFence(name, f, m);
    case GiveUp(p, error) =>
      if !PhaseOf(f, p).Idle? {
        AllKeepFence(name, f, Q.Fail(PhaseOf(f, p).job, name(p), error));
      }
    case Crash(_) =>
    case Elsewhere(e) =>
      if !ByWorker(e) {
        AllKeepFence(name, f, e);
      }
  }

  lemma {:induction false} RunKeepsFence(name: ProcessId -> WorkerId, quota: Option<Q.Quota>, now: int,
                                         moves: seq<Move>)
    requires Injective(name)
    ensures AllFenced(name, After(name, Start(quota, now), moves))
  {
    if moves != [] {
      var before := moves[..|moves| - 1];
      RunKeepsFence(name, quota, now, before);
      MoveKeepsFence(name, After(name, Start(quota, now), before), moves[|moves| - 1]);
    }
  }

  /**
   Where no two processes share a worker id: whatever crashes, expires and is claimed again, a process
   can complete its job, and can renew or fail it, exactly when its own attempt is the job's last and has
   not been ended. After a refused completion the attempt is over and its failure report changes nothing.
   */
  lemma AttemptsAreFenced(name: ProcessId -> WorkerId, quota: Option<Q.Quota>, now: int, moves: seq<Move>,
                          p: ProcessId, seconds: int, error: string)
    requires Injective(name)
    ensures var f := After(name, Start(quota, now), moves);
            var phase, s := PhaseOf(f, p), f.queue;
            && (!phase.Idle? ==>
                  var mine := phase.job in s.jobs && IsLastAttempt(s.jobs[phase.job], phase.attempt);
                  && (phase.Stored? ==> (Q.Enabled(s, Q.Complete(phase.job, name(p), phase.run)) <==> mine))
                  && (Q.Enabled(s, Q.Renew(phase.job, name(p), seconds)) <==> mine)
                  && (Q.Enabled(s, Q.Fail(phase.job, name(p), error)) <==> mine)
                  && (phase.Refused? ==> !mine && Do(name, f, GiveUp(p, error)).queue == s))
  {
    RunKeepsFence(name, quota, now, moves);
  }

  // ---- Where worker ids are shared ----

  lemma AfterOne(name: ProcessId -> WorkerId, f: Fleet, moves: seq<Move>, m: Move)
    ensures After(name, f, moves + [m]) == Do(name, After(name, f, moves), m)
  {
    assert (moves + [m])[..|moves|] == moves;
  }

  /** The queue once "a" waits, with its first `n` attempts claimed under `worker` and expired. */
  function Claimed(worker: WorkerId, n: nat, now: int): (s: Q.Queue)
    requires n > 0
  {
    var waiting := QueueQuota.Waiting();
    Q.Queue(map["a" := waiting.(status := Running, attempts := n, startedAt := Some(now), leaseOwner := Some(worker),
                                leaseExpiresAt := Some(now + 10 * Q.SECOND), updatedAt := now)], None, {}, now)
  }

  function ClaimIt(p: ProcessId): (m: Move) {
    Claim(p, "a", 10, QueueQuota.CpuWorker, {})
  }

  /** Job "a" waits, and every process is idle. */
  function OneWaiting(): (f: Fleet) {
    Fleet(Q.Queue(map["a" := QueueQuota.Waiting()], None, {}, 0), map[])
  }

  function EnqueueIt(): (m: Move) {
    Elsewhere(Q.Enqueue("a", 0, 3, 0, QueueQuota.AnyWorker))
  }

  lemma FirstEnqueue(name: ProcessId -> WorkerId)
    ensures Do(name, Start(None, 0), EnqueueIt()) == OneWaiting()
  {
  }

  lemma FirstLease(name: ProcessId -> WorkerId, p: ProcessId)
    ensures Do(name, OneWaiting(), ClaimIt(p)) == Fleet(Claimed(name(p), 1, 0), map[p := Evaluating("a", 1)])
  {
    QueueQuota.OnlyClaim(OneWaiting().queue);
  }

  lemma FirstClaim(name: ProcessId -> WorkerId, p: ProcessId) returns (moves: seq<Move>)
    ensures After(name, Start(None, 0), moves) == Fleet(Claimed(name(p), 1, 0), map[p := Evaluating("a", 1)])
  {
    FirstEnqueue(name);
    FirstLease(name, p);
    AfterOne(name, Start(None, 0), [], EnqueueIt());
    AfterOne(name, Start(None, 0), [] + [EnqueueIt()], ClaimIt(p));
    moves := [] + [EnqueueIt()] + [ClaimIt(p)];
  }

  lemma SecondClaim(name: ProcessId -> WorkerId, s: Q.Queue, worker: WorkerId)
    requires s == Claimed(worker, 1, 0).(now := 20 * Q.SECOND)
    ensures Q.Claims(s, QueueQuota.CpuWorker, {}, "a")
  {
    assert Q.Candidates(s, QueueQuota.CpuWorker, {}) == {"a"};
    QueueQuota.ClaimsOnly(s, QueueQuota.CpuWorker, {}, "a");
  }

  /**
   Two processes under one worker id are not told apart: the first claims, its lease expires, the second
   claims, and the first completes the job with the run of its superseded attempt.
   */
  lemma SharedIdsAreNotFenced(name: ProcessId -> WorkerId, p: ProcessId, q: ProcessId) returns (moves: seq<Move>)
    requires p != q && name(p) == name(q)
    ensures var f := After(name, Start(None, 0), moves);
            && PhaseOf(f, p) == Stored("a", 1, "r") && PhaseOf(f, q) == Evaluating("a", 2)
            && Q.Enabled(f.queue, Q.Complete("a", name(p), "r")) && f.queue.jobs["a"].attempts == 2
  {
    moves := SecondAttempt(name, p, q);
    AfterOne(name, Start(None, 0), moves, SaveRun(p, "r"));
    moves := moves + [SaveRun(p, "r")];
  }

  lemma SecondAttempt(name: ProcessId -> WorkerId, p: ProcessId, q: ProcessId) returns (moves: seq<Move>)
    requires p != q && name(p) == name(q)
    ensures var f := After(name, Start(None, 0), moves);
            && PhaseOf(f, p) == Evaluating("a", 1) && PhaseOf(f, q) == Evaluating("a", 2)
            && Q.Owns(f.queue, "a", name(p)) && f.queue.jobs["a"].attempts == 2
  {
    var earlier := FirstClaim(name, p);
    Expire(name(p), Evaluating("a", 1), name, p);
    AfterOne(name, Start(None, 0), earlier, TickIt());
    ClaimAgain(name, After(name, Start(None, 0), earlier + [TickIt()]), p, q);
    AfterOne(name, Start(None, 0), earlier + [TickIt()], ClaimIt(q));
    moves := earlier + [TickIt()] + [ClaimIt(q)];
  }

  function TickIt(): (m: Move) {
    Elsewhere(Q.Tick(20 * Q.SECOND))
  }

  lemma Expire(worker: WorkerId, phase: Phase, name: ProcessId -> WorkerId, p: ProcessId)
    ensures Do(name, Fleet(Claimed(worker, 1, 0), map[p := phase]), TickIt())
            == Fleet(Claimed(worker, 1, 0).(now := 20 * Q.SECOND), map[p := phase])
  {
  }

  lemma ClaimAgain(name: ProcessId -> WorkerId, f: Fleet, p: ProcessId, q: ProcessId)
    requires p != q && name(p) == name(q)
    requires f == Fleet(Claimed(name(p), 1, 0).(now := 20 * Q.SECOND), map[p := Evaluating("a", 1)])
    ensures var f' := Do(name, f, ClaimIt(q));
            && PhaseOf(f', p) == Evaluating("a", 1) && PhaseOf(f', q) == Evaluating("a", 2)
            && Q.Owns(f'.queue, "a", name(p)) && f'.queue.jobs["a"].attempts == 2
  {
    SecondClaim(name, f.queue, name(p));
  }

  /** Fencing by worker id is fencing by attempt in every run exactly when no two processes share a worker id. */
  lemma FencedExactlyWithOwnIds(name: ProcessId -> WorkerId)
    ensures Injective(name) <==> forall quota, now, moves :: AllFenced(name, After(name, Start(quota, now), moves))
  {
    if Injective(name) {
      forall quota, now, moves
        ensures AllFenced(name, After(name, Start(quota, now), moves))
      {
        RunKeepsFence(name, quota, now, moves);
      }
    } else {
      var p, q :| name(p) == name(q) && p != q;
      var moves := SharedIdsAreNotFenced(name, p, q);
      assert !AllFenced(name, After(name, Start(None, 0), moves));
    }
  }
}
