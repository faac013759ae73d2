/** The GPU capacity forecast of capacity.py: placement, matching and clearance waves put together. */
module CapacityForecast {
  import opened Wrappers
  import opened FiniteSets
  import opened Models
  import opened TextOrder
  import opened Matching
  import opened ClearanceWaves
  import Placement

  datatype JobRow = JobRow(id: JobId, job: Job)

  datatype QueueState = FirstWave | Deferred | Blocked

  datatype JobForecast = JobForecast(id: JobId, state: QueueState, matchingWorkers: nat,
                                     assignedWorker: Option<WorkerId>)

  datatype Forecast = Forecast(
    queuedCudaJobs: nat, firstWaveJobs: nat, deferredJobs: nat, blockedJobs: nat,
    minimumClearanceWaves: nat, jobs: seq<JobForecast>)

  // ---- The queue order ----

  /** The sort key (-priority, created_at, str(job_id)). */
  predicate Before(a: JobRow, b: JobRow) {
    || a.job.priority > b.job.priority
    || (a.job.priority == b.job.priority
        && (a.job.createdAt < b.job.createdAt
            || (a.job.createdAt == b.job.createdAt && TextAtMost(a.id, b.id))))
  }

  /** No job comes after one of less priority, nor after one of its priority created later, nor after an equal by id. */
  ghost predicate InQueueOrder(rows: seq<JobRow>) {
    forall i, j :: 0 <= i < j < |rows| ==> Follows(rows[i], rows[j])
  }

  predicate Follows(first: JobRow, next: JobRow) {
    && first.job.priority >= next.job.priority
    && (first.job.priority == next.job.priority ==> first.job.createdAt <= next.job.createdAt)
    && (first.job.priority == next.job.priority && first.job.createdAt == next.job.createdAt ==>
        TextAtMost(first.id, next.id))
  }

  function InsertRow(row: JobRow, sorted: seq<JobRow>): (result: seq<JobRow>)
    ensures multiset(result) == multiset(sorted) + multiset{row}
  {
    if sorted == [] then [row]
    else
      assert sorted == [sorted[0]] + sorted[1..];
      if Before(row, sorted[0]) then [row] + sorted
      else [sorted[0]] + InsertRow(row, sorted[1..])
  }

  lemma BeforeIsFollows(a: JobRow, b: JobRow)
    ensures Before(a, b) <==> Follows(a, b)
    ensures Follows(a, b) || Follows(b, a)
  {
    TextTotal(a.id, b.id);
  }

  lemma FollowsTransitive(a: JobRow, b: JobRow, c: JobRow)
    requires Follows(a, b) && Follows(b, c)
    ensures Follows(a, c)
  {
    if TextAtMost(a.id, b.id) && TextAtMost(b.id, c.id) {
      TextTransitive(a.id, b.id, c.id);
    }
  }

  lemma {:induction false} InsertRowOrdered(row: JobRow, sorted: seq<JobRow>)
    requires InQueueOrder(sorted)
    ensures InQueueOrder(InsertRow(row, sorted))
  {
    if sorted != [] {
      BeforeIsFollows(row, sorted[0]);
      if Before(row, sorted[0]) {
        forall j | 0 <= j < |sorted|
          ensures Follows(row, sorted[j])
        {
          if j > 0 {
            FollowsTransitive(row, sorted[0], sorted[j]);
          }
        }
      } else {
        InsertRowOrdered(row, sorted[1..]);
        var rest := InsertRow(row, sorted[1..]);
        forall j | 0 <= j < |rest|
          ensures Follows(sorted[0], rest[j])
        {
          assert rest[j] in multiset(rest);
          assert rest[j] == row || rest[j] in sorted[1..];
        }
      }
    }
  }

  predicate IsQueuedCuda(row: JobRow) {
    row.job.status == Queued && row.job.requirements.accelerator == Cuda
  }

  /** `sorted(filter(...))`: the queued CUDA jobs, each once, in queue order. */
  function QueuedCuda(rows: seq<JobRow>): (queue: seq<JobRow>)
    ensures forall row :: multiset(queue)[row] ==
              if row.job.status == Queued && row.job.requirements.accelerator == Cuda then multiset(rows)[row] else 0
    ensures InQueueOrder(queue)
  {
    if rows == [] then []
    else
      assert rows == [rows[0]] + rows[1..];
      var rest := QueuedCuda(rows[1..]);
      InsertRowOrdered(rows[0], rest);
      if IsQueuedCuda(rows[0]) then InsertRow(rows[0], rest) else rest
  }

  ghost predicate DistinctIds(rows: seq<JobRow>) {
    forall i, j :: 0 <= i < j < |rows| ==> rows[i].id != rows[j].id
  }

  lemma QueuedCudaMembers(rows: seq<JobRow>)
    ensures forall row :: row in QueuedCuda(rows) <==>
              row in rows && row.job.status == Queued && row.job.requirements.accelerator == Cuda
  {
    forall row
      ensures row in QueuedCuda(rows) <==>
              row in rows && row.job.status == Queued && row.job.requirements.accelerator == Cuda
    {
      assert row in multiset(QueuedCuda(rows)) <==> row in QueuedCuda(rows);
      assert row in multiset(rows) <==> row in rows;
    }
  }

  lemma {:induction false} QueuedCudaDistinct(rows: seq<JobRow>)
    requires DistinctIds(rows)
    ensures DistinctIds(QueuedCuda(rows))
  {
    var queue := QueuedCuda(rows);
    QueuedCudaMembers(rows);
    forall i, j | 0 <= i < j < |queue|
      ensures queue[i].id != queue[j].id
    {
      assert queue[i] in queue && queue[j] in queue;
      if queue[i] == queue[j] {
        TwiceInSeq(queue, i, j);
        OnceInSeq(rows, queue[i]);
      }
    }
  }

  lemma TwiceInSeq(s: seq<JobRow>, i: nat, j: nat)
    requires i < j < |s| && s[i] == s[j]
    ensures multiset(s)[s[i]] >= 2
  {
    assert s == s[..i] + [s[i]] + s[i + 1..j] + [s[j]] + s[j + 1..];
  }

  lemma OnceInSeq(s: seq<JobRow>, row: JobRow)
    requires DistinctIds(s)
    ensures multiset(s)[row] <= 1
  {
    if row in s {
      var k :| 0 <= k < |s| && s[k] == row;
      assert s == s[..k] + [s[k]] + s[k + 1..];
      assert row !in s[..k] && row !in s[k + 1..];
    }
  }

  // ---- Who can take what ----

  /** Some active worker with this id is admitted by the claim query's worker clauses. */
  ghost predicate CanRun(id: WorkerId, job: Job, workers: seq<WorkerRecord>, observedAt: int, window: int) {
    exists w :: w in workers && w.workerId == id && Placement.CanTake(job.requirements, w, observedAt, window)
  }

  /** `eligible` lists, for each queued job, the ids of the active workers that can take it. */
  ghost predicate Lists(eligible: map<JobId, seq<WorkerId>>, queue: seq<JobRow>, workers: seq<WorkerRecord>,
                        observedAt: int, window: int)
  {
    && eligible.Keys == (set row | row in queue :: row.id)
    && forall row, id :: row in queue ==> (id in eligible[row.id] <==> CanRun(id, row.job, workers, observedAt, window))
  }

  /** The ids of the workers that can take the job, one entry for each of them. */
  ghost predicate ListsTakers(ids: seq<WorkerId>, job: Job, workers: seq<WorkerRecord>, observedAt: int, window: int) {
    && (forall id :: id in ids <==> CanRun(id, job, workers, observedAt, window))
    && |ids| == |Placement.Takers(job.requirements, workers, observedAt, window)|
  }

  method EligibleWorkers(job: Job, workers: seq<WorkerRecord>, observedAt: int, window: int)
    returns (ids: seq<WorkerId>)
    requires window > 0
    ensures ListsTakers(ids, job, workers, observedAt, window)
  {
    var diagnostic := Placement.DiagnosePlacement(job.status, job.requirements, workers, observedAt, window);
    var items := diagnostic.value.workers;
    ids := [];
    for i := 0 to |items|
      invariant ListsTakers(ids, job, workers[..i], observedAt, window)
    {
      assert Placement.Diagnoses(items[i], job.requirements, workers[i], observedAt, window);
      TakersNext(ids, job, workers, i, observedAt, window);
      if items[i].active && items[i].eligible {
        ids := ids + [items[i].workerId];
      }
    }
    assert workers[..|workers|] == workers;
  }

  lemma TakersNext(ids: seq<WorkerId>, job: Job, workers: seq<WorkerRecord>, i: nat, observedAt: int, window: int)
    requires i < |workers| && ListsTakers(ids, job, workers[..i], observedAt, window)
    ensures var takes := Placement.CanTake(job.requirements, workers[i], observedAt, window);
            ListsTakers(if takes then ids + [workers[i].workerId] else ids, job, workers[..i + 1], observedAt, window)
  {
    CanRunNext(job, workers, i, observedAt, window);
    CanRunAlone(job, workers[i], observedAt, window);
    TakersCount(job, workers, i, observedAt, window);
  }

  lemma CanRunNext(job: Job, workers: seq<WorkerRecord>, i: nat, observedAt: int, window: int)
    requires i < |workers|
    ensures forall id :: CanRun(id, job, workers[..i + 1], observedAt, window) <==>
              CanRun(id, job, workers[..i], observedAt, window) || CanRun(id, job, [workers[i]], observedAt, window)
  {
    var earlier, last := workers[..i], [workers[i]];
    assert workers[..i + 1] == earlier + last;
    forall id
      ensures CanRun(id, job, earlier + last, observedAt, window) <==>
              CanRun(id, job, earlier, observedAt, window) || CanRun(id, job, last, observedAt, window)
    {
      assert forall w :: w in earlier + last <==> w in earlier || w in last;
    }
  }

  lemma CanRunAlone(job: Job, w: WorkerRecord, observedAt: int, window: int)
    ensures forall id :: CanRun(id, job, [w], observedAt, window) <==>
              id == w.workerId && Placement.CanTake(job.requirements, w, observedAt, window)
  {
    assert w in [w];
  }

  lemma TakersCount(job: Job, workers: seq<WorkerRecord>, i: nat, observedAt: int, window: int)
    requires i < |workers|
    ensures |Placement.Takers(job.requirements, workers[..i + 1], observedAt, window)|
            == |Placement.Takers(job.requirements, workers[..i], observedAt, window)|
               + if Placement.CanTake(job.requirements, workers[i], observedAt, window) then 1 else 0
  {
    assert workers[..i + 1][..i] == workers[..i];
    assert i !in Placement.Takers(job.requirements, workers[..i], observedAt, window);
  }

  /** Each list of workers is as long as there are workers that can take the job. */
  ghost predicate ListsEach(eligible: map<JobId, seq<WorkerId>>, queue: seq<JobRow>, workers: seq<WorkerRecord>,
                            observedAt: int, window: int)
  {
    forall row :: row in queue ==>
      && row.id in eligible
      && |eligible[row.id]| == |Placement.Takers(row.job.requirements, workers, observedAt, window)|
  }

  method EligibleByJob(queue: seq<JobRow>, workers: seq<WorkerRecord>, observedAt: int, window: int)
    returns (eligible: map<JobId, seq<WorkerId>>)
    requires window > 0 && DistinctIds(queue)
    ensures Lists(eligible, queue, workers, observedAt, window)
    ensures ListsEach(eligible, queue, workers, observedAt, window)
  {
    eligible := map[];
    for i := 0 to |queue|
      invariant Lists(eligible, queue[..i], workers, observedAt, window)
      invariant ListsEach(eligible, queue[..i], workers, observedAt, window)
    {
      var ids := EligibleWorkers(queue[i].job, workers, observedAt, window);
      ListsNext(eligible, queue, i, ids, workers, observedAt, window);
      eligible := eligible[queue[i].id := ids];
    }
    assert queue[..|queue|] == queue;
  }

  lemma ListsNext(eligible: map<JobId, seq<WorkerId>>, queue: seq<JobRow>, i: nat, ids: seq<WorkerId>,
                  workers: seq<WorkerRecord>, observedAt: int, window: int)
    requires i < |queue| && DistinctIds(queue) && ListsTakers(ids, queue[i].job, workers, observedAt, window)
    requires Lists(eligible, queue[..i], workers, observedAt, window)
    requires ListsEach(eligible, queue[..i], workers, observedAt, window)
    ensures Lists(eligible[queue[i].id := ids], queue[..i + 1], workers, observedAt, window)
    ensures ListsEach(eligible[queue[i].id := ids], queue[..i + 1], workers, observedAt, window)
  {
    var row := queue[i];
    assert queue[..i + 1] == queue[..i] + [row];
    assert forall r :: r in queue[..i] ==> r.id != row.id;
    ListsOneMore(eligible, queue[..i], row, ids, workers, observedAt, window);
    ListsEachOneMore(eligible, queue[..i], row, ids, workers, observedAt, window);
  }

  lemma ListsOneMore(eligible: map<JobId, seq<WorkerId>>, rows: seq<JobRow>, row: JobRow, ids: seq<WorkerId>,
                     workers: seq<WorkerRecord>, observedAt: int, window: int)
    requires Lists(eligible, rows, workers, observedAt, window)
    requires ListsTakers(ids, row.job, workers, observedAt, window) && forall r :: r in rows ==> r.id != row.id
    ensures Lists(eligible[row.id := ids], rows + [row], workers, observedAt, window)
  {
    RowsWith(rows, row);
  }

  lemma ListsEachOneMore(eligible: map<JobId, seq<WorkerId>>, rows: seq<JobRow>, row: JobRow, ids: seq<WorkerId>,
                         workers: seq<WorkerRecord>, observedAt: int, window: int)
    requires ListsEach(eligible, rows, workers, observedAt, window)
    requires ListsTakers(ids, row.job, workers, observedAt, window) && forall r :: r in rows ==> r.id != row.id
    ensures ListsEach(eligible[row.id := ids], rows + [row], workers, observedAt, window)
  {
    RowsWith(rows, row);
  }

  lemma RowsWith(rows: seq<JobRow>, row: JobRow)
    ensures forall r :: r in rows + [row] <==> r in rows || r == row
    ensures (set r | r in rows + [row] :: r.id) == (set r | r in rows :: r.id) + {row.id}
  {
  }

  /** The ids of the jobs that some worker can take, in queue order. */
  function CompatibleIds(queue: seq<JobRow>, eligible: map<JobId, seq<WorkerId>>): (ids: seq<JobId>)
    requires forall row :: row in queue ==> row.id in eligible
    ensures forall id :: id in ids ==> exists row :: row in queue && row.id == id
    ensures forall row :: row in queue ==> (row.id in ids <==> eligible[row.id] != [])
  {
    if queue == [] then []
    else
      assert queue == [queue[0]] + queue[1..];
      (if eligible[queue[0].id] == [] then [] else [queue[0].id]) + CompatibleIds(queue[1..], eligible)
  }

  lemma {:induction false} CompatibleDistinct(queue: seq<JobRow>, eligible: map<JobId, seq<WorkerId>>)
    requires DistinctIds(queue) && forall row :: row in queue ==> row.id in eligible
    ensures Distinct(CompatibleIds(queue, eligible))
  {
    if queue != [] {
      CompatibleDistinct(queue[1..], eligible);
      var rest := CompatibleIds(queue[1..], eligible);
      assert queue[0].id !in rest;
    }
  }

  // ---- One wave ----

  lemma ServedInOneWave(jobs: seq<JobId>, eligible: map<JobId, seq<WorkerId>>, m: map<JobId, WorkerId>)
    requires Distinct(jobs) && IsMatching(Elems(jobs), eligible, m) && |m| == |jobs|
    ensures Feasible(Elems(jobs), eligible, 1)
  {
    DistinctCard(jobs);
    SubsetCard(m.Keys, Elems(jobs));
    forall w
      ensures |Load(m, w)| <= 1
    {
      SingleLoad(m, w);
    }
    assert Clears(Elems(jobs), eligible, 1, m);
  }

  lemma OneWavePlanIsMatching(jobs: set<JobId>, eligible: map<JobId, seq<WorkerId>>, plan: map<JobId, WorkerId>)
    requires Clears(jobs, eligible, 1, plan)
    ensures IsMatching(jobs, eligible, plan)
  {
    forall i, j | i in plan && j in plan && i != j
      ensures plan[i] != plan[j]
    {
      if plan[i] == plan[j] {
        SubsetCard({i, j}, Load(plan, plan[i]));
      }
    }
  }

  /** All jobs fit into one wave exactly when the first-wave matching serves them all. */
  lemma OneWave(jobs: seq<JobId>, eligible: map<JobId, seq<WorkerId>>, m: map<JobId, WorkerId>)
    requires Distinct(jobs) && Elems(jobs) <= eligible.Keys && PriorityOptimal(jobs, eligible, m)
    ensures Feasible(Elems(jobs), eligible, 1) <==> |m| == |jobs|
  {
    if |m| == |jobs| {
      ServedInOneWave(jobs, eligible, m);
    } else if Feasible(Elems(jobs), eligible, 1) {
      var plan: map<JobId, WorkerId> :| Clears(Elems(jobs), eligible, 1, plan);
      OneWavePlanIsMatching(Elems(jobs), eligible, plan);
      AllAtOnce(jobs, eligible, m, plan);
    }
  }

  lemma AllAtOnce(jobs: seq<JobId>, eligible: map<JobId, seq<WorkerId>>, m: map<JobId, WorkerId>,
                  plan: map<JobId, WorkerId>)
    requires Distinct(jobs) && PriorityOptimal(jobs, eligible, m)
    requires IsMatching(Elems(jobs), eligible, plan) && plan.Keys == Elems(jobs)
    ensures |m| == |jobs|
  {
    assert jobs[..|jobs|] == jobs;
    PrefixBound(jobs, eligible, m, |jobs|, plan, Elems(jobs));
    assert m.Keys * Elems(jobs) == m.Keys;
    DistinctCard(jobs);
    SubsetCard(m.Keys, Elems(jobs));
  }

  lemma SingleLoad(m: map<JobId, WorkerId>, w: WorkerId)
    requires forall i, j :: i in m && j in m && i != j ==> m[i] != m[j]
    ensures |Load(m, w)| <= 1
  {
    if j :| j in Load(m, w) {
      assert Load(m, w) == {j};
    } else {
      assert Load(m, w) == {};
    }
  }

  /** Nothing is deferred exactly when one wave is enough. */
  lemma WavesAndDeferral(jobs: seq<JobId>, eligible: map<JobId, seq<WorkerId>>, m: map<JobId, WorkerId>, waves: nat)
    requires Distinct(jobs) && Elems(jobs) <= eligible.Keys && PriorityOptimal(jobs, eligible, m)
    requires IsLeastClearance(jobs, eligible, waves)
    ensures waves <= 1 <==> |m| == |jobs|
  {
    OneWave(jobs, eligible, m);
    if waves == 0 {
      var plan: map<JobId, WorkerId> :| Clears(Elems(jobs), eligible, 0, plan);
      forall w
        ensures |Load(plan, w)| <= 1
      {
      }
      assert Clears(Elems(jobs), eligible, 1, plan);
    }
  }

  // ---- The forecast ----

  /** A one-wave assignment: distinct workers, each able to run its job. */
  ghost predicate Assignment(a: map<JobId, WorkerId>, queue: seq<JobRow>, workers: seq<WorkerRecord>, observedAt: int,
                             window: int)
  {
    && a.Keys <= (set row | row in queue :: row.id)
    && (forall row :: row in queue && row.id in a ==> CanRun(a[row.id], row.job, workers, observedAt, window))
    && (forall i, j :: i in a && j in a && i != j ==> a[i] != a[j])
  }

  lemma AssignmentIsMatching(a: map<JobId, WorkerId>, queue: seq<JobRow>, eligible: map<JobId, seq<WorkerId>>,
                             workers: seq<WorkerRecord>, observedAt: int, window: int)
    requires Lists(eligible, queue, workers, observedAt, window)
    ensures Assignment(a, queue, workers, observedAt, window) <==>
            IsMatching(Elems(CompatibleIds(queue, eligible)), eligible, a)
  {
    if Assignment(a, queue, workers, observedAt, window) {
      AssignmentMatches(a, queue, eligible, workers, observedAt, window);
    }
    if IsMatching(Elems(CompatibleIds(queue, eligible)), eligible, a) {
      MatchingAssigns(a, queue, eligible, workers, observedAt, window);
    }
  }

  lemma AssignmentMatches(a: map<JobId, WorkerId>, queue: seq<JobRow>, eligible: map<JobId, seq<WorkerId>>,
                          workers: seq<WorkerRecord>, observedAt: int, window: int)
    requires Lists(eligible, queue, workers, observedAt, window) && Assignment(a, queue, workers, observedAt, window)
    ensures IsMatching(Elems(CompatibleIds(queue, eligible)), eligible, a)
  {
    forall id | id in a
      ensures id in CompatibleIds(queue, eligible) && a[id] in eligible[id]
    {
      var row :| row in queue && row.id == id;
    }
  }

  lemma MatchingAssigns(a: map<JobId, WorkerId>, queue: seq<JobRow>, eligible: map<JobId, seq<WorkerId>>,
                        workers: seq<WorkerRecord>, observedAt: int, window: int)
    requires Lists(eligible, queue, workers, observedAt, window)
    requires IsMatching(Elems(CompatibleIds(queue, eligible)), eligible, a)
    ensures Assignment(a, queue, workers, observedAt, window)
  {
    forall id | id in a
      ensures id in (set row | row in queue :: row.id)
    {
      assert id in CompatibleIds(queue, eligible);
    }
  }

  function StateOf(id: JobId, eligible: map<JobId, seq<WorkerId>>, firstWave: map<JobId, WorkerId>): QueueState
    requires id in eligible
  {
    if eligible[id] == [] then Blocked else if id !in firstWave then Deferred else FirstWave
  }

  function CountState(jobs: seq<JobForecast>, state: QueueState): (n: nat)
    ensures n == 0 <==> forall j :: j in jobs ==> j.state != state
  {
    if jobs == [] then 0
    else
      assert jobs == [jobs[0]] + jobs[1..];
      (if jobs[0].state == state then 1 else 0) + CountState(jobs[1..], state)
  }

  lemma {:induction false} CountsPartition(jobs: seq<JobForecast>)
    ensures CountState(jobs, FirstWave) + CountState(jobs, Deferred) + CountState(jobs, Blocked) == |jobs|
  {
    if jobs != [] {
      CountsPartition(jobs[1..]);
    }
  }

  /** The forecasts of the queue's jobs, one by one and in queue order. */
  ghost predicate Describes(jobs: seq<JobForecast>, queue: seq<JobRow>, eligible: map<JobId, seq<WorkerId>>,
                            firstWave: map<JobId, WorkerId>)
    requires forall row :: row in queue ==> row.id in eligible
  {
    && |jobs| == |queue|
    && forall i :: 0 <= i < |queue| ==>
         && jobs[i].id == queue[i].id
         && jobs[i].state == StateOf(queue[i].id, eligible, firstWave)
         && jobs[i].matchingWorkers == |eligible[queue[i].id]|
         && jobs[i].assignedWorker == if queue[i].id in firstWave then Some(firstWave[queue[i].id]) else None
  }

  lemma {:induction false} NonBlockedAreCompatible(jobs: seq<JobForecast>, queue: seq<JobRow>,
                                                   eligible: map<JobId, seq<WorkerId>>,
                                                   firstWave: map<JobId, WorkerId>)
    requires forall row :: row in queue ==> row.id in eligible
    requires Describes(jobs, queue, eligible, firstWave)
    ensures |CompatibleIds(queue, eligible)| == CountState(jobs, FirstWave) + CountState(jobs, Deferred)
  {
    if queue != [] {
      assert queue == [queue[0]] + queue[1..];
      NonBlockedAreCompatible(jobs[1..], queue[1..], eligible, firstWave);
    }
  }

  /** The queued jobs that the first wave serves. */
  ghost function ServedIds(queue: seq<JobRow>, eligible: map<JobId, seq<WorkerId>>, firstWave: map<JobId, WorkerId>)
    : (served: set<JobId>)
    requires forall row :: row in queue ==> row.id in eligible
  {
    set row | row in queue && row.id in firstWave && eligible[row.id] != [] :: row.id
  }

  lemma ServedNext(queue: seq<JobRow>, eligible: map<JobId, seq<WorkerId>>, firstWave: map<JobId, WorkerId>)
    requires queue != [] && DistinctIds(queue) && forall row :: row in queue ==> row.id in eligible
    ensures var rest := ServedIds(queue[1..], eligible, firstWave);
            && queue[0].id !in rest
            && ServedIds(queue, eligible, firstWave)
               == if StateOf(queue[0].id, eligible, firstWave) == FirstWave then rest + {queue[0].id} else rest
  {
    assert queue == [queue[0]] + queue[1..];
  }

  lemma {:induction false} ServedAreFirstWave(jobs: seq<JobForecast>, queue: seq<JobRow>,
                                              eligible: map<JobId, seq<WorkerId>>,
                                              firstWave: map<JobId, WorkerId>)
    requires DistinctIds(queue) && forall row :: row in queue ==> row.id in eligible
    requires Describes(jobs, queue, eligible, firstWave)
    ensures |ServedIds(queue, eligible, firstWave)| == CountState(jobs, FirstWave)
  {
    if queue == [] {
      assert ServedIds(queue, eligible, firstWave) == {};
    } else {
      ServedAreFirstWave(jobs[1..], queue[1..], eligible, firstWave);
      ServedNext(queue, eligible, firstWave);
    }
  }

  lemma CompatibleSplit(queue: seq<JobRow>, k: nat, eligible: map<JobId, seq<WorkerId>>)
    requires k <= |queue| && forall row :: row in queue ==> row.id in eligible
    ensures CompatibleIds(queue, eligible) == CompatibleIds(queue[..k], eligible) + CompatibleIds(queue[k..], eligible)
  {
    assert queue == queue[..k] + queue[k..];
    CompatibleAppend(queue[..k], queue[k..], eligible);
  }

  lemma {:induction false} CompatibleAppend(a: seq<JobRow>, b: seq<JobRow>, eligible: map<JobId, seq<WorkerId>>)
    requires forall row :: row in a || row in b ==> row.id in eligible
    ensures CompatibleIds(a + b, eligible) == CompatibleIds(a, eligible) + CompatibleIds(b, eligible)
  {
    if a == [] {
      assert a + b == b;
    } else {
      CompatibleAppend(a[1..], b, eligible);
      HeadOfAppend(a, b);
      CompatibleFirst(a, eligible);
      CompatibleFirst(a + b, eligible);
      var first := if eligible[a[0].id] == [] then [] else [a[0].id];
      Regroup(first, CompatibleIds(a[1..], eligible), CompatibleIds(b, eligible));
    }
  }

  lemma Regroup(a: seq<JobId>, b: seq<JobId>, c: seq<JobId>)
    ensures a + (b + c) == a + b + c
  {
  }

  lemma HeadOfAppend(a: seq<JobRow>, b: seq<JobRow>)
    requires a != []
    ensures (a + b)[0] == a[0] && (a + b)[1..] == a[1..] + b
  {
  }

  /** The ids of the first row and of the others. */
  lemma CompatibleFirst(queue: seq<JobRow>, eligible: map<JobId, seq<WorkerId>>)
    requires queue != [] && forall row :: row in queue ==> row.id in eligible
    ensures CompatibleIds(queue, eligible)
            == (if eligible[queue[0].id] == [] then [] else [queue[0].id]) + CompatibleIds(queue[1..], eligible)
  {
  }

  /**
   The first-wave jobs that go ahead of job `k`: of higher priority, or of its priority and created
   earlier, or created with it and listed first.
   */
  ghost function FirstWaveAhead(jobs: seq<JobForecast>, queue: seq<JobRow>, k: nat): (ids: set<JobId>)
    requires k < |jobs| == |queue|
  {
    set i | 0 <= i < |jobs| && jobs[i].state == FirstWave && GoesAhead(queue, i, k) :: jobs[i].id
  }

  ghost predicate GoesAhead(queue: seq<JobRow>, i: int, k: int)
    requires 0 <= i < |queue| && 0 <= k < |queue|
  {
    var first, next := queue[i].job, queue[k].job;
    || first.priority > next.priority
    || (first.priority == next.priority && first.createdAt < next.createdAt)
    || (first.priority == next.priority && first.createdAt == next.createdAt && i < k)
  }

  /**
   A deferred job waits only for jobs ahead of it: no assignment of distinct workers runs it together
   with all first-wave jobs that go before it by priority and age.
   */
  ghost predicate DeferralJustified(f: Forecast, queue: seq<JobRow>, workers: seq<WorkerRecord>, observedAt: int,
                                    window: int)
  {
    && |f.jobs| == |queue|
    && forall k, a :: 0 <= k < |f.jobs| && f.jobs[k].state == Deferred
                      && Assignment(a, queue, workers, observedAt, window)
                      && FirstWaveAhead(f.jobs, queue, k) <= a.Keys
                      ==> f.jobs[k].id !in a
  }

  lemma DeferredWaits(jobs: seq<JobForecast>, queue: seq<JobRow>, eligible: map<JobId, seq<WorkerId>>,
                      firstWave: map<JobId, WorkerId>, workers: seq<WorkerRecord>, observedAt: int, window: int,
                      k: nat, a: map<JobId, WorkerId>)
    requires DistinctIds(queue) && Lists(eligible, queue, workers, observedAt, window)
    requires PriorityOptimal(CompatibleIds(queue, eligible), eligible, firstWave)
    requires Describes(jobs, queue, eligible, firstWave) && InQueueOrder(queue)
    requires k < |jobs| && jobs[k].state == Deferred
    requires Assignment(a, queue, workers, observedAt, window) && FirstWaveAhead(jobs, queue, k) <= a.Keys
    ensures jobs[k].id !in a
  {
    var ids := CompatibleIds(queue, eligible);
    var n := CompatiblePosition(queue, k, eligible);
    CompatibleDistinct(queue, eligible);
    AssignmentIsMatching(a, queue, eligible, workers, observedAt, window);
    FirstWaveAheadServed(jobs, queue, eligible, firstWave, k);
    LeftOverCannotDisplace(ids, eligible, firstWave, n, a);
  }

  /** Where a job that somebody can run stands among such jobs. */
  lemma CompatiblePosition(queue: seq<JobRow>, k: nat, eligible: map<JobId, seq<WorkerId>>) returns (n: nat)
    requires k < |queue| && (forall row :: row in queue ==> row.id in eligible) && eligible[queue[k].id] != []
    ensures n < |CompatibleIds(queue, eligible)| && CompatibleIds(queue, eligible)[n] == queue[k].id
    ensures CompatibleIds(queue, eligible)[..n] == CompatibleIds(queue[..k], eligible)
  {
    CompatibleSplit(queue, k, eligible);
    CompatibleFirst(queue[k..], eligible);
    n := |CompatibleIds(queue[..k], eligible)|;
    PositionIn(CompatibleIds(queue[..k], eligible), queue[k].id, CompatibleIds(queue[k..][1..], eligible));
  }

  lemma PositionIn(a: seq<JobId>, id: JobId, b: seq<JobId>)
    ensures (a + ([id] + b))[|a|] == id && (a + ([id] + b))[..|a|] == a
  {
  }

  lemma FirstWaveAheadServed(jobs: seq<JobForecast>, queue: seq<JobRow>, eligible: map<JobId, seq<WorkerId>>,
                             firstWave: map<JobId, WorkerId>, k: nat)
    requires forall row :: row in queue ==> row.id in eligible
    requires Describes(jobs, queue, eligible, firstWave) && k < |jobs| && InQueueOrder(queue)
    ensures firstWave.Keys * Elems(CompatibleIds(queue[..k], eligible)) <= FirstWaveAhead(jobs, queue, k)
  {
    forall id | id in firstWave && id in CompatibleIds(queue[..k], eligible)
      ensures id in FirstWaveAhead(jobs, queue, k)
    {
      var i := IndexOf(queue[..k], id, eligible);
      assert queue[i] in queue[..k];
      assert Follows(queue[i], queue[k]) && GoesAhead(queue, i, k);
      assert jobs[i].state == FirstWave && jobs[i].id == id;
    }
  }

  lemma IndexOf(queue: seq<JobRow>, id: JobId, eligible: map<JobId, seq<WorkerId>>) returns (i: nat)
    requires forall row :: row in queue ==> row.id in eligible
    requires id in CompatibleIds(queue, eligible)
    ensures i < |queue| && queue[i].id == id
  {
    var row :| row in queue && row.id == id;
    i :| 0 <= i < |queue| && queue[i] == row;
  }

  ghost predicate CountsAgree(f: Forecast) {
    && f.queuedCudaJobs == |f.jobs| == f.firstWaveJobs + f.deferredJobs + f.blockedJobs
    && f.firstWaveJobs == CountState(f.jobs, FirstWave)
    && f.deferredJobs == CountState(f.jobs, Deferred)
    && f.blockedJobs == CountState(f.jobs, Blocked)
  }

  /** What each entry says: blocked when nobody can run the job, first wave when it has a worker assigned. */
  ghost predicate EntriesAgree(f: Forecast, queue: seq<JobRow>, workers: seq<WorkerRecord>, observedAt: int,
                               window: int)
  {
    && |f.jobs| == |queue|
    && forall i :: 0 <= i < |queue| ==>
         && f.jobs[i].id == queue[i].id
         && f.jobs[i].matchingWorkers == |Placement.Takers(queue[i].job.requirements, workers, observedAt, window)|
         && (f.jobs[i].state == Blocked <==> forall id :: !CanRun(id, queue[i].job, workers, observedAt, window))
         && (f.jobs[i].state == FirstWave <==> f.jobs[i].assignedWorker.Some?)
         && (f.jobs[i].assignedWorker.Some? ==>
             CanRun(f.jobs[i].assignedWorker.value, queue[i].job, workers, observedAt, window))
  }

  /** No two jobs are assigned the same worker, and no assignment runs more jobs at once. */
  ghost predicate FirstWaveBest(f: Forecast, queue: seq<JobRow>, workers: seq<WorkerRecord>, observedAt: int,
                                window: int)
  {
    && (forall i, j :: 0 <= i < j < |f.jobs| && f.jobs[i].assignedWorker.Some? ==>
          f.jobs[i].assignedWorker != f.jobs[j].assignedWorker)
    && (forall a :: Assignment(a, queue, workers, observedAt, window) ==> |a| <= f.firstWaveJobs)
  }

  /**
   The forecast. `eligible` is the table of eligible workers it worked with, given as evidence for
   what it says about waves: the least number that clears all jobs somebody can run.
   */
  method ForecastGpuCapacity(rows: seq<JobRow>, workers: seq<WorkerRecord>, observedAt: int, activeWithinSeconds: int)
    returns (result: Option<Forecast>, ghost eligible: map<JobId, seq<WorkerId>>)
    requires DistinctIds(rows)
    ensures result.None? <==> activeWithinSeconds <= 0
    ensures result.Some? ==>
              var f, queue := result.value, QueuedCuda(rows);
              && (forall row :: row in queue <==>
                    row in rows && row.job.status == Queued && row.job.requirements.accelerator == Cuda)
              && InQueueOrder(queue)
              && Lists(eligible, queue, workers, observedAt, activeWithinSeconds)
              && CountsAgree(f)
              && EntriesAgree(f, queue, workers, observedAt, activeWithinSeconds)
              && FirstWaveBest(f, queue, workers, observedAt, activeWithinSeconds)
              && DeferralJustified(f, queue, workers, observedAt, activeWithinSeconds)
              && IsLeastClearance(CompatibleIds(queue, eligible), eligible, f.minimumClearanceWaves)
              && IsLargestDemand(CompatibleIds(queue, eligible), eligible, f.minimumClearanceWaves)
              && (f.minimumClearanceWaves == 0 <==> f.blockedJobs == f.queuedCudaJobs)
              && (f.minimumClearanceWaves <= 1 <==> f.deferredJobs == 0)
  {
    eligible := map[];
    if activeWithinSeconds <= 0 {
      return None, eligible;
    }
    var queue := QueuedCuda(rows);
    QueuedCudaDistinct(rows);
    QueuedCudaMembers(rows);
    var eligibleWorkers := EligibleByJob(queue, workers, observedAt, activeWithinSeconds);
    eligible := eligibleWorkers;
    var ids := CompatibleIds(queue, eligibleWorkers);
    CompatibleDistinct(queue, eligibleWorkers);
    CompatibleInGraph(queue, eligible);
    var firstWave, _ := MaximumMatching(ids, eligibleWorkers);
    var waves := MinimumClearanceWaves(ids, eligibleWorkers);
    var jobs := DescribeQueue(queue, eligibleWorkers, firstWave);
    var f := Forecast(|queue|, |firstWave|, CountState(jobs, Deferred), CountState(jobs, Blocked), waves, jobs);
    result := Some(f);
    ForecastCounts(f, queue, eligible, firstWave);
    ForecastEntries(f, queue, eligible, firstWave, workers, observedAt, activeWithinSeconds);
    ForecastFirstWave(f, queue, eligible, firstWave, workers, observedAt, activeWithinSeconds);
    WavesAndDeferral(ids, eligible, firstWave, waves);
    forall k, a | 0 <= k < |f.jobs| && f.jobs[k].state == Deferred
                  && Assignment(a, queue, workers, observedAt, activeWithinSeconds)
                  && FirstWaveAhead(f.jobs, queue, k) <= a.Keys
      ensures f.jobs[k].id !in a
    {
      DeferredWaits(jobs, queue, eligible, firstWave, workers, observedAt, activeWithinSeconds, k, a);
    }
  }

  method DescribeQueue(queue: seq<JobRow>, eligible: map<JobId, seq<WorkerId>>, firstWave: map<JobId, WorkerId>)
    returns (jobs: seq<JobForecast>)
    requires forall row :: row in queue ==> row.id in eligible
    ensures Describes(jobs, queue, eligible, firstWave)
  {
    jobs := [];
    for i := 0 to |queue|
      invariant |jobs| == i && Describes(jobs, queue[..i], eligible, firstWave)
    {
      var matching := eligible[queue[i].id];
      var worker := if queue[i].id in firstWave then Some(firstWave[queue[i].id]) else None;
      var state := if matching == [] then Blocked else if worker.None? then Deferred else FirstWave;
      jobs := jobs + [JobForecast(queue[i].id, state, |matching|, worker)];
    }
    assert queue[..|queue|] == queue;
  }

  lemma CompatibleInGraph(queue: seq<JobRow>, eligible: map<JobId, seq<WorkerId>>)
    requires eligible.Keys == (set row | row in queue :: row.id)
    ensures Elems(CompatibleIds(queue, eligible)) <= eligible.Keys
    ensures AllHaveWorkers(CompatibleIds(queue, eligible), eligible)
  {
  }

  lemma ForecastCounts(f: Forecast, queue: seq<JobRow>, eligible: map<JobId, seq<WorkerId>>,
                       firstWave: map<JobId, WorkerId>)
    requires DistinctIds(queue) && eligible.Keys == (set row | row in queue :: row.id)
    requires IsMatching(Elems(CompatibleIds(queue, eligible)), eligible, firstWave)
    requires Describes(f.jobs, queue, eligible, firstWave)
    requires f.queuedCudaJobs == |queue| && f.firstWaveJobs == |firstWave|
    requires f.deferredJobs == CountState(f.jobs, Deferred) && f.blockedJobs == CountState(f.jobs, Blocked)
    ensures CountsAgree(f)
    ensures |CompatibleIds(queue, eligible)| == f.firstWaveJobs + f.deferredJobs
  {
    CountsPartition(f.jobs);
    NonBlockedAreCompatible(f.jobs, queue, eligible, firstWave);
    FirstWaveCount(f.jobs, queue, eligible, firstWave);
  }

  lemma FirstWaveCount(jobs: seq<JobForecast>, queue: seq<JobRow>, eligible: map<JobId, seq<WorkerId>>,
                       firstWave: map<JobId, WorkerId>)
    requires DistinctIds(queue) && forall row :: row in queue ==> row.id in eligible
    requires IsMatching(Elems(CompatibleIds(queue, eligible)), eligible, firstWave)
    requires Describes(jobs, queue, eligible, firstWave)
    ensures |firstWave| == CountState(jobs, FirstWave)
  {
    var served := ServedIds(queue, eligible, firstWave);
    forall id | id in firstWave
      ensures id in served
    {
      assert id in CompatibleIds(queue, eligible);
      var i := IndexOf(queue, id, eligible);
      assert queue[i] in queue;
    }
    assert served == firstWave.Keys;
    ServedAreFirstWave(jobs, queue, eligible, firstWave);
  }

  lemma ForecastEntries(f: Forecast, queue: seq<JobRow>, eligible: map<JobId, seq<WorkerId>>,
                        firstWave: map<JobId, WorkerId>,
                        workers: seq<WorkerRecord>, observedAt: int, window: int)
    requires Lists(eligible, queue, workers, observedAt, window)
    requires ListsEach(eligible, queue, workers, observedAt, window)
    requires IsMatching(Elems(CompatibleIds(queue, eligible)), eligible, firstWave)
    requires Describes(f.jobs, queue, eligible, firstWave)
    ensures EntriesAgree(f, queue, workers, observedAt, window)
  {
    forall i | 0 <= i < |queue|
      ensures f.jobs[i].matchingWorkers == |Placement.Takers(queue[i].job.requirements, workers, observedAt, window)|
      ensures f.jobs[i].state == Blocked <==> forall id :: !CanRun(id, queue[i].job, workers, observedAt, window)
      ensures f.jobs[i].state == FirstWave <==> f.jobs[i].assignedWorker.Some?
      ensures f.jobs[i].assignedWorker.Some? ==>
              CanRun(f.jobs[i].assignedWorker.value, queue[i].job, workers, observedAt, window)
    {
      var row := queue[i];
      assert row in queue;
      if eligible[row.id] != [] {
        assert CanRun(eligible[row.id][0], row.job, workers, observedAt, window);
      }
    }
  }

  lemma ForecastFirstWave(f: Forecast, queue: seq<JobRow>, eligible: map<JobId, seq<WorkerId>>,
                          firstWave: map<JobId, WorkerId>,
                          workers: seq<WorkerRecord>, observedAt: int, window: int)
    requires DistinctIds(queue) && Lists(eligible, queue, workers, observedAt, window)
    requires PriorityOptimal(CompatibleIds(queue, eligible), eligible, firstWave)
    requires Describes(f.jobs, queue, eligible, firstWave) && f.firstWaveJobs == |firstWave|
    ensures FirstWaveBest(f, queue, workers, observedAt, window)
  {
    forall a | Assignment(a, queue, workers, observedAt, window)
      ensures |a| <= |firstWave|
    {
      FirstWaveServesMost(a, queue, eligible, firstWave, workers, observedAt, window);
    }
  }

  lemma FirstWaveServesMost(a: map<JobId, WorkerId>, queue: seq<JobRow>, eligible: map<JobId, seq<WorkerId>>,
                            firstWave: map<JobId, WorkerId>, workers: seq<WorkerRecord>, observedAt: int, window: int)
    requires DistinctIds(queue) && Lists(eligible, queue, workers, observedAt, window)
    requires PriorityOptimal(CompatibleIds(queue, eligible), eligible, firstWave)
    requires Assignment(a, queue, workers, observedAt, window)
    ensures |a| <= |firstWave|
  {
    var ids := CompatibleIds(queue, eligible);
    AssignmentIsMatching(a, queue, eligible, workers, observedAt, window);
    assert ids[..|ids|] == ids;
    PrefixBound(ids, eligible, firstWave, |ids|, a, a.Keys);
    SubsetCard(firstWave.Keys * Elems(ids), firstWave.Keys);
  }
}
