/** `platform_fleet_report` of store.py: what the rollup tables say of every tenant, and of all together. */
module FleetReport {
  import opened Wrappers
  import opened Models
  import opened FleetRollups
  import opened FiniteSets
  import Q = JobQueue

  /** The job half of a snapshot; `oldestQueued` is the age in microseconds of the oldest queued job. */
  datatype JobUsage = JobUsage(
    queuedCpu: nat, queuedCuda: nat, runningCpu: nat, runningCuda: nat, submittedLastHour: nat, oldestQueued: nat)

  datatype WorkerUsage = WorkerUsage(observed: nat, activeCpu: nat, activeCuda: nat, activeGpuDevices: nat)

  datatype Snapshot = Snapshot(jobs: JobUsage, workers: WorkerUsage)

  datatype Saturation = Saturation(queuedJobs: bool, jobsPerHour: bool, runningJobs: bool, runningCudaJobs: bool)

  datatype TenantStatus = Active | Suspended | Unregistered

  /** A row of control_plane_tenants. */
  datatype TenantRecord = TenantRecord(displayName: string, suspended: bool)

  datatype TenantSummary = TenantSummary(
    tenant: string, displayName: Option<string>, status: TenantStatus, quota: Q.Quota,
    saturation: Saturation, usage: Snapshot)

  datatype Report = Report(observedAt: int, window: int, totals: Snapshot, tenants: seq<TenantSummary>)

  // ---- Aggregation ----

  /** The keys of some tenants' rows that FILTER (WHERE p) keeps. */
  function Kept<R>(rows: map<Key, R>, tenants: set<string>, p: R -> bool): (keys: set<Key>) {
    set key | key in rows && key.tenant in tenants && p(rows[key])
  }

  function Count<R>(rows: map<Key, R>, tenants: set<string>, p: R -> bool): (n: nat) {
    |Kept(rows, tenants, p)|
  }

  function Waiting(accelerator: Accelerator): (p: JobRollup -> bool) {
    (job: JobRollup) => job.status == Queued && job.accelerator == accelerator
  }

  function Unexpired(accelerator: Accelerator, now: int): (p: JobRollup -> bool) {
    (job: JobRollup) =>
      && job.status == Running && job.leaseExpiresAt.Some? && job.leaseExpiresAt.value >= now
      && job.accelerator == accelerator
  }

  function Recent(now: int): (p: JobRollup -> bool) {
    (job: JobRollup) => job.createdAt >= now - Q.HOUR
  }

  function Seen(since: int): (p: WorkerRollup -> bool) {
    (worker: WorkerRollup) => worker.lastSeenAt >= since
  }

  function ActiveCpu(since: int): (p: WorkerRollup -> bool) {
    (worker: WorkerRollup) => worker.supportsCpu && worker.lastSeenAt >= since
  }

  function ActiveCuda(since: int): (p: WorkerRollup -> bool) {
    (worker: WorkerRollup) => worker.supportsCuda && worker.lastSeenAt >= since
  }

  /** The devices of the workers for which `p` holds, each as its worker and position: their number is the sum. */
  function Devices(workers: map<Key, WorkerRollup>, tenants: set<string>, p: WorkerRollup -> bool)
    : (devices: set<(Key, int)>)
  {
    set key, i | key in workers && key.tenant in tenants && 0 <= i < workers[key].gpuDevices && p(workers[key]) ::
      (key, i)
  }

  function Ages(jobs: map<Key, JobRollup>, tenants: set<string>, now: int): (ages: set<int>) {
    set key | key in jobs && key.tenant in tenants && jobs[key].status == Queued :: now - jobs[key].createdAt
  }

  /** greatest(coalesce(max(ages), 0), 0) */
  function Oldest(ages: set<int>): (age: nat) {
    if ages == {} || Greatest(ages) < 0 then 0 else Greatest(ages)
  }

  function Greatest(ages: set<int>): (age: int)
    requires ages != {}
  {
    HasMax(ages);
    var max :| max in ages && forall a :: a in ages ==> a <= max;
    max
  }

  lemma OldestIsMax(ages: set<int>)
    ensures forall a :: a in ages ==> a <= Oldest(ages)
    ensures Oldest(ages) == 0 || Oldest(ages) in ages
  {
  }

  lemma Member<T>(s: set<T>) returns (x: T)
    requires s != {}
    ensures x in s
  {
    x :| x in s;
  }

  lemma {:induction false} HasMax(ages: set<int>)
    requires ages != {}
    ensures exists max :: max in ages && forall a :: a in ages ==> a <= max
  {
    var a := Member(ages);
    var rest := ages - {a};
    assert forall b :: b in ages <==> b == a || b in rest;
    if rest == {} {
      assert forall b :: b in ages ==> b <= a;
    } else {
      HasMax(rest);
      var m :| m in rest && forall b :: b in rest ==> b <= m;
      var max := if m < a then a else m;
      assert max in ages;
      assert forall b :: b in ages ==> b <= max;
    }
  }

  /** The query's job_usage, of one tenant or several. */
  function UsageOfJobs(jobs: map<Key, JobRollup>, tenants: set<string>, now: int): (usage: JobUsage) {
    JobUsage(
      Count(jobs, tenants, Waiting(Cpu)), Count(jobs, tenants, Waiting(Cuda)),
      Count(jobs, tenants, Unexpired(Cpu, now)), Count(jobs, tenants, Unexpired(Cuda, now)),
      Count(jobs, tenants, Recent(now)), Oldest(Ages(jobs, tenants, now)))
  }

  /** The query's worker_usage: workers seen since the day before, and active since the window began. */
  function UsageOfWorkers(workers: map<Key, WorkerRollup>, tenants: set<string>, day: int, since: int)
    : (usage: WorkerUsage)
  {
    WorkerUsage(
      Count(workers, tenants, Seen(day)),
      Count(workers, tenants, ActiveCpu(since)), Count(workers, tenants, ActiveCuda(since)),
      |Devices(workers, tenants, ActiveCuda(since))|)
  }

  function DayBefore(now: int): (t: int) {
    now - 24 * Q.HOUR
  }

  function Since(now: int, window: int): (t: int) {
    now - window * Q.SECOND
  }

  function Usage(jobs: map<Key, JobRollup>, workers: map<Key, WorkerRollup>, tenants: set<string>, now: int,
                 window: int)
    : (usage: Snapshot)
  {
    Snapshot(UsageOfJobs(jobs, tenants, now), UsageOfWorkers(workers, tenants, DayBefore(now), Since(now, window)))
  }

  function Saturated(quota: Q.Quota, usage: JobUsage): (saturation: Saturation) {
    Saturation(
      Q.AtLimit(quota.maxQueuedJobs, usage.queuedCpu + usage.queuedCuda),
      Q.AtLimit(quota.maxJobsPerHour, usage.submittedLastHour),
      Q.AtLimit(quota.maxRunningJobs, usage.runningCpu + usage.runningCuda),
      Q.AtLimit(quota.maxRunningCudaJobs, usage.runningCuda))
  }

  function AddJobs(a: JobUsage, b: JobUsage): (c: JobUsage) {
    JobUsage(
      a.queuedCpu + b.queuedCpu, a.queuedCuda + b.queuedCuda,
      a.runningCpu + b.runningCpu, a.runningCuda + b.runningCuda,
      a.submittedLastHour + b.submittedLastHour,
      if a.oldestQueued < b.oldestQueued then b.oldestQueued else a.oldestQueued)
  }

  function AddWorkers(a: WorkerUsage, b: WorkerUsage): (c: WorkerUsage) {
    WorkerUsage(a.observed + b.observed, a.activeCpu + b.activeCpu, a.activeCuda + b.activeCuda,
                a.activeGpuDevices + b.activeGpuDevices)
  }

  /** Sums over the tenants' lines, and the greatest age. */
  function Totals(lines: seq<TenantSummary>): (totals: Snapshot) {
    if lines == [] then Snapshot(JobUsage(0, 0, 0, 0, 0, 0), WorkerUsage(0, 0, 0, 0))
    else
      var before, last := Totals(lines[..|lines| - 1]), lines[|lines| - 1].usage;
      Snapshot(AddJobs(before.jobs, last.jobs), AddWorkers(before.workers, last.workers))
  }

  // ---- Totals ----

  lemma CountSplit<R>(rows: map<Key, R>, a: set<string>, b: set<string>, p: R -> bool)
    requires a !! b
    ensures Count(rows, a + b, p) == Count(rows, a, p) + Count(rows, b, p)
  {
    assert Kept(rows, a, p) !! Kept(rows, b, p);
    assert Kept(rows, a, p) + Kept(rows, b, p) == Kept(rows, a + b, p);
  }

  lemma DevicesSplit(rows: map<Key, WorkerRollup>, a: set<string>, b: set<string>, p: WorkerRollup -> bool)
    requires a !! b
    ensures |Devices(rows, a + b, p)| == |Devices(rows, a, p)| + |Devices(rows, b, p)|
  {
    assert Devices(rows, a, p) !! Devices(rows, b, p);
    assert Devices(rows, a, p) + Devices(rows, b, p) == Devices(rows, a + b, p);
  }

  lemma OldestSplit(x: set<int>, y: set<int>)
    ensures Oldest(x + y) == if Oldest(x) < Oldest(y) then Oldest(y) else Oldest(x)
  {
    OldestIsMax(x);
    OldestIsMax(y);
    OldestIsMax(x + y);
    assert Oldest(x) == 0 || Oldest(x) in x + y;
    assert Oldest(y) == 0 || Oldest(y) in x + y;
  }

  lemma JobsSplit(jobs: map<Key, JobRollup>, a: set<string>, b: set<string>, now: int)
    requires a !! b
    ensures UsageOfJobs(jobs, a + b, now) == AddJobs(UsageOfJobs(jobs, a, now), UsageOfJobs(jobs, b, now))
  {
    CountSplit(jobs, a, b, Waiting(Cpu));
    CountSplit(jobs, a, b, Waiting(Cuda));
    CountSplit(jobs, a, b, Unexpired(Cpu, now));
    CountSplit(jobs, a, b, Unexpired(Cuda, now));
    CountSplit(jobs, a, b, Recent(now));
    AgesSplit(jobs, a, b, now);
  }

  lemma AgesSplit(jobs: map<Key, JobRollup>, a: set<string>, b: set<string>, now: int)
    ensures var x, y := Oldest(Ages(jobs, a, now)), Oldest(Ages(jobs, b, now));
            Oldest(Ages(jobs, a + b, now)) == if x < y then y else x
  {
    assert Ages(jobs, a + b, now) == Ages(jobs, a, now) + Ages(jobs, b, now);
    OldestSplit(Ages(jobs, a, now), Ages(jobs, b, now));
  }

  lemma WorkersSplit(workers: map<Key, WorkerRollup>, a: set<string>, b: set<string>, day: int, since: int)
    requires a !! b
    ensures UsageOfWorkers(workers, a + b, day, since)
         == AddWorkers(UsageOfWorkers(workers, a, day, since), UsageOfWorkers(workers, b, day, since))
  {
    CountSplit(workers, a, b, Seen(day));
    CountSplit(workers, a, b, ActiveCpu(since));
    CountSplit(workers, a, b, ActiveCuda(since));
    DevicesSplit(workers, a, b, ActiveCuda(since));
  }

  lemma NoJobs(jobs: map<Key, JobRollup>, none: set<string>, now: int)
    requires none == {}
    ensures UsageOfJobs(jobs, none, now) == JobUsage(0, 0, 0, 0, 0, 0)
  {
    JobsSplit(jobs, none, none, now);
    assert none + none == none;
    assert Ages(jobs, none, now) == {};
  }

  lemma NoWorkers(workers: map<Key, WorkerRollup>, none: set<string>, day: int, since: int)
    requires none == {}
    ensures UsageOfWorkers(workers, none, day, since) == WorkerUsage(0, 0, 0, 0)
  {
    WorkersSplit(workers, none, none, day, since);
    assert none + none == none;
  }

  function Names(lines: seq<TenantSummary>): (names: set<string>) {
    set line | line in lines :: line.tenant
  }

  /** One line a tenant, with that tenant's usage. */
  ghost predicate LinesFor(lines: seq<TenantSummary>, jobs: map<Key, JobRollup>, workers: map<Key, WorkerRollup>,
                           now: int, window: int)
  {
    && (forall i, j :: 0 <= i < j < |lines| ==> lines[i].tenant != lines[j].tenant)
    && forall i :: 0 <= i < |lines| ==> lines[i].usage == Usage(jobs, workers, {lines[i].tenant}, now, window)
  }

  /**
   Adding up the tenants' lines gives what the whole tables say of those tenants: nothing is counted
   twice or lost.
   */
  lemma {:induction false} TotalsAreFleetwide(
      lines: seq<TenantSummary>, jobs: map<Key, JobRollup>, workers: map<Key, WorkerRollup>, now: int, window: int)
    requires LinesFor(lines, jobs, workers, now, window)
    ensures Totals(lines) == Usage(jobs, workers, Names(lines), now, window)
  {
    if lines == [] {
      assert Names(lines) == {};
      NoJobs(jobs, Names(lines), now);
      NoWorkers(workers, Names(lines), DayBefore(now), Since(now, window));
    } else {
      var before, last := lines[..|lines| - 1], lines[|lines| - 1];
      TotalsAreFleetwide(before, jobs, workers, now, window);
      NamesNext(lines);
      LastIsNew(lines, jobs, workers, now, window);
      UsageSplits(jobs, workers, Names(before), last.tenant, now, window);
    }
  }

  lemma UsageSplits(jobs: map<Key, JobRollup>, workers: map<Key, WorkerRollup>, tenants: set<string>, other: string,
                    now: int, window: int)
    requires other !in tenants
    ensures var before, last := Usage(jobs, workers, tenants, now, window), Usage(jobs, workers, {other}, now, window);
            Usage(jobs, workers, tenants + {other}, now, window)
            == Snapshot(AddJobs(before.jobs, last.jobs), AddWorkers(before.workers, last.workers))
  {
    JobsSplit(jobs, tenants, {other}, now);
    WorkersSplit(workers, tenants, {other}, DayBefore(now), Since(now, window));
  }

  lemma LastIsNew(lines: seq<TenantSummary>, jobs: map<Key, JobRollup>, workers: map<Key, WorkerRollup>, now: int,
                  window: int)
    requires lines != [] && LinesFor(lines, jobs, workers, now, window)
    ensures lines[|lines| - 1].tenant !in Names(lines[..|lines| - 1])
  {
  }

  lemma NamesNext(lines: seq<TenantSummary>)
    requires lines != []
    ensures Names(lines) == Names(lines[..|lines| - 1]) + {lines[|lines| - 1].tenant}
  {
    assert lines == lines[..|lines| - 1] + [lines[|lines| - 1]];
  }

  // ---- The base tables ----

  /** The rows of evaluation_jobs that one tenant sees. */
  function TenantJobs(jobs: map<Key, Job>, tenant: string): (own: map<JobId, Job>) {
    map key | key in jobs && key.tenant == tenant :: key.id := jobs[key]
  }

  lemma SameCount(tenant: string, keys: set<Key>, ids: set<JobId>)
    requires forall key :: key in keys ==> key.tenant == tenant
    requires forall id :: id in ids <==> Key(tenant, id) in keys
    ensures |keys| == |ids|
  {
    var there := map id | id in ids :: Key(tenant, id);
    var back := map key | key in keys :: key.id;
    InjectionCard(there, keys);
    InjectionCard(back, ids);
    assert there.Keys == ids && back.Keys == keys;
  }

  lemma TenantCount(jobs: map<Key, Job>, tenant: string, p: JobRollup -> bool, ids: set<JobId>)
    requires forall id :: id in ids <==> Key(tenant, id) in jobs && p(OfJob(jobs[Key(tenant, id)]))
    ensures Count(Projection(jobs, OfJob), {tenant}, p) == |ids|
  {
    SameCount(tenant, Kept(Projection(jobs, OfJob), {tenant}, p), ids);
  }

  /** The report counts a tenant's jobs as the quota checks of the tenant's own queue do. */
  lemma UsageIsQuotaUsage(jobs: map<Key, Job>, tenant: string, s: Q.Queue)
    requires s.jobs == TenantJobs(jobs, tenant)
    ensures var u := UsageOfJobs(Projection(jobs, OfJob), {tenant}, s.now);
            && u.queuedCpu + u.queuedCuda == Q.QueuedJobs(s)
            && u.submittedLastHour == Q.SubmittedLastHour(s)
            && u.runningCpu + u.runningCuda == Q.ActiveRunning(s)
            && u.runningCuda == Q.ActiveRunningCuda(s)
  {
    QueuedAgree(jobs, tenant, s);
    RunningAgree(jobs, tenant, s);
    SubmittedAgree(jobs, tenant, s);
  }

  lemma SubmittedAgree(jobs: map<Key, Job>, tenant: string, s: Q.Queue)
    requires s.jobs == TenantJobs(jobs, tenant)
    ensures Count(Projection(jobs, OfJob), {tenant}, Recent(s.now)) == Q.SubmittedLastHour(s)
  {
    TenantCount(jobs, tenant, Recent(s.now), Q.Ids(s.jobs, (job: Job) => job.createdAt >= s.now - Q.HOUR));
  }

  lemma QueuedAgree(jobs: map<Key, Job>, tenant: string, s: Q.Queue)
    requires s.jobs == TenantJobs(jobs, tenant)
    ensures var rows := Projection(jobs, OfJob);
            Count(rows, {tenant}, Waiting(Cpu)) + Count(rows, {tenant}, Waiting(Cuda)) == Q.QueuedJobs(s)
  {
    var all := Q.Ids(s.jobs, Q.IsQueued);
    var cuda := set id | id in all && Q.NeedsCuda(s.jobs[id]);
    TenantCount(jobs, tenant, Waiting(Cpu), all - cuda);
    TenantCount(jobs, tenant, Waiting(Cuda), cuda);
    PartCard(all, cuda);
  }

  lemma PartCard<T>(all: set<T>, part: set<T>)
    requires part <= all
    ensures |all - part| + |part| == |all|
  {
    assert all == (all - part) + part;
  }

  lemma RunningAgree(jobs: map<Key, Job>, tenant: string, s: Q.Queue)
    requires s.jobs == TenantJobs(jobs, tenant)
    ensures var rows := Projection(jobs, OfJob);
            && Count(rows, {tenant}, Unexpired(Cpu, s.now)) + Count(rows, {tenant}, Unexpired(Cuda, s.now))
              == Q.ActiveRunning(s)
            && Count(rows, {tenant}, Unexpired(Cuda, s.now)) == Q.ActiveRunningCuda(s)
  {
    var all := Q.Ids(s.jobs, (job: Job) => Q.Unexpired(job, s.now));
    var cuda := Q.Ids(s.jobs, (job: Job) => Q.Unexpired(job, s.now) && Q.NeedsCuda(job));
    TenantCount(jobs, tenant, Unexpired(Cpu, s.now), all - cuda);
    TenantCount(jobs, tenant, Unexpired(Cuda, s.now), cuda);
  }

  /**
   The flags of the report say what the queue will do: a tenant is queue- or hour-saturated exactly when
   its next valid enqueue is refused; running-saturated, no worker can claim any job; CUDA-saturated, no
   CUDA job.
   */
  lemma SaturationIsRefusal(
      jobs: map<Key, Job>, tenant: string, s: Q.Queue, e: Q.Event, c: WorkerCapabilities, locked: set<JobId>)
    requires s.jobs == TenantJobs(jobs, tenant)
    requires e.Enqueue? && e.id !in s.jobs && Q.ValidRequest(e.priority, e.maxAttempts, e.requirements)
    ensures var flags := Saturated(Q.Limits(s), UsageOfJobs(Projection(jobs, OfJob), {tenant}, s.now));
            && (flags.queuedJobs || flags.jobsPerHour <==> !Q.Enabled(s, e))
            && (flags.runningJobs ==> Q.Candidates(s, c, locked) == {})
            && (flags.runningCudaJobs ==>
                forall id :: id in Q.Candidates(s, c, locked) ==> id in s.jobs && !Q.NeedsCuda(s.jobs[id]))
            && (flags.runningJobs <==> Q.AtLimit(Q.Limits(s).maxRunningJobs, Q.ActiveRunning(s)))
            && (flags.runningCudaJobs <==> Q.AtLimit(Q.Limits(s).maxRunningCudaJobs, Q.ActiveRunningCuda(s)))
  {
    UsageIsQuotaUsage(jobs, tenant, s);
  }

  // What the report is to say of some tenants, taken from the base tables themselves.

  ghost function QueuedKeys(jobs: map<Key, Job>, tenants: set<string>, cuda: bool): (keys: set<Key>) {
    set key | key in jobs && key.tenant in tenants && jobs[key].status == Queued
              && (jobs[key].requirements.accelerator == Cuda) == cuda
  }

  ghost function RunningKeys(jobs: map<Key, Job>, tenants: set<string>, cuda: bool, now: int): (keys: set<Key>) {
    set key | key in jobs && key.tenant in tenants
              && jobs[key].status == Running && jobs[key].leaseExpiresAt.Some? && now <= jobs[key].leaseExpiresAt.value
              && (jobs[key].requirements.accelerator == Cuda) == cuda
  }

  ghost function SubmittedKeys(jobs: map<Key, Job>, tenants: set<string>, now: int): (keys: set<Key>) {
    set key | key in jobs && key.tenant in tenants && jobs[key].createdAt >= now - 3_600_000_000
  }

  ghost function SeenKeys(workers: map<Key, WorkerRecord>, tenants: set<string>, since: int): (keys: set<Key>) {
    set key | key in workers && key.tenant in tenants && workers[key].lastSeenAt >= since
  }

  ghost function OfferingKeys(workers: map<Key, WorkerRecord>, tenants: set<string>, accelerator: Accelerator,
                              since: int): (keys: set<Key>)
  {
    set key | key in SeenKeys(workers, tenants, since) && accelerator in workers[key].capabilities.accelerators
  }

  ghost function CudaDevices(workers: map<Key, WorkerRecord>, tenants: set<string>, since: int)
    : (devices: set<(Key, int)>)
  {
    set key, i | key in OfferingKeys(workers, tenants, Cuda, since) && 0 <= i < |workers[key].capabilities.gpus| ::
      (key, i)
  }

  ghost predicate IsUsageOfJobs(usage: JobUsage, jobs: map<Key, Job>, tenants: set<string>, now: int) {
    && usage.queuedCpu == |QueuedKeys(jobs, tenants, false)|
    && usage.queuedCuda == |QueuedKeys(jobs, tenants, true)|
    && usage.runningCpu == |RunningKeys(jobs, tenants, false, now)|
    && usage.runningCuda == |RunningKeys(jobs, tenants, true, now)|
    && usage.submittedLastHour == |SubmittedKeys(jobs, tenants, now)|
    && IsOldestQueued(usage.oldestQueued, jobs, tenants, now)
  }

  ghost predicate IsUsageOfWorkers(usage: WorkerUsage, workers: map<Key, WorkerRecord>, tenants: set<string>,
                                   day: int, since: int)
  {
    && usage.observed == |SeenKeys(workers, tenants, day)|
    && usage.activeCpu == |OfferingKeys(workers, tenants, Cpu, since)|
    && usage.activeCuda == |OfferingKeys(workers, tenants, Cuda, since)|
    && usage.activeGpuDevices == |CudaDevices(workers, tenants, since)|
  }

  ghost predicate IsOldestQueued(age: nat, jobs: map<Key, Job>, tenants: set<string>, now: int) {
    && (forall key :: key in jobs && key.tenant in tenants && jobs[key].status == Queued ==>
        now - jobs[key].createdAt <= age)
    && (|| age == 0
        || exists key :: key in jobs && key.tenant in tenants && jobs[key].status == Queued
                         && age == now - jobs[key].createdAt)
  }

  /** What the job rollups say is what the job rows say. */
  lemma JobsFromBase(jobs: map<Key, Job>, tenants: set<string>, now: int)
    ensures IsUsageOfJobs(UsageOfJobs(Projection(jobs, OfJob), tenants, now), jobs, tenants, now)
  {
    QueuedFromBase(jobs, tenants);
    RunningFromBase(jobs, tenants, now);
    SubmittedFromBase(jobs, tenants, now);
    AgesFromBase(jobs, tenants, now);
  }

  lemma QueuedFromBase(jobs: map<Key, Job>, tenants: set<string>)
    ensures var rows := Projection(jobs, OfJob);
            && Count(rows, tenants, Waiting(Cpu)) == |QueuedKeys(jobs, tenants, false)|
            && Count(rows, tenants, Waiting(Cuda)) == |QueuedKeys(jobs, tenants, true)|
  {
    var rows := Projection(jobs, OfJob);
    assert Kept(rows, tenants, Waiting(Cpu)) == QueuedKeys(jobs, tenants, false);
    assert Kept(rows, tenants, Waiting(Cuda)) == QueuedKeys(jobs, tenants, true);
  }

  lemma RunningFromBase(jobs: map<Key, Job>, tenants: set<string>, now: int)
    ensures var rows := Projection(jobs, OfJob);
            && Count(rows, tenants, Unexpired(Cpu, now)) == |RunningKeys(jobs, tenants, false, now)|
            && Count(rows, tenants, Unexpired(Cuda, now)) == |RunningKeys(jobs, tenants, true, now)|
  {
    var rows := Projection(jobs, OfJob);
    assert Kept(rows, tenants, Unexpired(Cpu, now)) == RunningKeys(jobs, tenants, false, now);
    assert Kept(rows, tenants, Unexpired(Cuda, now)) == RunningKeys(jobs, tenants, true, now);
  }

  lemma SubmittedFromBase(jobs: map<Key, Job>, tenants: set<string>, now: int)
    ensures Count(Projection(jobs, OfJob), tenants, Recent(now)) == |SubmittedKeys(jobs, tenants, now)|
  {
    assert Kept(Projection(jobs, OfJob), tenants, Recent(now)) == SubmittedKeys(jobs, tenants, now);
  }

  lemma AgesFromBase(jobs: map<Key, Job>, tenants: set<string>, now: int)
    ensures IsOldestQueued(Oldest(Ages(Projection(jobs, OfJob), tenants, now)), jobs, tenants, now)
  {
    var rows := Projection(jobs, OfJob);
    OldestIsMax(Ages(rows, tenants, now));
    forall key | key in jobs && key.tenant in tenants && jobs[key].status == Queued
      ensures now - jobs[key].createdAt in Ages(rows, tenants, now)
    {
      assert rows[key] == OfJob(jobs[key]);
    }
  }

  /** What the worker rollups say is what the worker rows say. */
  lemma WorkersFromBase(workers: map<Key, WorkerRecord>, tenants: set<string>, day: int, since: int)
    ensures IsUsageOfWorkers(UsageOfWorkers(Projection(workers, OfWorker), tenants, day, since), workers, tenants,
                             day, since)
  {
    SeenFromBase(workers, tenants, day);
    ActiveFromBase(workers, tenants, since);
    DevicesFromBase(workers, tenants, since);
  }

  lemma SeenFromBase(workers: map<Key, WorkerRecord>, tenants: set<string>, since: int)
    ensures Count(Projection(workers, OfWorker), tenants, Seen(since)) == |SeenKeys(workers, tenants, since)|
  {
    assert Kept(Projection(workers, OfWorker), tenants, Seen(since)) == SeenKeys(workers, tenants, since);
  }

  lemma ActiveFromBase(workers: map<Key, WorkerRecord>, tenants: set<string>, since: int)
    ensures var rows := Projection(workers, OfWorker);
            && Count(rows, tenants, ActiveCpu(since)) == |OfferingKeys(workers, tenants, Cpu, since)|
            && Count(rows, tenants, ActiveCuda(since)) == |OfferingKeys(workers, tenants, Cuda, since)|
  {
    var rows := Projection(workers, OfWorker);
    assert Kept(rows, tenants, ActiveCpu(since)) == OfferingKeys(workers, tenants, Cpu, since);
    assert Kept(rows, tenants, ActiveCuda(since)) == OfferingKeys(workers, tenants, Cuda, since);
  }

  lemma DevicesFromBase(workers: map<Key, WorkerRecord>, tenants: set<string>, since: int)
    ensures Devices(Projection(workers, OfWorker), tenants, ActiveCuda(since)) == CudaDevices(workers, tenants, since)
  {
  }

  // ---- The report ----

  function StatusOf(tenants: map<string, TenantRecord>, tenant: string): (status: TenantStatus) {
    if tenant !in tenants then Unregistered else if tenants[tenant].suspended then Suspended else Active
  }

  function QuotaOf(quotas: map<string, Q.Quota>, tenant: string): (quota: Q.Quota) {
    if tenant in quotas then quotas[tenant] else Q.Unlimited
  }

  /** The ids of the query's tenant_ids. */
  function TenantIds<A, B>(tenants: map<string, TenantRecord>, jobs: map<Key, A>, workers: map<Key, B>)
    : (ids: set<string>)
  {
    tenants.Keys + (set key | key in jobs :: key.tenant) + (set key | key in workers :: key.tenant)
  }

  ghost predicate HasRows<A>(rows: map<Key, A>, tenant: string) {
    exists key :: key in rows && key.tenant == tenant
  }

  lemma TenantsWithRows<A, B>(tenants: map<string, TenantRecord>, jobs: map<Key, A>, workers: map<Key, B>)
    ensures forall tenant :: tenant in TenantIds(tenants, jobs, workers) <==>
              tenant in tenants || HasRows(jobs, tenant) || HasRows(workers, tenant)
  {
  }

  ghost predicate LineFor(line: TenantSummary, tables: FleetTables, tenants: map<string, TenantRecord>,
                          quotas: map<string, Q.Quota>, now: int, window: int)
    reads tables
  {
    && line.displayName == (if line.tenant in tenants then Some(tenants[line.tenant].displayName) else None)
    && (line.status == Unregistered <==> line.tenant !in tenants)
    && (line.status == Suspended <==> line.tenant in tenants && tenants[line.tenant].suspended)
    && (line.tenant in quotas ==> line.quota == quotas[line.tenant])
    && (line.tenant !in quotas ==> line.quota == Q.Quota(None, None, None, None))
    && FlagsAreLimits(line.saturation, line.quota, line.usage.jobs)
    && IsUsageOfJobs(line.usage.jobs, tables.jobs, {line.tenant}, now)
    && IsUsageOfWorkers(line.usage.workers, tables.workers, {line.tenant},
                        now - 86_400_000_000, now - window * 1_000_000)
  }

  /** Each flag is up exactly when there is a limit and the usage counted has reached it. */
  predicate FlagsAreLimits(flags: Saturation, quota: Q.Quota, usage: JobUsage) {
    && (flags.queuedJobs <==>
        quota.maxQueuedJobs.Some? && quota.maxQueuedJobs.value <= usage.queuedCpu + usage.queuedCuda)
    && (flags.jobsPerHour <==>
        quota.maxJobsPerHour.Some? && quota.maxJobsPerHour.value <= usage.submittedLastHour)
    && (flags.runningJobs <==>
        quota.maxRunningJobs.Some? && quota.maxRunningJobs.value <= usage.runningCpu + usage.runningCuda)
    && (flags.runningCudaJobs <==>
        quota.maxRunningCudaJobs.Some? && quota.maxRunningCudaJobs.value <= usage.runningCuda)
  }

  /** `_tenant_fleet_summary` of the query's row for the tenant. */
  method SummarizeTenant(tables: FleetTables, tenants: map<string, TenantRecord>, quotas: map<string, Q.Quota>,
                         tenant: string, now: int, window: int) returns (line: TenantSummary)
    requires tables.Valid()
    ensures line.tenant == tenant && LineFor(line, tables, tenants, quotas, now, window)
    ensures line.usage == Usage(tables.jobRollups, tables.workerRollups, {tenant}, now, window)
  {
    var usage := Usage(tables.jobRollups, tables.workerRollups, {tenant}, now, window);
    var quota := QuotaOf(quotas, tenant);
    UsageFromBase(tables.jobs, tables.workers, {tenant}, now, window);
    return TenantSummary(tenant, if tenant in tenants then Some(tenants[tenant].displayName) else None,
                         StatusOf(tenants, tenant), quota, Saturated(quota, usage.jobs), usage);
  }

  /** One line a tenant, each from its rows alone. */
  ghost predicate Lines(lines: seq<TenantSummary>, tables: FleetTables, tenants: map<string, TenantRecord>,
                        quotas: map<string, Q.Quota>, now: int, window: int)
    reads tables
  {
    && LinesFor(lines, tables.jobRollups, tables.workerRollups, now, window)
    && forall line :: line in lines ==> LineFor(line, tables, tenants, quotas, now, window)
  }

  lemma AddLine(lines: seq<TenantSummary>, line: TenantSummary, jobs: map<Key, JobRollup>,
                workers: map<Key, WorkerRollup>,
                now: int, window: int)
    requires LinesFor(lines, jobs, workers, now, window) && line.tenant !in Names(lines)
    requires line.usage == Usage(jobs, workers, {line.tenant}, now, window)
    ensures LinesFor(lines + [line], jobs, workers, now, window)
    ensures Names(lines + [line]) == Names(lines) + {line.tenant}
  {
    var longer := lines + [line];
    assert longer[..|longer| - 1] == lines;
    NamesNext(longer);
    forall i | 0 <= i < |lines|
      ensures lines[i].tenant != line.tenant
    {
      assert lines[i].tenant in Names(lines);
    }
  }

  method SummarizeTenants(tables: FleetTables, tenants: map<string, TenantRecord>, quotas: map<string, Q.Quota>,
                          ids: set<string>, now: int, window: int) returns (lines: seq<TenantSummary>)
    requires tables.Valid()
    ensures Names(lines) == ids && Lines(lines, tables, tenants, quotas, now, window)
  {
    var rest := ids;
    lines := [];
    while rest != {}
      invariant rest <= ids && Names(lines) == ids - rest
      invariant Lines(lines, tables, tenants, quotas, now, window)
      decreases |rest|
    {
      var tenant :| tenant in rest;
      TakeOne(ids, rest, tenant);
      lines := AppendSummary(tables, tenants, quotas, lines, tenant, now, window);
      rest := rest - {tenant};
    }
    assert ids - rest == ids;
  }

  lemma TakeOne<T>(all: set<T>, rest: set<T>, x: T)
    requires x in rest && rest <= all
    ensures (all - rest) + {x} == all - (rest - {x}) && x !in all - rest
    ensures |rest - {x}| < |rest|
  {
  }

  method AppendSummary(tables: FleetTables, tenants: map<string, TenantRecord>, quotas: map<string, Q.Quota>,
                       lines: seq<TenantSummary>, tenant: string, now: int, window: int)
    returns (longer: seq<TenantSummary>)
    requires tables.Valid() && Lines(lines, tables, tenants, quotas, now, window) && tenant !in Names(lines)
    ensures Names(longer) == Names(lines) + {tenant}
    ensures Lines(longer, tables, tenants, quotas, now, window)
  {
    var line := SummarizeTenant(tables, tenants, quotas, tenant, now, window);
    AddLine(lines, line, tables.jobRollups, tables.workerRollups, now, window);
    OneMoreLine(lines, line, tables, tenants, quotas, now, window);
    longer := lines + [line];
  }

  lemma OneMoreLine(lines: seq<TenantSummary>, line: TenantSummary, tables: FleetTables,
                    tenants: map<string, TenantRecord>, quotas: map<string, Q.Quota>, now: int, window: int)
    requires forall l :: l in lines ==> LineFor(l, tables, tenants, quotas, now, window)
    requires LineFor(line, tables, tenants, quotas, now, window)
    ensures forall l :: l in lines + [line] ==> LineFor(l, tables, tenants, quotas, now, window)
  {
    forall l | l in lines + [line]
      ensures LineFor(l, tables, tenants, quotas, now, window)
    {
      assert l in lines || l == line;
    }
  }

  /** The totals of a report over exactly the tenants that have rows or are registered. */
  ghost predicate TotalsFor(totals: Snapshot, tables: FleetTables, ids: set<string>, now: int, window: int)
    reads tables
  {
    && IsUsageOfJobs(totals.jobs, tables.jobs, ids, now)
    && IsUsageOfWorkers(totals.workers, tables.workers, ids, now - 86_400_000_000, now - window * 1_000_000)
    && (forall key :: key in tables.jobs ==> key.tenant in ids)
    && (forall key :: key in tables.workers ==> key.tenant in ids)
  }

  lemma TotalsFromBase(lines: seq<TenantSummary>, tables: FleetTables, tenants: map<string, TenantRecord>, now: int,
                       window: int)
    requires tables.Valid()
    requires LinesFor(lines, tables.jobRollups, tables.workerRollups, now, window)
    requires Names(lines) == TenantIds(tenants, tables.jobs, tables.workers)
    ensures TotalsFor(Totals(lines), tables, Names(lines), now, window)
  {
    TotalsAreFleetwide(lines, tables.jobRollups, tables.workerRollups, now, window);
    UsageFromBase(tables.jobs, tables.workers, Names(lines), now, window);
    EveryRowHasItsTenant(tables.jobs, tables.workers, tenants);
  }

  /** What the rollups say of some tenants is what their base rows say. */
  lemma UsageFromBase(jobs: map<Key, Job>, workers: map<Key, WorkerRecord>, tenants: set<string>, now: int, window: int)
    ensures var usage := Usage(Projection(jobs, OfJob), Projection(workers, OfWorker), tenants, now, window);
            && IsUsageOfJobs(usage.jobs, jobs, tenants, now)
            && IsUsageOfWorkers(usage.workers, workers, tenants, now - 86_400_000_000, now - window * 1_000_000)
  {
    JobsFromBase(jobs, tenants, now);
    WorkersFromBase(workers, tenants, DayBefore(now), Since(now, window));
    WindowStarts(now, window);
  }

  lemma WindowStarts(now: int, window: int)
    ensures DayBefore(now) == now - 86_400_000_000 && Since(now, window) == now - window * 1_000_000
  {
  }

  lemma EveryRowHasItsTenant(jobs: map<Key, Job>, workers: map<Key, WorkerRecord>, tenants: map<string, TenantRecord>)
    ensures forall key :: key in jobs ==> key.tenant in TenantIds(tenants, jobs, workers)
    ensures forall key :: key in workers ==> key.tenant in TenantIds(tenants, jobs, workers)
  {
  }

  /**
   `platform_fleet_report`: refused for a window out of range; else one line for each tenant that is
   registered or has rows, and totals that count every row once, all of them what the base tables say.
   */
  method FleetReport(tables: FleetTables, tenants: map<string, TenantRecord>, quotas: map<string, Q.Quota>, now: int,
                     window: int)
    returns (report: Option<Report>)
    requires tables.Valid()
    ensures report.Some? <==> 30 <= window <= 3600
    ensures report.Some? ==>
              && report.value.observedAt == now && report.value.window == window
              && (forall tenant :: tenant in Names(report.value.tenants) <==>
                    tenant in tenants || HasRows(tables.jobs, tenant) || HasRows(tables.workers, tenant))
              && Lines(report.value.tenants, tables, tenants, quotas, now, window)
              && TotalsFor(report.value.totals, tables, Names(report.value.tenants), now, window)
  {
    if window < 30 || window > 3600 {
      return None;
    }
    var ids := TenantIds(tenants, tables.jobRollups, tables.workerRollups);
    TenantsWithRows(tenants, tables.jobs, tables.workers);
    assert ids == TenantIds(tenants, tables.jobs, tables.workers);
    var lines := SummarizeTenants(tables, tenants, quotas, ids, now, window);
    TotalsFromBase(lines, tables, tenants, now, window);
    return Some(Report(now, window, Totals(lines), lines));
  }
}
