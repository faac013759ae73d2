/** The placement diagnostics of placement.py, and their agreement with the claim query. */
module Placement {
  import opened Wrappers
  import opened FiniteSets
  import opened Models
  import LeaseSql

  const DEFAULT_WORKER_ACTIVE_SECONDS := 120
  const MICROSECONDS := 1_000_000

  /** Why a worker cannot take a job; the text of the source is kept as its data. */
  datatype Reason =
    | StaleHeartbeat
    | MissingAccelerator(accelerator: Accelerator)
    | LabelMismatch(key: string, required: string, actual: Option<string>)
    | NoGpuTelemetry
    | GpuMemory(minimum: nat, maximumFound: nat)
    | ComputeUnavailable
    | Compute(minimumCapability: real, highestFound: real)
    | FreeMemoryUnavailable
    | FreeMemory(minimumFree: nat, mostFound: nat)
    | UtilizationUnavailable
    | Utilization(maximumPercent: real, lowestFound: real)
    | MigUnavailable
    | MigMismatch(profile: string)
    | NoSingleGpu(loadConstrained: bool)

  datatype WorkerDiagnostic = WorkerDiagnostic(workerId: WorkerId, active: bool, eligible: bool, reasons: seq<Reason>)

  datatype Blocker = NotQueued(status: JobStatus) | NoWorkers | NoActiveWorker | NoMatchingWorker

  datatype JobDiagnostic = JobDiagnostic(
    schedulable: bool, activeWorkers: nat, matchingWorkers: nat, blockers: seq<Blocker>, workers: seq<WorkerDiagnostic>)

  // ---- One device against one clause ----

  predicate MemoryOk(job: Requirements, gpu: GpuDevice) {
    gpu.memoryTotal >= job.minimumGpuMemory
  }

  predicate ComputeOk(job: Requirements, gpu: GpuDevice) {
    job.minimumComputeCapability.Some? ==>
      gpu.computeCapability.Some? && gpu.computeCapability.value >= job.minimumComputeCapability.value
  }

  function FreeMemoryOf(gpu: GpuDevice): nat
    requires gpu.memoryUsed.Some?
  {
    if gpu.memoryTotal > gpu.memoryUsed.value then gpu.memoryTotal - gpu.memoryUsed.value else 0
  }

  predicate FreeMemoryOk(job: Requirements, gpu: GpuDevice) {
    job.minimumGpuMemoryAvailable > 0 ==>
      gpu.memoryUsed.Some? && FreeMemoryOf(gpu) >= job.minimumGpuMemoryAvailable
  }

  predicate UtilizationOk(job: Requirements, gpu: GpuDevice) {
    job.maximumGpuUtilization.Some? ==>
      gpu.utilization.Some? && gpu.utilization.value <= job.maximumGpuUtilization.value
  }

  predicate MigOk(job: Requirements, gpu: GpuDevice) {
    job.migProfile.Some? ==> gpu.migProfile == job.migProfile
  }

  /** `_gpu_matches`, in the order of its early returns. */
  predicate GpuMatches(job: Requirements, gpu: GpuDevice) {
    if job.migProfile.Some? && gpu.migProfile != job.migProfile then false
    else if gpu.memoryTotal < job.minimumGpuMemory then false
    else if job.minimumComputeCapability.Some? && gpu.computeCapability.None? then false
    else if
      job.minimumComputeCapability.Some? && gpu.computeCapability.value < job.minimumComputeCapability.value then false
    else if job.minimumGpuMemoryAvailable > 0 && gpu.memoryUsed.None? then false
    else if job.minimumGpuMemoryAvailable > 0 && FreeMemoryOf(gpu) < job.minimumGpuMemoryAvailable then false
    else !(job.maximumGpuUtilization.Some?
           && (gpu.utilization.None? || gpu.utilization.value > job.maximumGpuUtilization.value))
  }

  predicate LoadConstrained(job: Requirements) {
    job.minimumGpuMemoryAvailable > 0 || job.maximumGpuUtilization.Some?
  }

  predicate GpuUnconstrained(job: Requirements) {
    && job.minimumGpuMemory == 0
    && job.minimumComputeCapability.None?
    && !LoadConstrained(job)
    && job.migProfile.None?
  }

  /** NULL telemetry fails closed in both worlds: the Python predicate is the SQL row condition. */
  lemma GpuMatchesIsSqlRow(job: Requirements, gpu: GpuDevice)
    ensures GpuMatches(job, gpu) <==> LeaseSql.GpuRow(job, gpu) == LeaseSql.True
    ensures GpuMatches(job, gpu) <==> MemoryOk(job, gpu) && ComputeOk(job, gpu) && FreeMemoryOk(job, gpu)
                                      && UtilizationOk(job, gpu) && MigOk(job, gpu)
  {
  }

  /** One single device meets every GPU constraint, or there is none to meet. */
  ghost predicate GpusSuffice(job: Requirements, gpus: seq<GpuDevice>) {
    GpuUnconstrained(job) || exists gpu :: gpu in gpus && GpuMatches(job, gpu)
  }

  /** The reason names a clause that every device fails, and quotes the best value any device reports. */
  ghost predicate Truthful(reason: Reason, job: Requirements, gpus: seq<GpuDevice>) {
    match reason
    case NoGpuTelemetry => gpus == []
    case GpuMemory(minimum, best) =>
      && minimum == job.minimumGpuMemory && (exists g :: g in gpus && g.memoryTotal == best)
      && forall g :: g in gpus ==> g.memoryTotal <= best < minimum
    case ComputeUnavailable => forall g :: g in gpus ==> g.computeCapability.None?
    case Compute(minimum, best) =>
      && job.minimumComputeCapability == Some(minimum) && (exists g :: g in gpus && g.computeCapability == Some(best))
      && forall g :: g in gpus && g.computeCapability.Some? ==> g.computeCapability.value <= best < minimum
    case FreeMemoryUnavailable => forall g :: g in gpus ==> g.memoryUsed.None?
    case FreeMemory(minimum, best) =>
      && minimum == job.minimumGpuMemoryAvailable
      && (exists g :: g in gpus && g.memoryUsed.Some? && FreeMemoryOf(g) == best)
      && forall g :: g in gpus && g.memoryUsed.Some? ==> FreeMemoryOf(g) <= best < minimum
    case UtilizationUnavailable => forall g :: g in gpus ==> g.utilization.None?
    case Utilization(maximum, best) =>
      && job.maximumGpuUtilization == Some(maximum) && (exists g :: g in gpus && g.utilization == Some(best))
      && forall g :: g in gpus && g.utilization.Some? ==> g.utilization.value >= best > maximum
    case MigUnavailable => forall g :: g in gpus ==> g.migProfile.None?
    case MigMismatch(profile) =>
      && job.migProfile == Some(profile) && (exists g :: g in gpus && g.migProfile.Some?)
      && forall g :: g in gpus ==> g.migProfile != Some(profile)
    case NoSingleGpu(load) =>
      && load == LoadConstrained(job)
      && (exists g :: g in gpus && MemoryOk(job, g)) && (exists g :: g in gpus && ComputeOk(job, g))
      && (exists g :: g in gpus && FreeMemoryOk(job, g)) && (exists g :: g in gpus && UtilizationOk(job, g))
      && (exists g :: g in gpus && MigOk(job, g))
    case _ => false
  }

  /** The GPU clauses of a job, and which of them a reason is about. */
  datatype Clause = MemoryClause | ComputeClause | FreeMemoryClause | UtilizationClause | MigClause

  predicate Meets(clause: Clause, job: Requirements, gpu: GpuDevice) {
    match clause
    case MemoryClause => MemoryOk(job, gpu)
    case ComputeClause => ComputeOk(job, gpu)
    case FreeMemoryClause => FreeMemoryOk(job, gpu)
    case UtilizationClause => UtilizationOk(job, gpu)
    case MigClause => MigOk(job, gpu)
  }

  function ClauseOf(reason: Reason): (clause: Option<Clause>) {
    match reason
    case GpuMemory(_, _) => Some(MemoryClause)
    case ComputeUnavailable => Some(ComputeClause)
    case Compute(_, _) => Some(ComputeClause)
    case FreeMemoryUnavailable => Some(FreeMemoryClause)
    case FreeMemory(_, _) => Some(FreeMemoryClause)
    case UtilizationUnavailable => Some(UtilizationClause)
    case Utilization(_, _) => Some(UtilizationClause)
    case MigUnavailable => Some(MigClause)
    case MigMismatch(_) => Some(MigClause)
    case _ => None
  }

  ghost predicate NoneMeets(clause: Clause, job: Requirements, gpus: seq<GpuDevice>) {
    forall g :: g in gpus ==> !Meets(clause, job, g)
  }

  ghost predicate Mentions(reasons: seq<Reason>, clause: Clause) {
    exists r :: r in reasons && ClauseOf(r) == Some(clause)
  }

  /** The list mentions a clause exactly when no device meets it. */
  ghost predicate Complete(reasons: seq<Reason>, job: Requirements, gpus: seq<GpuDevice>) {
    forall clause :: Mentions(reasons, clause) <==> NoneMeets(clause, job, gpus)
  }

  // ---- `_gpu_reasons` ----

  /** Python's `max` of a non-empty list. */
  function Max(values: seq<real>): (m: real)
    requires values != []
    ensures m in values && forall v :: v in values ==> v <= m
  {
    if |values| == 1 then values[0]
    else
      var rest := Max(values[1..]);
      assert values == [values[0]] + values[1..];
      if values[0] > rest then values[0] else rest
  }

  function Min(values: seq<real>): (m: real)
    requires values != []
    ensures m in values && forall v :: v in values ==> m <= v
  {
    if |values| == 1 then values[0]
    else
      var rest := Min(values[1..]);
      assert values == [values[0]] + values[1..];
      if values[0] < rest then values[0] else rest
  }

  function MaxNat(values: seq<nat>): (m: nat)
    requires values != []
    ensures m in values && forall v :: v in values ==> v <= m
  {
    if |values| == 1 then values[0]
    else
      var rest := MaxNat(values[1..]);
      assert values == [values[0]] + values[1..];
      if values[0] > rest then values[0] else rest
  }

  function MemoryTotals(gpus: seq<GpuDevice>): (values: seq<nat>)
    ensures |values| == |gpus|
    ensures forall v: nat :: v in values <==> exists g :: g in gpus && g.memoryTotal == v
  {
    if gpus == [] then []
    else
      assert gpus == [gpus[0]] + gpus[1..];
      [gpus[0].memoryTotal] + MemoryTotals(gpus[1..])
  }

  function FreeMemoryValues(gpus: seq<GpuDevice>): (values: seq<nat>)
    ensures forall v: nat :: v in values <==> exists g :: g in gpus && g.memoryUsed.Some? && FreeMemoryOf(g) == v
  {
    if gpus == [] then []
    else
      assert gpus == [gpus[0]] + gpus[1..];
      (if gpus[0].memoryUsed.Some? then [FreeMemoryOf(gpus[0])] else []) + FreeMemoryValues(gpus[1..])
  }

  function UtilizationValues(gpus: seq<GpuDevice>): (values: seq<real>)
    ensures forall v :: v in values <==> exists g :: g in gpus && g.utilization == Some(v)
  {
    if gpus == [] then []
    else
      assert gpus == [gpus[0]] + gpus[1..];
      (if gpus[0].utilization.Some? then [gpus[0].utilization.value] else []) + UtilizationValues(gpus[1..])
  }

  function MigProfiles(gpus: seq<GpuDevice>): (profiles: set<string>)
    ensures forall p :: p in profiles <==> exists g :: g in gpus && g.migProfile == Some(p)
  {
    set g | g in gpus && g.migProfile.Some? :: g.migProfile.value
  }

  ghost predicate Reports(gpus: seq<GpuDevice>, capability: real) {
    exists g :: g in gpus && g.computeCapability == Some(capability)
  }

  method ComputeValues(gpus: seq<GpuDevice>) returns (values: seq<real>)
    ensures forall v :: v in values <==> Reports(gpus, v)
  {
    values := [];
    for i := 0 to |gpus|
      invariant forall v :: v in values <==> Reports(gpus[..i], v)
    {
      assert gpus[..i + 1] == gpus[..i] + [gpus[i]];
      if gpus[i].computeCapability.None? {
        continue;
      }
      values := values + [gpus[i].computeCapability.value];
    }
    assert gpus[..|gpus|] == gpus;
  }

  /** At most one reason, true and about the clause; none exactly when some device meets it. */
  ghost predicate Covers(reasons: seq<Reason>, clause: Clause, job: Requirements, gpus: seq<GpuDevice>) {
    && |reasons| <= 1
    && (forall r :: r in reasons ==> Truthful(r, job, gpus) && ClauseOf(r) == Some(clause))
    && (reasons != [] <==> NoneMeets(clause, job, gpus))
  }

  function MemoryReasons(job: Requirements, gpus: seq<GpuDevice>): (reasons: seq<Reason>)
    requires gpus != []
    ensures Covers(reasons, MemoryClause, job, gpus)
  {
    var best := MaxNat(MemoryTotals(gpus));
    assert forall g :: g in gpus ==> g.memoryTotal in MemoryTotals(gpus);
    if best < job.minimumGpuMemory then [GpuMemory(job.minimumGpuMemory, best)] else []
  }

  function ComputeReasons(job: Requirements, gpus: seq<GpuDevice>, values: seq<real>): (reasons: seq<Reason>)
    requires gpus != [] && forall v :: v in values <==> Reports(gpus, v)
    ensures Covers(reasons, ComputeClause, job, gpus)
  {
    assert gpus[0] in gpus;
    assert forall g :: g in gpus && g.computeCapability.Some? ==> g.computeCapability.value in values by {
      forall g | g in gpus && g.computeCapability.Some?
        ensures g.computeCapability.value in values
      {
        assert Reports(gpus, g.computeCapability.value);
      }
    }
    assert values != [] ==> Reports(gpus, Max(values));
    if job.minimumComputeCapability.None? then []
    else if values == [] then [ComputeUnavailable]
    else if Max(values) < job.minimumComputeCapability.value
    then [Compute(job.minimumComputeCapability.value, Max(values))]
    else []
  }

  function FreeMemoryReasons(job: Requirements, gpus: seq<GpuDevice>): (reasons: seq<Reason>)
    requires gpus != []
    ensures Covers(reasons, FreeMemoryClause, job, gpus)
  {
    assert gpus[0] in gpus;
    var values := FreeMemoryValues(gpus);
    assert forall g :: g in gpus && g.memoryUsed.Some? ==> FreeMemoryOf(g) in values;
    if job.minimumGpuMemoryAvailable == 0 then []
    else if values == [] then [FreeMemoryUnavailable]
    else if MaxNat(values) < job.minimumGpuMemoryAvailable
    then [FreeMemory(job.minimumGpuMemoryAvailable, MaxNat(values))]
    else []
  }

  function UtilizationReasons(job: Requirements, gpus: seq<GpuDevice>): (reasons: seq<Reason>)
    requires gpus != []
    ensures Covers(reasons, UtilizationClause, job, gpus)
  {
    assert gpus[0] in gpus;
    var values := UtilizationValues(gpus);
    assert forall g :: g in gpus && g.utilization.Some? ==> g.utilization.value in values;
    if job.maximumGpuUtilization.None? then []
    else if values == [] then [UtilizationUnavailable]
    else if Min(values) > job.maximumGpuUtilization.value
    then [Utilization(job.maximumGpuUtilization.value, Min(values))]
    else []
  }

  function MigReasons(job: Requirements, gpus: seq<GpuDevice>): (reasons: seq<Reason>)
    requires gpus != []
    ensures Covers(reasons, MigClause, job, gpus)
  {
    assert gpus[0] in gpus;
    var profiles := MigProfiles(gpus);
    assert forall g :: g in gpus && g.migProfile.Some? ==> g.migProfile.value in profiles;
    if job.migProfile.None? then []
    else if profiles == {} then [MigUnavailable]
    else if job.migProfile.value !in profiles then [MigMismatch(job.migProfile.value)]
    else []
  }

  /**
   The GPU reasons: none exactly when the GPU part of the claim query admits the worker; otherwise
   they are true of the devices, and they name every clause that no device meets.
   */
  method GpuReasons(job: Requirements, gpus: seq<GpuDevice>) returns (reasons: seq<Reason>)
    ensures reasons == [] <==> GpusSuffice(job, gpus)
    ensures forall r :: r in reasons ==> Truthful(r, job, gpus)
    ensures reasons != [] && gpus != [] ==> Complete(reasons, job, gpus)
  {
    if GpuUnconstrained(job) {
      return [];
    }
    if gpus == [] {
      return [NoGpuTelemetry];
    }
    if exists gpu :: gpu in gpus && GpuMatches(job, gpu) {
      return [];
    }
    var memory := MemoryReasons(job, gpus);
    var values := ComputeValues(gpus);
    var compute := ComputeReasons(job, gpus, values);
    var free := FreeMemoryReasons(job, gpus);
    var utilization := UtilizationReasons(job, gpus);
    var mig := MigReasons(job, gpus);
    reasons := memory + compute + free + utilization + mig;
    ReasonsComplete(job, gpus, memory, compute, free, utilization, mig);
    if reasons == [] {
      NoneAlone(job, gpus);
      reasons := [NoSingleGpu(LoadConstrained(job))];
    }
  }

  /** Where each clause is met by some device, only their combination is missing. */
  lemma NoneAlone(job: Requirements, gpus: seq<GpuDevice>)
    requires Complete([], job, gpus)
    ensures var reasons := [NoSingleGpu(LoadConstrained(job))];
            Truthful(reasons[0], job, gpus) && Complete(reasons, job, gpus)
  {
    forall clause
      ensures !NoneMeets(clause, job, gpus)
    {
      assert !Mentions([], clause);
    }
    assert !NoneMeets(MemoryClause, job, gpus) && !NoneMeets(ComputeClause, job, gpus);
    assert !NoneMeets(FreeMemoryClause, job, gpus) && !NoneMeets(UtilizationClause, job, gpus);
    assert !NoneMeets(MigClause, job, gpus);
  }

  lemma ReasonsComplete(job: Requirements, gpus: seq<GpuDevice>, memory: seq<Reason>, compute: seq<Reason>,
                        free: seq<Reason>, utilization: seq<Reason>, mig: seq<Reason>)
    requires Covers(memory, MemoryClause, job, gpus) && Covers(compute, ComputeClause, job, gpus)
    requires Covers(free, FreeMemoryClause, job, gpus) && Covers(utilization, UtilizationClause, job, gpus)
    requires Covers(mig, MigClause, job, gpus)
    ensures Complete(memory + compute + free + utilization + mig, job, gpus)
    ensures forall r :: r in memory + compute + free + utilization + mig ==> Truthful(r, job, gpus)
  {
    var all := memory + compute + free + utilization + mig;
    assert forall r :: r in all <==> r in memory || r in compute || r in free || r in utilization || r in mig;
    MentionsOwn(memory, MemoryClause, job, gpus);
    MentionsOwn(compute, ComputeClause, job, gpus);
    MentionsOwn(free, FreeMemoryClause, job, gpus);
    MentionsOwn(utilization, UtilizationClause, job, gpus);
    MentionsOwn(mig, MigClause, job, gpus);
    forall clause
      ensures Mentions(all, clause) <==> NoneMeets(clause, job, gpus)
    {
      match clause
      case MemoryClause => assert Mentions(all, clause) <==> Mentions(memory, clause);
      case ComputeClause => assert Mentions(all, clause) <==> Mentions(compute, clause);
      case FreeMemoryClause => assert Mentions(all, clause) <==> Mentions(free, clause);
      case UtilizationClause => assert Mentions(all, clause) <==> Mentions(utilization, clause);
      case MigClause => assert Mentions(all, clause) <==> Mentions(mig, clause);
    }
  }

  lemma MentionsOwn(part: seq<Reason>, own: Clause, job: Requirements, gpus: seq<GpuDevice>)
    requires Covers(part, own, job, gpus)
    ensures forall clause :: Mentions(part, clause) <==> clause == own && NoneMeets(own, job, gpus)
  {
    if part != [] {
      assert part[0] in part;
    }
  }

  lemma GpusSufficeIsSql(job: Requirements, gpus: seq<GpuDevice>)
    ensures GpusSuffice(job, gpus) <==>
            (|| LeaseSql.NoGpuConstraint(job) == LeaseSql.True
             || exists gpu :: gpu in gpus && LeaseSql.GpuRow(job, gpu) == LeaseSql.True)
  {
    forall gpu | gpu in gpus
      ensures GpuMatches(job, gpu) <==> LeaseSql.GpuRow(job, gpu) == LeaseSql.True
    {
      GpuMatchesIsSqlRow(job, gpu);
    }
  }

  // ---- `_diagnose_worker` and `diagnose_placement` ----

  method LabelReasons(required: map<string, string>, labels: map<string, string>) returns (reasons: seq<Reason>)
    ensures reasons == [] <==> LeaseSql.Contains(labels, required)
    ensures forall r :: r in reasons ==> r.LabelMismatch?
    ensures forall key, value, actual :: LabelMismatch(key, value, actual) in reasons <==>
              IsMismatch(required, labels, key, value, actual)
  {
    reasons := [];
    var keys := required.Keys;
    while keys != {}
      invariant keys <= required.Keys
      invariant reasons == [] <==> forall key :: key in required && key !in keys ==>
                key in labels && labels[key] == required[key]
      invariant forall r :: r in reasons ==> r.LabelMismatch?
      invariant forall key, value, actual :: LabelMismatch(key, value, actual) in reasons <==>
                  key !in keys && IsMismatch(required, labels, key, value, actual)
      decreases |keys|
    {
      var key :| key in keys;
      keys := keys - {key};
      var actual := if key in labels then Some(labels[key]) else None;
      if actual != Some(required[key]) {
        reasons := reasons + [LabelMismatch(key, required[key], actual)];
      }
    }
  }

  /** Reasons about the devices of a worker. */
  predicate IsGpuReason(r: Reason) {
    !r.StaleHeartbeat? && !r.MissingAccelerator? && !r.LabelMismatch?
  }

  /** What a list of reasons says of the devices: something exactly if they do not suffice, and then what is so. */
  ghost predicate ExplainsGpus(reasons: seq<Reason>, job: Requirements, gpus: seq<GpuDevice>) {
    && ((exists r :: r in reasons && IsGpuReason(r)) <==> !GpusSuffice(job, gpus))
    && (forall r :: r in reasons && IsGpuReason(r) ==> Truthful(r, job, gpus))
    && (!GpusSuffice(job, gpus) && gpus != [] ==> Complete(reasons, job, gpus))
  }

  /** Each reason that is given is so, and each that is so is given. */
  ghost predicate Explains(reasons: seq<Reason>, job: Requirements, worker: WorkerRecord, active: bool) {
    var c := worker.capabilities;
    && (StaleHeartbeat in reasons <==> !active)
    && (forall a :: MissingAccelerator(a) in reasons <==> a == job.accelerator && a !in c.accelerators)
    && (forall key, value, actual :: LabelMismatch(key, value, actual) in reasons <==>
          IsMismatch(job.labels, c.labels, key, value, actual))
    && ExplainsGpus(reasons, job, c.gpus)
  }

  predicate IsMismatch(required: map<string, string>, labels: map<string, string>, key: string, value: string,
                       actual: Option<string>)
  {
    && key in required && required[key] == value
    && actual == (if key in labels then Some(labels[key]) else None) && actual != Some(value)
  }

  /** Reasons about other things than devices leave what is said of the devices as it is. */
  lemma ExplainsGpusWith(others: seq<Reason>, reasons: seq<Reason>, job: Requirements, gpus: seq<GpuDevice>)
    requires forall r :: r in others ==> !IsGpuReason(r)
    requires reasons == [] <==> GpusSuffice(job, gpus)
    requires forall r :: r in reasons ==> Truthful(r, job, gpus)
    requires reasons != [] && gpus != [] ==> Complete(reasons, job, gpus)
    ensures ExplainsGpus(others + reasons, job, gpus)
  {
    var all := others + reasons;
    InBoth(others, reasons);
    assert forall r :: r in reasons ==> IsGpuReason(r);
    if reasons != [] {
      assert reasons[0] in reasons;
    }
    forall clause
      ensures Mentions(all, clause) <==> Mentions(reasons, clause)
    {
      MentionsWith(others, reasons, clause);
    }
  }

  lemma InBoth(a: seq<Reason>, b: seq<Reason>)
    ensures forall r :: r in a + b <==> r in a || r in b
  {
  }

  lemma MentionsWith(others: seq<Reason>, reasons: seq<Reason>, clause: Clause)
    requires forall r :: r in others ==> !IsGpuReason(r)
    ensures Mentions(others + reasons, clause) <==> Mentions(reasons, clause)
  {
    InBoth(others, reasons);
    if r :| r in others + reasons && ClauseOf(r) == Some(clause) {
      assert IsGpuReason(r) && r in reasons;
    }
  }

  /** Why the worker itself cannot serve, apart from labels and devices. */
  ghost predicate OwnReasons(own: seq<Reason>, job: Requirements, worker: WorkerRecord, active: bool) {
    && (forall r :: r in own ==> r == StaleHeartbeat || r == MissingAccelerator(job.accelerator))
    && (StaleHeartbeat in own <==> !active)
    && (MissingAccelerator(job.accelerator) in own <==> job.accelerator !in worker.capabilities.accelerators)
  }

  lemma ExplainsWorker(own: seq<Reason>, labels: seq<Reason>, gpus: seq<Reason>, job: Requirements,
                       worker: WorkerRecord, active: bool)
    requires OwnReasons(own, job, worker, active)
    requires forall r :: r in labels ==> r.LabelMismatch?
    requires forall key, value, actual :: LabelMismatch(key, value, actual) in labels <==>
               IsMismatch(job.labels, worker.capabilities.labels, key, value, actual)
    requires gpus == [] <==> GpusSuffice(job, worker.capabilities.gpus)
    requires forall r :: r in gpus ==> Truthful(r, job, worker.capabilities.gpus)
    requires gpus != [] && worker.capabilities.gpus != [] ==> Complete(gpus, job, worker.capabilities.gpus)
    ensures Explains(own + labels + gpus, job, worker, active)
  {
    ExplainsGpusWith(own + labels, gpus, job, worker.capabilities.gpus);
    InThree(own, labels, gpus);
    assert forall r :: r in gpus ==> IsGpuReason(r);
  }

  lemma InThree(a: seq<Reason>, b: seq<Reason>, c: seq<Reason>)
    ensures forall r :: r in a + b + c <==> r in a || r in b || r in c
  {
  }

  /**
   A worker is eligible exactly when it is active and the claim query's worker clauses admit it, and
   otherwise it is given every reason that applies and no other.
   */
  method DiagnoseWorker(job: Requirements, worker: WorkerRecord, active: bool) returns (d: WorkerDiagnostic)
    ensures d.workerId == worker.workerId && d.active == active
    ensures d.eligible <==> active && LeaseSql.Admits(job, worker.capabilities)
    ensures d.eligible <==> d.reasons == []
    ensures Explains(d.reasons, job, worker, active)
  {
    var reasons: seq<Reason> := [];
    if !active {
      reasons := reasons + [StaleHeartbeat];
    }
    if job.accelerator !in worker.capabilities.accelerators {
      reasons := reasons + [MissingAccelerator(job.accelerator)];
    }
    var labels := LabelReasons(job.labels, worker.capabilities.labels);
    var gpus := GpuReasons(job, worker.capabilities.gpus);
    GpusSufficeIsSql(job, worker.capabilities.gpus);
    ExplainsWorker(reasons, labels, gpus, job, worker, active);
    reasons := reasons + labels + gpus;
    d := WorkerDiagnostic(worker.workerId, active, reasons == [], reasons);
  }

  predicate IsActive(worker: WorkerRecord, observedAt: int, activeWithinSeconds: int) {
    worker.lastSeenAt >= observedAt - activeWithinSeconds * MICROSECONDS
  }

  predicate CanTake(job: Requirements, worker: WorkerRecord, observedAt: int, activeWithinSeconds: int) {
    IsActive(worker, observedAt, activeWithinSeconds) && LeaseSql.Admits(job, worker.capabilities)
  }

  function CountActive(ds: seq<WorkerDiagnostic>): (n: nat) {
    if ds == [] then 0 else CountActive(ds[..|ds| - 1]) + if ds[|ds| - 1].active then 1 else 0
  }

  function CountEligible(ds: seq<WorkerDiagnostic>): (n: nat) {
    if ds == [] then 0 else CountEligible(ds[..|ds| - 1]) + if ds[|ds| - 1].eligible then 1 else 0
  }

  /** The positions of the active workers, and of those that can take the job. */
  ghost function Active(workers: seq<WorkerRecord>, observedAt: int, window: int): (indices: set<int>)
    ensures forall i :: i in indices <==> 0 <= i < |workers| && IsActive(workers[i], observedAt, window)
  {
    if workers == [] then {}
    else
      var n := |workers| - 1;
      Active(workers[..n], observedAt, window) + if IsActive(workers[n], observedAt, window) then {n} else {}
  }

  ghost function Takers(job: Requirements, workers: seq<WorkerRecord>, observedAt: int, window: int)
    : (indices: set<int>)
    ensures forall i :: i in indices <==> 0 <= i < |workers| && CanTake(job, workers[i], observedAt, window)
  {
    if workers == [] then {}
    else
      var n := |workers| - 1;
      Takers(job, workers[..n], observedAt, window) + if CanTake(job, workers[n], observedAt, window) then {n} else {}
  }

  /** What a diagnostic says of its worker. */
  ghost predicate Diagnoses(d: WorkerDiagnostic, job: Requirements, worker: WorkerRecord, observedAt: int,
                            window: int)
  {
    && d.workerId == worker.workerId
    && d.active == IsActive(worker, observedAt, window) && d.eligible == CanTake(job, worker, observedAt, window)
    && (d.active <==> observedAt - worker.lastSeenAt <= window * 1_000_000)
    && (d.eligible <==> d.reasons == []) && Explains(d.reasons, job, worker, d.active)
  }

  ghost predicate DiagnosesAll(ds: seq<WorkerDiagnostic>, job: Requirements, workers: seq<WorkerRecord>,
                               observedAt: int, window: int)
  {
    |ds| == |workers| && forall i :: 0 <= i < |workers| ==> Diagnoses(ds[i], job, workers[i], observedAt, window)
  }

  lemma {:induction false} CountsAreCards(ds: seq<WorkerDiagnostic>, job: Requirements, workers: seq<WorkerRecord>,
                                          observedAt: int, window: int)
    requires DiagnosesAll(ds, job, workers, observedAt, window)
    ensures CountActive(ds) == |Active(workers, observedAt, window)|
    ensures CountEligible(ds) == |Takers(job, workers, observedAt, window)|
  {
    if ds != [] {
      var n := |ds| - 1;
      CountsAreCards(ds[..n], job, workers[..n], observedAt, window);
      assert Diagnoses(ds[n], job, workers[n], observedAt, window);
    }
  }

  /** The blockers of a job: what keeps it from any worker, each exactly if it does. */
  ghost predicate Blocks(blockers: seq<Blocker>, status: JobStatus, workers: seq<WorkerRecord>, active: nat,
                         takers: nat)
  {
    && (forall other :: NotQueued(other) in blockers <==> other == status && status != Queued)
    && (NoWorkers in blockers <==> workers == [])
    && (NoActiveWorker in blockers <==> workers != [] && active == 0)
    && (NoMatchingWorker in blockers <==> active > 0 && takers == 0)
  }

  /**
   One diagnostic per worker, in order, with the reasons that apply; the numbers of active and of
   matching workers; and the blockers. The job is schedulable exactly when it is queued and some
   worker can take it.
   */
  method DiagnosePlacement(status: JobStatus, job: Requirements, workers: seq<WorkerRecord>, observedAt: int,
                           activeWithinSeconds: int)
    returns (result: Option<JobDiagnostic>)
    ensures result.None? <==> activeWithinSeconds <= 0
    ensures result.Some? ==>
              var d := result.value;
              && DiagnosesAll(d.workers, job, workers, observedAt, activeWithinSeconds)
              && d.activeWorkers == |Active(workers, observedAt, activeWithinSeconds)|
              && d.matchingWorkers == |Takers(job, workers, observedAt, activeWithinSeconds)|
              && (d.schedulable <==>
                  status == Queued && exists w :: w in workers && CanTake(job, w, observedAt, activeWithinSeconds))
              && (d.schedulable <==> d.blockers == [])
              && Blocks(d.blockers, status, workers, d.activeWorkers, d.matchingWorkers)
  {
    if activeWithinSeconds <= 0 {
      return None;
    }
    var diagnostics: seq<WorkerDiagnostic> := [];
    for i := 0 to |workers|
      invariant DiagnosesAll(diagnostics, job, workers[..i], observedAt, activeWithinSeconds)
    {
      var d := DiagnoseWorker(job, workers[i], IsActive(workers[i], observedAt, activeWithinSeconds));
      DiagnosesNext(diagnostics, d, job, workers, i, observedAt, activeWithinSeconds);
      diagnostics := diagnostics + [d];
    }
    assert workers[..|workers|] == workers;
    CountsAreCards(diagnostics, job, workers, observedAt, activeWithinSeconds);
    SomeTaker(job, workers, observedAt, activeWithinSeconds);
    var activeWorkers := CountActive(diagnostics);
    var matchingWorkers := CountEligible(diagnostics);
    var blockers := BlockersOf(status, workers, activeWorkers, matchingWorkers);
    var schedulable := status == Queued && matchingWorkers > 0;
    result := Some(JobDiagnostic(schedulable, activeWorkers, matchingWorkers, blockers, diagnostics));
  }

  lemma DiagnosesNext(ds: seq<WorkerDiagnostic>, d: WorkerDiagnostic, job: Requirements, workers: seq<WorkerRecord>,
                      i: nat, observedAt: int, window: int)
    requires i < |workers| && DiagnosesAll(ds, job, workers[..i], observedAt, window)
    requires Diagnoses(d, job, workers[i], observedAt, window)
    ensures DiagnosesAll(ds + [d], job, workers[..i + 1], observedAt, window)
  {
  }

  method BlockersOf(status: JobStatus, workers: seq<WorkerRecord>, active: nat, takers: nat)
    returns (blockers: seq<Blocker>)
    requires takers <= active && (workers == [] ==> active == 0)
    ensures Blocks(blockers, status, workers, active, takers)
    ensures blockers == [] <==> status == Queued && takers > 0
  {
    blockers := [];
    if status != Queued {
      blockers := blockers + [NotQueued(status)];
    }
    if workers == [] {
      blockers := blockers + [NoWorkers];
    } else if active == 0 {
      blockers := blockers + [NoActiveWorker];
    } else if takers == 0 {
      blockers := blockers + [NoMatchingWorker];
    }
  }

  lemma SomeTaker(job: Requirements, workers: seq<WorkerRecord>, observedAt: int, window: int)
    ensures |Takers(job, workers, observedAt, window)| > 0 <==>
            exists w :: w in workers && CanTake(job, w, observedAt, window)
    ensures |Takers(job, workers, observedAt, window)| <= |Active(workers, observedAt, window)|
    ensures workers == [] ==> |Active(workers, observedAt, window)| == 0
  {
    var takers := Takers(job, workers, observedAt, window);
    TakersAreActive(job, workers, observedAt, window);
    if w :| w in workers && CanTake(job, w, observedAt, window) {
      var i :| 0 <= i < |workers| && workers[i] == w;
      assert i in takers;
    }
    if takers != {} {
      var i :| i in takers;
      assert workers[i] in workers;
    }
  }

  lemma TakersAreActive(job: Requirements, workers: seq<WorkerRecord>, observedAt: int, window: int)
    ensures |Takers(job, workers, observedAt, window)| <= |Active(workers, observedAt, window)|
  {
    var takers, active := Takers(job, workers, observedAt, window), Active(workers, observedAt, window);
    forall i | i in takers
      ensures i in active
    {
    }
    assert takers <= active;
    SubsetCard(takers, active);
  }
}
