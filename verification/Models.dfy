/** The records of models.py that more than one component uses. Times are microseconds, sizes mebibytes. */
module Models {
  import opened Wrappers

  type JobId = string
  type WorkerId = string
  type RunId = string

  datatype Accelerator = Cpu | Cuda

  datatype JobStatus = Queued | Running | Completed | Failed | Cancelled

  /** What a job asks of a worker. */
  datatype Requirements = Requirements(
    accelerator: Accelerator,
    labels: map<string, string>,
    minimumGpuMemory: nat,
    minimumComputeCapability: Option<real>,
    minimumGpuMemoryAvailable: nat,
    maximumGpuUtilization: Option<real>,
    migProfile: Option<string>)

  /** One row of evaluation_jobs. */
  datatype Job = Job(
    status: JobStatus,
    priority: int,
    attempts: nat,
    maxAttempts: nat,
    createdAt: int,
    updatedAt: int,
    startedAt: Option<int>,
    leaseOwner: Option<WorkerId>,
    leaseExpiresAt: Option<int>,
    runId: Option<RunId>,
    error: Option<string>,
    requirements: Requirements)

  /** `computeCapability` is the advertised text read as a number, None when it is not one. */
  datatype GpuDevice = GpuDevice(
    memoryTotal: nat,
    memoryUsed: Option<nat>,
    computeCapability: Option<real>,
    utilization: Option<real>,
    migProfile: Option<string>)

  datatype WorkerCapabilities = WorkerCapabilities(
    accelerators: seq<Accelerator>,
    gpus: seq<GpuDevice>,
    labels: map<string, string>)

  datatype WorkerRecord = WorkerRecord(
    workerId: WorkerId,
    capabilities: WorkerCapabilities,
    lastSeenAt: int)
}
