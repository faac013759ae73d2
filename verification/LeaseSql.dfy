/**
 The worker-dependent clauses of the claim query in store.py, in SQL's three-valued logic: a
 comparison with NULL is neither true nor false, and WHERE keeps a row only when its condition is true.
 */
module LeaseSql {
  import opened Wrappers
  import opened Models

  datatype Truth = True | False | Unknown

  function And(a: Truth, b: Truth): (c: Truth)
    ensures c == True <==> a == True && b == True
    ensures c == False <==> a == False || b == False
  {
    if a == False || b == False then False else if a == True && b == True then True else Unknown
  }

  function Or(a: Truth, b: Truth): (c: Truth)
    ensures c == True <==> a == True || b == True
    ensures c == False <==> a == False && b == False
  {
    if a == True || b == True then True else if a == False && b == False then False else Unknown
  }

  function Definite(b: bool): Truth {
    if b then True else False
  }

  function AtLeast(a: Option<real>, b: Option<real>): Truth {
    if a.None? || b.None? then Unknown else Definite(a.value >= b.value)
  }

  function EqualText(a: Option<string>, b: Option<string>): Truth {
    if a.None? || b.None? then Unknown else Definite(a.value == b.value)
  }

  function IntAtLeast(a: Option<int>, b: int): Truth {
    if a.None? then Unknown else Definite(a.value >= b)
  }

  /** `greatest(0, total - used)`: an SQL `greatest` skips NULL arguments, so an unknown difference leaves 0. */
  function GreatestWithZero(a: Option<int>): (b: Option<int>)
    ensures b.Some? && b.value >= 0 && (a.Some? ==> b.value >= a.value) && (b == Some(0) || b == a)
  {
    if a.None? then Some(0) else Some(if a.value > 0 then a.value else 0)
  }

  function IsNull<T>(a: Option<T>): Truth {
    Definite(a.None?)
  }

  function IsNotNull<T>(a: Option<T>): Truth {
    Definite(a.Some?)
  }

  /** `SELECT 1 FROM gpus WHERE ...`, one device. */
  function GpuRow(job: Requirements, gpu: GpuDevice): Truth {
    var difference := if gpu.memoryUsed.None? then None else Some(gpu.memoryTotal - gpu.memoryUsed.value);
    And(Definite(gpu.memoryTotal >= job.minimumGpuMemory),
    And(Or(IsNull(job.minimumComputeCapability),
           AtLeast(gpu.computeCapability, job.minimumComputeCapability)),
    And(Or(Definite(job.minimumGpuMemoryAvailable == 0),
           And(IsNotNull(gpu.memoryUsed),
               IntAtLeast(GreatestWithZero(difference), job.minimumGpuMemoryAvailable))),
    And(Or(IsNull(job.maximumGpuUtilization),
           And(IsNotNull(gpu.utilization), AtLeast(job.maximumGpuUtilization, gpu.utilization))),
        Or(IsNull(job.migProfile), EqualText(gpu.migProfile, job.migProfile))))))
  }

  function NoGpuConstraint(job: Requirements): Truth {
    And(Definite(job.minimumGpuMemory == 0),
    And(IsNull(job.minimumComputeCapability),
    And(Definite(job.minimumGpuMemoryAvailable == 0),
    And(IsNull(job.maximumGpuUtilization), IsNull(job.migProfile)))))
  }

  /** The JSONB containment `labels @> required`, both flat objects of strings. */
  predicate Contains(labels: map<string, string>, required: map<string, string>) {
    forall key :: key in required ==> key in labels && labels[key] == required[key]
  }

  /** The clauses of the claim query that depend on the worker. */
  function WorkerClauses(job: Requirements, capabilities: WorkerCapabilities): Truth {
    And(Definite(job.accelerator in capabilities.accelerators),
    And(Definite(Contains(capabilities.labels, job.labels)),
        Or(NoGpuConstraint(job), Definite(exists gpu :: gpu in capabilities.gpus && GpuRow(job, gpu) == True))))
  }

  /** Whether WHERE keeps the row. */
  predicate Admits(job: Requirements, capabilities: WorkerCapabilities) {
    WorkerClauses(job, capabilities) == True
  }

  /** A worker that claims without stating capabilities counts as a plain CPU worker. */
  function Advertised(capabilities: Option<WorkerCapabilities>): WorkerCapabilities {
    match capabilities
    case None => WorkerCapabilities([Cpu], [], map[])
    case Some(c) => c
  }
}
