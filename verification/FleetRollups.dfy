/**
 The fleet rollup tables of store.py: row triggers copy what the fleet report needs of every job and
 worker row into two tables of their own, and a backfill rebuilds both.
 */
module FleetRollups {
  import opened Wrappers
  import opened Models

  /** The primary key of a base row and of its rollup. */
  datatype Key = Key(tenant: string, id: string)

  datatype JobRollup = JobRollup(
    status: JobStatus, accelerator: Accelerator, createdAt: int, leaseExpiresAt: Option<int>, updatedAt: int)

  datatype WorkerRollup = WorkerRollup(supportsCpu: bool, supportsCuda: bool, gpuDevices: nat, lastSeenAt: int)

  function OfJob(job: Job): (rollup: JobRollup) {
    JobRollup(job.status, job.requirements.accelerator, job.createdAt, job.leaseExpiresAt, job.updatedAt)
  }

  function OfWorker(worker: WorkerRecord): (rollup: WorkerRollup) {
    WorkerRollup(Cpu in worker.capabilities.accelerators, Cuda in worker.capabilities.accelerators,
                 |worker.capabilities.gpus|, worker.lastSeenAt)
  }

  /** A statement that changes one row of a base table; an update may change the key too. */
  datatype RowChange<Row> =
    | Insert(key: Key, row: Row)
    | Update(prior: Key, key: Key, row: Row)
    | Delete(prior: Key)

  /** What the primary key and the presence of the row allow. */
  predicate Applies<Row>(base: map<Key, Row>, change: RowChange<Row>) {
    match change
    case Insert(key, _) => key !in base
    case Update(prior, key, _) => prior in base && (key == prior || key !in base)
    case Delete(prior) => prior in base
  }

  /** The primary key of evaluation_jobs is the job id alone: no two tenants share one. */
  predicate JobApplies(jobs: map<Key, Job>, change: RowChange<Job>) {
    && Applies(jobs, change)
    && (|| change.Delete?
        || forall key :: key in jobs && key.id == change.key.id ==> change.Update? && key == change.prior)
  }

  function Changed<Row>(base: map<Key, Row>, change: RowChange<Row>): (base': map<Key, Row>) {
    match change
    case Insert(key, row) => base[key := row]
    case Update(prior, key, row) => (base - {prior})[key := row]
    case Delete(prior) => base - {prior}
  }

  /** The keys that the statement names. */
  function Touched<Row>(change: RowChange<Row>): (keys: set<Key>) {
    match change
    case Insert(key, _) => {key}
    case Update(prior, key, _) => {prior, key}
    case Delete(prior) => {prior}
  }

  /** The row of the statement as the trigger stores it: an upsert of NEW, then a delete of OLD if its key is gone. */
  function Synced<Row, R>(rollups: map<Key, R>, change: RowChange<Row>, of: Row -> R): (rollups': map<Key, R>) {
    match change
    case Delete(prior) => rollups - {prior}
    case Insert(key, row) => rollups[key := of(row)]
    case Update(prior, key, row) =>
      var upserted := rollups[key := of(row)];
      if prior != key then upserted - {prior} else upserted
  }

  function Projection<Row, R>(base: map<Key, Row>, of: Row -> R): (rollups: map<Key, R>) {
    map key | key in base :: of(base[key])
  }

  /** The keys under which the rollup table is not the projection of the base table. */
  function Stale<Row, R(==)>(base: map<Key, Row>, rollups: map<Key, R>, of: Row -> R): (keys: set<Key>) {
    set key | key in base.Keys + rollups.Keys && !(key in base && key in rollups && rollups[key] == of(base[key]))
  }

  lemma StaleIsDisagreement<Row, R>(base: map<Key, Row>, rollups: map<Key, R>, of: Row -> R)
    ensures Stale(base, rollups, of) == {} <==> rollups == Projection(base, of)
  {
    if Stale(base, rollups, of) == {} {
      forall key | key in base.Keys + rollups.Keys
        ensures key in base && key in rollups && rollups[key] == of(base[key])
      {
        assert key !in Stale(base, rollups, of);
      }
    }
  }

  /**
   A trigger repairs exactly the rows its statement names, and disturbs no other: whatever had gone
   stale before stays stale elsewhere, nothing else becomes so, and tables that agreed still agree.
   */
  lemma TriggerRepairsItsRows<Row, R>(base: map<Key, Row>, rollups: map<Key, R>, change: RowChange<Row>, of: Row -> R)
    requires Applies(base, change)
    ensures Stale(Changed(base, change), Synced(rollups, change, of), of) == Stale(base, rollups, of) - Touched(change)
    ensures rollups == Projection(base, of) ==> Synced(rollups, change, of) == Projection(Changed(base, change), of)
  {
    var base', rollups' := Changed(base, change), Synced(rollups, change, of);
    forall key
      ensures key in Stale(base', rollups', of) <==> key in Stale(base, rollups, of) && key !in Touched(change)
    {
    }
    StaleIsDisagreement(base, rollups, of);
    StaleIsDisagreement(base', rollups', of);
  }

  /** The base table after the statements that applied, in turn, and the rollups after their triggers. */
  function History<Row, R>(base: map<Key, Row>, rollups: map<Key, R>, changes: seq<RowChange<Row>>, of: Row -> R)
    : (tables: (map<Key, Row>, map<Key, R>))
    decreases |changes|
  {
    if changes == [] then (base, rollups)
    else
      var (b, r) := History(base, rollups, changes[..|changes| - 1], of);
      var last := changes[|changes| - 1];
      if Applies(b, last) then (Changed(b, last), Synced(r, last, of)) else (b, r)
  }

  /** A run takes each change that the primary key allows: the row is under its key then, and so is its rollup. */
  lemma HistoryTakes<Row, R>(base: map<Key, Row>, rollups: map<Key, R>, changes: seq<RowChange<Row>>,
                             change: RowChange<Row>, of: Row -> R)
    ensures var (b, r) := History(base, rollups, changes, of);
            var (b', r') := History(base, rollups, changes + [change], of);
            match change
            case Insert(key, row) =>
              if key in b then b' == b && r' == r else b' == b[key := row] && r' == r[key := of(row)]
            case Update(prior, key, row) =>
              if prior !in b || (key in b && key != prior) then b' == b && r' == r
              else
                && b' == (map k | k in b && k != prior :: b[k])[key := row]
                && r' == (map k | k in r && k != prior :: r[k])[key := of(row)]
            case Delete(prior) =>
              b' == (map k | k in b && k != prior :: b[k])
              && r' == (if prior in b then map k | k in r && k != prior :: r[k] else r)
  {
    assert (changes + [change])[..|changes|] == changes;
    match change
    case Insert(key, _) =>
    case Update(prior, key, row) =>
      var (b, r) := History(base, rollups, changes, of);
      assert (if prior != key then r[key := of(row)] - {prior} else r[key := of(row)])
          == (map k | k in r && k != prior :: r[k])[key := of(row)];
      assert (b - {prior})[key := row] == (map k | k in b && k != prior :: b[k])[key := row];
    case Delete(prior) =>
  }

  /** Over any run of row changes only rows that were stale at the start can be stale; so after a backfill none is. */
  lemma {:induction false} RollupsFollow<Row, R>(base: map<Key, Row>, rollups: map<Key, R>,
                                                 changes: seq<RowChange<Row>>, of: Row -> R)
    ensures var (b, r) := History(base, rollups, changes, of); Stale(b, r, of) <= Stale(base, rollups, of)
    ensures rollups == Projection(base, of) ==>
              var (b, r) := History(base, rollups, changes, of); r == Projection(b, of)
    decreases |changes|
  {
    var (b', r') := History(base, rollups, changes, of);
    if changes != [] {
      var before := changes[..|changes| - 1];
      RollupsFollow(base, rollups, before, of);
      var (b, r) := History(base, rollups, before, of);
      if Applies(b, changes[|changes| - 1]) {
        TriggerRepairsItsRows(b, r, changes[|changes| - 1], of);
      }
    }
    StaleIsDisagreement(base, rollups, of);
    StaleIsDisagreement(b', r', of);
  }

  /** The base tables with their triggers installed. */
  class FleetTables {
    var jobs: map<Key, Job>
    var workers: map<Key, WorkerRecord>
    var jobRollups: map<Key, JobRollup>
    var workerRollups: map<Key, WorkerRollup>

    ghost predicate Valid()
      reads this
    {
      jobRollups == Projection(jobs, OfJob) && workerRollups == Projection(workers, OfWorker)
    }

    /** `_backfill_fleet_rollups`, over base tables that may have had no triggers before. */
    constructor (jobs: map<Key, Job>, workers: map<Key, WorkerRecord>)
      ensures Valid() && this.jobs == jobs && this.workers == workers
    {
      this.jobs, this.workers := jobs, workers;
      jobRollups := map key | key in jobs :: OfJob(jobs[key]);
      workerRollups := map key | key in workers :: OfWorker(workers[key]);
    }

    /** `sync_fleet_job_rollup`, after the row change. */
    method SyncJobRollup(change: RowChange<Job>)
      modifies this`jobRollups
      ensures jobRollups == Synced(old(jobRollups), change, OfJob)
      ensures !change.Delete? ==>
                && change.key in jobRollups
                && var rollup, job := jobRollups[change.key], change.row;
                   && rollup.status == job.status && rollup.accelerator == job.requirements.accelerator
                   && rollup.createdAt == job.createdAt && rollup.leaseExpiresAt == job.leaseExpiresAt
                   && rollup.updatedAt == job.updatedAt
    {
      if change.Delete? {
        jobRollups := jobRollups - {change.prior};
        return;
      }
      jobRollups := jobRollups[change.key := OfJob(change.row)];
      if change.Update? && change.prior != change.key {
        jobRollups := jobRollups - {change.prior};
      }
    }

    /** `sync_fleet_worker_rollup`, after the row change. */
    method SyncWorkerRollup(change: RowChange<WorkerRecord>)
      modifies this`workerRollups
      ensures workerRollups == Synced(old(workerRollups), change, OfWorker)
      ensures !change.Delete? ==>
                && change.key in workerRollups
                && var rollup, c := workerRollups[change.key], change.row.capabilities;
                   && (rollup.supportsCpu <==> Cpu in c.accelerators)
                   && (rollup.supportsCuda <==> Cuda in c.accelerators)
                   && rollup.gpuDevices == |c.gpus| && rollup.lastSeenAt == change.row.lastSeenAt
    {
      if change.Delete? {
        workerRollups := workerRollups - {change.prior};
        return;
      }
      workerRollups := workerRollups[change.key := OfWorker(change.row)];
      if change.Update? && change.prior != change.key {
        workerRollups := workerRollups - {change.prior};
      }
    }

    method ChangeJob(change: RowChange<Job>) returns (done: bool)
      requires Valid()
      modifies this`jobs, this`jobRollups
      ensures Valid() && done == JobApplies(old(jobs), change)
      ensures done <==>
              match change
              case Insert(key, _) => forall other :: other in old(jobs) ==> other.id != key.id
              case Update(prior, key, _) =>
                prior in old(jobs) && forall other :: other in old(jobs) && other != prior ==> other.id != key.id
              case Delete(prior) => prior in old(jobs)
      ensures jobs == (if done then Changed(old(jobs), change) else old(jobs))
    {
      if !JobApplies(jobs, change) {
        return false;
      }
      TriggerRepairsItsRows(jobs, jobRollups, change, OfJob);
      jobs := Changed(jobs, change);
      SyncJobRollup(change);
      return true;
    }

    method ChangeWorker(change: RowChange<WorkerRecord>) returns (done: bool)
      requires Valid()
      modifies this`workers, this`workerRollups
      ensures Valid() && done == Applies(old(workers), change)
      ensures done <==>
              match change
              case Insert(key, _) => forall other :: other in old(workers) ==> other != key
              case Update(prior, key, _) =>
                prior in old(workers) && forall other :: other in old(workers) && other != prior ==> other != key
              case Delete(prior) => prior in old(workers)
      ensures workers == (if done then Changed(old(workers), change) else old(workers))
    {
      if !Applies(workers, change) {
        return false;
      }
      TriggerRepairsItsRows(workers, workerRollups, change, OfWorker);
      workers := Changed(workers, change);
      SyncWorkerRollup(change);
      return true;
    }

    /** `register_worker`: an insert, or an update under the same key. */
    method RegisterWorker(tenant: string, id: WorkerId, capabilities: WorkerCapabilities, now: int)
      requires Valid()
      modifies this`workers, this`workerRollups
      ensures Valid() && workers == old(workers)[Key(tenant, id) := WorkerRecord(id, capabilities, now)]
    {
      var key, row := Key(tenant, id), WorkerRecord(id, capabilities, now);
      var done := ChangeWorker(if key in workers then Update(key, key, row) else Insert(key, row));
    }
  }
}
