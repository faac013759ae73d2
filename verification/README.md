# Agent evaluation control plane: a verified model

This project models the parts of the agent evaluation control plane that decide who runs what, and that
keep the evidence of what was run, and proves what they promise.

- **GPU matching and clearance waves** (`FiniteSets`, `AugmentingPaths`, `Matching`, `ClearanceWaves`,
  `CapacityForecast`): the augmenting-path matcher over jobs in priority order, with the closed sets of its
  failed searches as certificates; the binary search for the least number of waves; the capacity forecast
  built on both.
- **Placement** (`LeaseSql`, `Placement`): the Python diagnostic against the claim query's conditions in
  SQL's three-valued logic.
- **The leased job queue** (`JobQueue`, `JobStore`, `QueueQuota`, `EvaluationWorkers`): every store method as
  one atomic step, runs as arbitrary interleavings under a clock that never goes back, worker processes that
  crash, tenant quotas.
- **The evidence ledger** (`CanonicalJson`, `CanonicalJsonText`, `CanonicalJsonProofs`, `CanonicalJsonReader`,
  `Integrity`, `JsonbColumn`, `EvidenceRecords`, `EvidenceLedger`, `EvidenceStore`, `EvidenceHistory`, `Audit`,
  `Recovery`, `RecoveryGuarantees`): canonical JSON, how it is read and what a JSONB column makes of it, the
  hash chain, signed checkpoints, whole histories, the live audit and the verification of a restored copy.
  `ControlPlane` puts queue and evidence together.
- **Checkpoint publication** (`CheckpointObjects`, `CheckpointSinks`): object keys, create-only objects,
  read-back and replication.
- **Fleet rollups** (`FleetRollups`, `FleetReport`): trigger-maintained tables and the report on them.
- **Demand, comparison, bundles** (`HourOfWeek`, `DemandForecast`, `RunComparison`, `BundleFraming`).

Nothing is assumed about the hash but the form of its digests. A result that rests on it names the two texts
at hand and says "or these two collide"; that two texts collide somewhere is never taken as an excuse. Results
on ledgers are stated over any digests first; those that end in `ByHash` are about the digests that are
computed, and conclude with two texts of one hash. Signing is a deterministic function whose signatures
verify; verification is a predicate and may accept more.

Where the code differs from what its documents say, the model follows the code:

- `docs/distributed-execution.md` says that a worker may complete or fail a job only while it owns the active
  lease. The store checks the owner, not the expiry: `JobQueue.FenceIsLastLease` is the exact condition,
  `JobQueue.ReportsUnderActiveLeases` says which runs keep the promise all the same, and
  `QueueQuota.LateCompletion` is a run in which an expired lease completes. `EvaluationWorkers` shows what this
  fence is worth: it tells attempts apart iff no two processes share a worker id.
- A failed attempt returns to the queue without a quota check, and a renewal does not look at expiry. So the
  limits on queued and on running jobs hold in every state of a run exactly when no attempt fails, with
  attempts left, at a full queue (`QueueQuota.QueueDepthHolds`) and no renewal revives an expired lease at the
  limit (`QueueQuota.RunningLimitsHold`); two runs show that they do not hold in general.
- Digests are taken of the payload given, while recovery and audit digest what the JSONB column gives back. A
  float from 1e16 on comes back as an integer, whose canonical text differs. So a faithful copy is accepted,
  and the audit of an untouched store is clean, exactly when no payload holds such a float, unless its two
  texts collide (`RecoveryGuarantees.FaithfulCopyAccepted`, `Audit.EveryRunAuditsClean`);
  `RecoveryGuarantees.LargeFloatIsRefused` is a run whose untouched copy is refused.
- `docs/evidence-checkpoints.md` says that dual publication proves two independently verified copies. What is
  checked is that destination ids differ: `CheckpointSinks.CopiesAreIndependent` is the exact condition, and
  `CheckpointSinks.OneObjectTwoCopies` the publication that counts one object twice where it fails.
- The ledger pass of the audit does not notice that the newest rows are gone, nor artifacts without a row;
  `Audit.CutIsSeenByCheckpoints` says which cuts the checkpoints betray.

## Model

| member | source | states |
|---|---|---|
| `AugmentingPaths.FindFreeSlot` | src/aecontrol/capacity.py:172-190 | the breadth-first search from a new root ends with a free slot whose parent links lead back to the root, or with a set of jobs, containing the root, whose every slot is held by a job of the set |
| `AugmentingPaths.FlipPath` | src/aecontrol/capacity.py:192-197 | flipping terminates, keeps the two maps inverse on eligible pairs and adds exactly the root to the served jobs |
| `AugmentingPaths.FlipStep` | src/aecontrol/capacity.py:192-197 | one slot of the path: the maps stay inverse except at the job that still has to move, and the tree stays valid for the rest of the path |
| `AugmentingPaths.VisitSlot` | src/aecontrol/capacity.py:179-190 | one neighbour slot reached for the first time: a free one ends the search, a held one enqueues its holder; the tree grows and stays ranked |
| `AugmentingPaths.ScanSlots` | src/aecontrol/capacity.py:177-190 | the neighbours of one job: slots seen before are skipped and keep their parents, new ones hang from the job; it ends at a free slot, or with every slot of the job seen |
| `Matching.TryRoot` | src/aecontrol/capacity.py:172-197 | each root keeps the two maps inverse on eligible pairs and changes the served jobs by at most adding the root; a root left over joins, with its search, the closed set, which stays closed |
| `Matching.MaximumMatching` | src/aecontrol/capacity.py:166-198 | for every prefix of the priority order the served jobs of that prefix number the maximum matching of the prefix alone; the jobs left over lie in a set that outnumbers its slots by exactly their number |
| `Matching.ClosedBound` | src/aecontrol/capacity.py:177-190 | jobs of a closed set can be given at most the slots that the set already holds |
| `Matching.ClosedIsOptimal` | src/aecontrol/capacity.py:166-198 | if the jobs left over lie in one closed set, no matching of any kind serves more jobs |
| `Matching.ClosedNeighbours` | src/aecontrol/capacity.py:177-190 | a closed set has exactly as many neighbouring slots as matched jobs: the König certificate of a failed search |
| `Matching.ServedNext` | src/aecontrol/capacity.py:172-197 | one root, failed or not: every prefix stays optimal, and the closed set of earlier failures stays closed after each augmentation |
| `Matching.Overfull` | src/aecontrol/capacity.py:166-198 | the closed set of all failed searches outnumbers its slots by exactly the jobs left over |
| `Matching.PrefixBound` | src/aecontrol/capacity.py:166-198 | no other matching serves more of a prefix than the matcher does |
| `Matching.LeftOverCannotDisplace` | src/aecontrol/capacity.py:166-198 | a job left over is left over by every matching that serves all earlier jobs the matcher served: a lower-priority job never costs a higher one its slot |
| `Matching.ServedJobsDetermined` | src/aecontrol/capacity.py:166-198 | which jobs are served depends on the priority order and on who may take what only, not on the order of slot lists |
| `ClearanceWaves.MinimumClearanceWaves` | src/aecontrol/capacity.py:144-163 | the binary search returns the least number of waves that clears all jobs, and it equals the largest ceil(jobs / workers open to them) over non-empty job sets; without a worker for some job it returns the number of jobs and no number of waves suffices |
| `ClearanceWaves.ServesAll` | src/aecontrol/capacity.py:151-160 | one probe: the matcher serves all jobs on the (worker, wave) slots exactly when that many waves suffice; otherwise it yields a job set too large for its workers |
| `ClearanceWaves.ProbeIsExact` | src/aecontrol/capacity.py:151-160 | a maximum matching of the slot graph covers all jobs iff some plan loads no worker beyond the number of waves |
| `ClearanceWaves.FeasibleBoundsLoad` | src/aecontrol/capacity.py:144-163 | a feasible number of waves bounds every job set by its workers times the waves: the easy half of Hall's theorem for waves |
| `ClearanceWaves.PlanGivesMatching` | src/aecontrol/capacity.py:152-158 | a plan with bounded loads can be numbered into distinct (worker, wave) slots |
| `ClearanceWaves.OneWavePerJob` | src/aecontrol/capacity.py:149-150 | as many waves as jobs always suffice when every job has a worker: the initial upper bound is feasible |
| `ClearanceWaves.BoundsMeet` | src/aecontrol/capacity.py:149-163 | when the bounds meet, the failing job set below and the feasible plan above make the count both least and largest demand |
| `CapacityForecast.ForecastGpuCapacity` | src/aecontrol/capacity.py:20-141 | the entries are the queued CUDA jobs by priority, age and id; first wave, deferred and blocked partition them; each has the number of active workers that can take it; first-wave workers are active, eligible and distinct and as many jobs as possible are served; a deferred job waits only for first-wave jobs of higher priority, or of its priority and earlier; the wave count is the least clearance, is 0 iff no job is compatible, and at most 1 iff nothing is deferred |
| `CapacityForecast.WavesAndDeferral` | src/aecontrol/capacity.py:67-71 | at most one wave is needed iff the first wave, found on a different slot graph, serves every compatible job |
| `CapacityForecast.DeferredWaits` | src/aecontrol/capacity.py:68-97 | a deferred job could run in the first wave only if a first-wave job of higher priority, or of its priority and earlier, gave way |
| `CapacityForecast.OneWave` | src/aecontrol/capacity.py:144-163 | one wave of the (worker, wave) graph suffices iff the plain job-to-worker graph has a perfect matching of the jobs |
| `CapacityForecast.CountsPartition` | src/aecontrol/capacity.py:88-112 | every queued CUDA job is counted in exactly one of the three states |
| `CapacityForecast.AssignmentIsMatching` | src/aecontrol/capacity.py:58-67 | any assignment of queued jobs to distinct workers that can run them is a matching of the table of eligible workers |
| `CapacityForecast.InsertRowOrdered` | src/aecontrol/capacity.py:41-48 | insertion keeps the queue in order: no job after one of less priority, nor after one of its priority created later, nor after one equal in both by the text order of ids |
| `TextOrder.FirstDifference` | src/aecontrol/capacity.py:47 | two texts are ordered by the code points where they first differ, and a text precedes its extensions |
| `Placement.GpuMatchesIsSqlRow` | src/aecontrol/placement.py:159-181 | the Python predicate on one device holds iff the SQL row condition is true in three-valued logic, missing telemetry included; and iff all five clauses hold |
| `Placement.GpuReasons` | src/aecontrol/placement.py:78-156 | no reasons iff one single device meets all GPU constraints or there are none; otherwise every reason is true of the devices with the best value quoted, and every clause that no device meets is mentioned and no other |
| `Placement.ReasonsComplete` | src/aecontrol/placement.py:78-156 | the five lists together mention a clause exactly when no device meets it |
| `Placement.GpusSufficeIsSql` | src/aecontrol/placement.py:78-90 | one device for all constraints in Python is EXISTS in the claim query |
| `Placement.LabelReasons` | src/aecontrol/placement.py:64-67 | one reason per required label that the worker lacks or has with another value; none iff the JSON containment of the claim query holds |
| `Placement.DiagnoseWorker` | src/aecontrol/placement.py:55-75 | a worker is eligible iff it is active and the worker-dependent clauses of the claim query admit it; a stale heartbeat, a missing accelerator and each label are reasons exactly if they apply, and the reasons about devices are true and complete |
| `Placement.DiagnosePlacement` | src/aecontrol/placement.py:17-52 | one diagnostic per worker in order, with its reasons, active iff last seen no longer ago than the window; the numbers of active and of matching workers; each blocker given exactly if it applies; schedulable iff queued and some active worker is admitted, iff there are no blockers |
| `JobStore.EligibleWorkersAreServed` | src/aecontrol/store.py:2372-2430 | an active worker can be given a job iff the running limit leaves room and the diagnostic calls it eligible for some waiting unlocked job; every job it can be given is one of those |
| `JobStore.EligibleFirstIsLeased` | src/aecontrol/store.py:2372-2452 | an eligible queued job, unlocked, not blocked by a running limit and strictly first in claim order, is the one the claim takes |
| `JobQueue.RunTraced` | src/aecontrol/store.py:2327-2542 | over every run: attempts equals the leases granted and never exceeds max_attempts; running iff owner and expiry are set; queued means attempts left and no start time; failed means attempts exhausted; completed iff a run id is set, and that run is stored; the owner made the last lease and nothing ended it since |
| `JobQueue.StepTraced` | src/aecontrol/store.py:2327-2542 | each single step of any caller keeps all of that |
| `JobQueue.EndedForever` | src/aecontrol/store.py:2493-2542 | a completed, failed or cancelled job never changes again |
| `JobQueue.FenceIsLastLease` | src/aecontrol/store.py:2484-2523 | renew and fail succeed iff the worker made the job's last lease and nothing ended it since, complete iff moreover the run is stored; expiry plays no part |
| `JobQueue.HolderMadeLastLease` | src/aecontrol/store.py:2432-2452 | the holder is the worker of the last lease event, with no end of the lease after it |
| `JobQueue.ExpiryIsLeaseEnd` | src/aecontrol/store.py:2432-2491 | in every run a job expires when its last lease or renewal ends, counted from the clock at that event, and has no expiry once something ended the lease |
| `JobQueue.ReportsUnderActiveLeases` | src/aecontrol/store.py:2493-2523 | throughout a run jobs are completed and failed under active leases only, exactly when each report comes no later than the last lease or renewal of its job lasts |
| `JobQueue.CompletesOnce` | src/aecontrol/store.py:2493-2506 | in every run a job completes at most once |
| `JobStore.QueueStore.EnqueueJob` | src/aecontrol/store.py:2083-2186 | enqueues iff the request is valid, neither limit is reached and the id is new, and gives each refusal exactly when its check is the first of these to fail; a limit is refused with the usage it would exceed; the new row holds what was asked for and nothing of a lease, a run or an error; a refusal changes nothing |
| `JobStore.QueueStore.LeaseJob` | src/aecontrol/store.py:2327-2452 | leases a claimable unlocked row, or nothing iff there is none; none of those has a higher priority, and none of its priority was created earlier; the row gets one attempt more, the owner and an expiry counted from now; a worker without stated capabilities gets CPU jobs without labels only |
| `JobStore.QueueStore.FirstOf` | src/aecontrol/store.py:2426-2430 | a row of the greatest priority, and the oldest of these |
| `JobQueue.ClaimsGreatest` | src/aecontrol/store.py:2426-2430 | whatever may be claimed has no higher priority than the row claimed, and is no older at the same priority |
| `JobStore.QueueStore.RenewJobLease` | src/aecontrol/store.py:2477-2491 | renews iff the worker is the owner of a running job, whether or not the lease has expired, and changes the expiry only |
| `JobStore.QueueStore.CompleteJob` | src/aecontrol/store.py:2493-2506 | completes for the owner with a stored run, which the row names from then on without owner, expiry or error; a run that is not stored violates the foreign key and changes nothing |
| `JobStore.QueueStore.FailJob` | src/aecontrol/store.py:2508-2523 | back to the queue while attempts are left, else failed; the error kept is its first 4000 characters |
| `JobStore.QueueStore.CancelJob` | src/aecontrol/store.py:2525-2542 | cancels exactly a queued or running job, refuses exactly an ended one, with its status, and reports exactly a missing one as missing |
| `JobStore.ExhaustedLeaseIsStuck` | src/aecontrol/store.py:2375-2430 | over any run, a running job on its last attempt stays with its owner, expired or not, exactly until the owner reports or somebody cancels it, and then it has ended |
| `QueueQuota.HourlyLimitHolds` | src/aecontrol/store.py:2144-2152 | under a fixed quota, submissions of the trailing hour never exceed max_jobs_per_hour in any reachable state |
| `QueueQuota.AnyHourWithinLimit` | src/aecontrol/store.py:2144-2152 | where creation times are those of the enqueuing clock, no window of one hour at any point of a run holds more creations than the limit |
| `QueueQuota.EnqueueKeepsDepth` | src/aecontrol/store.py:2138-2143 | every successful enqueue leaves the queued count within max_queued_jobs |
| `QueueQuota.FailureDeepensQueue` | src/aecontrol/store.py:2508-2523 | a failure step raises the queued count by one exactly when attempts are left, whatever the limit |
| `QueueQuota.StepDepth` | src/aecontrol/store.py:2138-2542 | from a queue within max_queued_jobs a step leads beyond it exactly when it is a failure with attempts left at a full queue |
| `QueueQuota.QueueDepthHolds` | src/aecontrol/store.py:2138-2542 | under a fixed quota the queued jobs are within max_queued_jobs in every state of a run exactly when no attempt fails, with attempts left, while the queue is full |
| `QueueQuota.RequeueExceedsDepth` | src/aecontrol/store.py:2513-2518 | a run under max_queued_jobs = 1 that ends with two queued jobs: the global bound fails |
| `QueueQuota.LeaseKeepsLimits` | src/aecontrol/store.py:2355-2371 | every lease leaves unexpired running and CUDA jobs within their limits |
| `QueueQuota.RenewalAndLimit` | src/aecontrol/store.py:2484-2487 | a renewal raises the unexpired count, by one, exactly when it revives an expired lease that counts; a state within the limit stays within it exactly unless that happens at the limit |
| `QueueQuota.RunningLimitsHold` | src/aecontrol/store.py:2355-2452 | under a fixed quota, unexpired running and CUDA leases are within their limits in every state of a run exactly when no renewal revives an expired lease while the limit is reached |
| `QueueQuota.StepRunning` | src/aecontrol/store.py:2355-2542 | from within the limit every step but such a renewal, and only that one not, stays within it |
| `QueueQuota.RenewingInTime` | src/aecontrol/store.py:2477-2491 | in runs that renew no expired lease both running limits hold in every state |
| `QueueQuota.LateRenewalExceedsLimit` | src/aecontrol/store.py:2484-2487 | a run under max_running_jobs = 1 in which a late renewal leaves two unexpired leases |
| `QueueQuota.LateCompletion` | src/aecontrol/store.py:2497-2503 | a run in which a worker completes a job after its lease expired |
| `EvaluationWorkers.AttemptsAreFenced` | src/aecontrol/jobs.py:44-80 | where processes do not share a worker id: through crashes, expiry and new claims, a process can complete, renew or fail its job iff its own attempt is the last and not ended, and after a refused completion its failure report changes nothing |
| `EvaluationWorkers.MoveKeepsFence` | src/aecontrol/jobs.py:44-107 | each claim, heartbeat, stored run, acknowledgement, failure report, crash or step of others keeps every process fenced |
| `EvaluationWorkers.MovesLeave` | src/aecontrol/jobs.py:44-107 | a crash forgets the job and leaves its lease; giving up reports the failure if the queue takes it; a completion taken ends the work, one refused leaves a failure to report |
| `EvaluationWorkers.SharedIdsAreNotFenced` | src/aecontrol/jobs.py:44-80 | for any two processes with one worker id, a run in which the first completes with the run of its superseded attempt |
| `EvaluationWorkers.FencedExactlyWithOwnIds` | src/aecontrol/jobs.py:17-80 | fencing by worker id is fencing by attempt in every run iff no two processes share a worker id |
| `ControlPlane.CompletedJobsHaveEvidence` | src/aecontrol/jobs.py:65-68 | in every interleaving of queue steps and evidence transactions each completed job names a stored run with a ledger entry of the same envelope and the digest of the payload given; what is read back is intact iff that payload holds no large float or its two texts collide |
| `ControlPlane.EvidenceIsOwnHistory` | src/aecontrol/store.py:3045-3050 | whatever the queue does, the evidence is that of its own transactions alone |
| `ControlPlane.StepConsistent` | src/aecontrol/store.py:3045-3050 | each step keeps queue, stored runs and ledger consistent |
| `FleetRollups.TriggerRepairsItsRows` | src/aecontrol/store.py:2747-2829 | after an insert, update (key change included) or delete the stale rollup rows are the earlier ones less the rows the statement names; so tables that agreed still agree |
| `FleetRollups.RollupsFollow` | src/aecontrol/store.py:2715-2829 | over any run of row changes only rows stale at the start can be stale; after a backfill the rollups are the projection of the base table for good |
| `FleetRollups.HistoryTakes` | src/aecontrol/store.py:2747-2829 | each change of a run that the primary key allows puts its row under its key and the projection of the row under the same key, and takes away what was under the key before; any other change changes nothing |
| `FleetRollups.FleetTables.constructor` | src/aecontrol/store.py:2715-2744 | backfill makes both rollup tables the projection of their base tables |
| `FleetRollups.FleetTables.SyncJobRollup` | src/aecontrol/store.py:2750-2779 | the trigger function: upsert of the new row, then delete of the old key if it changed |
| `FleetRollups.FleetTables.SyncWorkerRollup` | src/aecontrol/store.py:2789-2822 | the same for workers, with accelerator support and device count taken from the capabilities |
| `FleetRollups.FleetTables.ChangeJob` | src/aecontrol/store.py:2781-2786 | a row change is done iff the primary key allows it, job ids being unique over all tenants, and updates base and rollup together |
| `FleetRollups.FleetTables.RegisterWorker` | src/aecontrol/store.py:2454-2470 | registration upserts the worker row and its rollup stays in agreement |
| `FleetReport.FleetReport` | src/aecontrol/store.py:889-993 | refused outside 30..3600 seconds; else one line a tenant that is registered or has rows, each with its status, its quota, a flag for each limit that its usage has reached, and what the base tables say, and totals that count every row of the fleet once |
| `FleetReport.TotalsAreFleetwide` | src/aecontrol/store.py:975-988 | the sums and the maximum over the tenants' lines are the aggregates over all their rows |
| `FleetReport.JobsFromBase` | src/aecontrol/store.py:904-927 | job aggregates taken from rollups are those of the job rows: counts by status, accelerator and expiry, the last hour, the oldest queued age |
| `FleetReport.WorkersFromBase` | src/aecontrol/store.py:928-945 | worker aggregates taken from rollups are those of the worker rows: seen in a day, active by accelerator, devices of active CUDA workers |
| `FleetReport.UsageIsQuotaUsage` | src/aecontrol/store.py:1055-1078 | the report's counts for a tenant are the usage that the tenant's own quota checks measure |
| `FleetReport.SaturationIsRefusal` | src/aecontrol/store.py:1014-1025 | a tenant is flagged queue- or hour-saturated iff its next valid enqueue is refused, and running- or CUDA-saturated iff its unexpired leases have reached the limit; then no claim, or none of a CUDA job, can succeed |
| `EvidenceLedger.ChainUnique` | src/aecontrol/store.py:2897-2966 | two chained ledgers of one length with the same last digest are equal row for row, or two of their rows at one place collide |
| `EvidenceLedger.ChainAppend` | src/aecontrol/store.py:2897-2966 | appending the next row keeps the chain |
| `EvidenceRecords.EntryDigestBinds` | src/aecontrol/integrity.py:51-74 | rows with one digest have the same sequence, artifact, envelope and previous digest, or their canonical texts collide under the hash |
| `EvidenceRecords.EntryFieldsSay` | src/aecontrol/integrity.py:51-74 | what is hashed of an entry holds each of its nine parts under its name |
| `EvidenceRecords.PayloadDigestBinds` | src/aecontrol/checkpoints.py:107-108 | checkpoint payloads with one digest are equal, or their canonical texts collide |
| `EvidenceRecords.PayloadFieldsSay` | src/aecontrol/checkpoints.py:17-28 | what is hashed of a checkpoint payload holds each of its eight parts under its name |
| `EvidenceRecords.HashCryptoIsSound` | src/aecontrol/integrity.py:37-74 | the digests that are computed, over any hash with hex digests and any signatures that verify, meet all that the results on ledgers ask of digests and signatures |
| `EvidenceHistory.RestoredByHash` | src/aecontrol/integrity.py:37-74 | what is restored up to collisions of digests is restored up to two texts, of rows or of payloads, that have one hash |
| `JsonbColumn.ColumnKeepsBytes` | src/aecontrol/store.py:224 | the canonical bytes of a payload read back from its JSONB column are those written iff it holds no float from 1e16 on |
| `JsonbColumn.ColumnIsSame` | src/aecontrol/store.py:1264 | a payload is read back equal, up to key order and signed zeros, iff it holds no such float |
| `JsonbColumn.TenToTheSixteenth` | src/aecontrol/store.py:1264 | the float 1e16 is read back as an integer with other canonical bytes |
| `JsonbColumn.FloatsOfColumn` | src/aecontrol/store.py:1264 | a float is read back as an integer iff its text has a plus sign, and else as it was but for the sign of zero |
| `JsonbColumn.FractionDenotes` | src/aecontrol/store.py:1264 | the integer is the one the text denotes, its fraction included |
| `JsonbColumn.NulIsRefused` | src/aecontrol/store.py:1264 | the column refuses NUL characters in texts and names at any depth, and nothing else |
| `EvidenceRecords.DigestOfColumn` | src/aecontrol/store.py:1227-1264 | the digest of what is read back is the digest recorded iff the payload holds no large float or its two texts collide |
| `EvidenceStore.SaveKeepsInvariant` | src/aecontrol/store.py:1220-1279 | a save, committed or rolled back, keeps the ledger contiguous from 1, chained from genesis and in agreement with the envelopes of the source tables in both directions, and every earlier checkpoint valid |
| `EvidenceStore.SaveStores` | src/aecontrol/store.py:1220-1279 | after a save each row holds the column of the payload it was last given, under the digest of that payload |
| `EvidenceStore.SaveSigns` | src/aecontrol/store.py:2635-2645 | whatever a save stores has, in source table and ledger, the digest of the payload and, with a signer, its algorithm, its key id and its signature on type, id and digest, which verifies; without a signer none of the three |
| `EvidenceStore.CheckpointKeepsInvariant` | src/aecontrol/store.py:632-713 | so does the creation or reuse of a checkpoint |
| `EvidenceHistory.RunKeepsInvariant` | src/aecontrol/store.py:632-713 | from the empty schema every run of transactions keeps all of that |
| `EvidenceHistory.EveryCallIsAdmissible` | src/aecontrol/store.py:632-1581 | histories may hold every call that the store takes: all three artifact types, signed or not, and checkpoints retained for 1 to 3650 days |
| `EvidenceHistory.RunReadsBack` | src/aecontrol/store.py:1220-1279 | in every run an artifact is read back with the digest and a valid signature iff the payload it was last saved with holds no large float or its two texts collide |
| `EvidenceHistory.RunAppendOnly` | src/aecontrol/store.py:2870-2966 | ledger and checkpoints after any prefix of a run are prefixes of those after the run |
| `EvidenceHistory.VerifiedIsIssued` | src/aecontrol/checkpoints.py:111-125 | a checkpoint that verifies, with a signature on any message the history has signed, for an artifact or a checkpoint, is one that the history issued, or collides with it |
| `EvidenceHistory.SignaturesAreSigned` | src/aecontrol/store.py:632-1581 | every signature that the store holds, of an artifact or of a checkpoint, is on a message that the history has signed |
| `EvidenceHistory.CheckpointFixesHistory` | src/aecontrol/recovery.py:518-631 | a chain with sealed artifacts that ends in the head of such a checkpoint is the ledger the history had when it issued it, with the artifacts saved in it, or two texts collide |
| `EvidenceStore.ArtifactStore.AppendArtifactLedger` | src/aecontrol/store.py:2870-2966 | an entry with the same envelope is left alone, another envelope is a conflict, a new artifact gets the next sequence and the head as previous digest |
| `EvidenceStore.ArtifactStore.SaveArtifact` | src/aecontrol/store.py:1220-1279 | signs as asked, stores the column of the payload and appends in one transaction; a conflict rolls both back; the store stays valid and the ledger only grows |
| `EvidenceStore.ArtifactStore.SaveRun` | src/aecontrol/store.py:1220-1279 | a run may be stored again with the same envelope |
| `EvidenceStore.ArtifactStore.SaveComparison` | src/aecontrol/store.py:1316-1372 | a comparison may not be stored twice |
| `EvidenceStore.ArtifactStore.SaveGuardrailEvidence` | src/aecontrol/store.py:1541-1581 | the same for guardrail evidence |
| `EvidenceStore.ArtifactStore.LatestReusable` | src/aecontrol/store.py:653-667 | the most recent checkpoint of the present head made in the last five minutes, or none |
| `EvidenceStore.ArtifactStore.CreateLedgerCheckpoint` | src/aecontrol/store.py:632-713 | refused for the retention range or without an Ed25519 key; else the returned checkpoint is stored, verifies and describes the whole present ledger: one made in the last five minutes, or a new one retained for the days asked for |
| `Audit.VerifyArtifactLedger` | src/aecontrol/store.py:1872-1987 | one failure, with its reason, for each row that breaks sequence, previous digest, entry digest or agreement with its source; none iff the rows are a whole chain that agrees with the sources |
| `Audit.NoFailuresUpTo` | src/aecontrol/store.py:1872-1987 | no failure up to a row iff the rows so far are chained and agree with their sources |
| `Audit.VerifyLedgerCheckpoints` | src/aecontrol/store.py:1771-1869 | on any rows, whole or not: one failure, with its reason, for each checkpoint that does not pass, and none iff every checkpoint has a valid digest, signature and columns and its head is the digest recorded at its sequence |
| `Audit.PassesIsAnchors` | src/aecontrol/store.py:1771-1869 | on a whole chain a checkpoint passes iff it describes one of the prefixes of the chain |
| `Audit.IllFormedIsBad` | src/aecontrol/checkpoints.py:17-46 | a checkpoint whose payload or envelope the models refuse is reported, and one without a failure is Ed25519-signed with retention after creation |
| `Audit.VerifyPayloads` | src/aecontrol/store.py:1678-1741 | one failure for each artifact whose payload digest or signature is wrong, none iff all are intact; signed are those with an algorithm, a key id or a signature, unsigned those with none of the three; the algorithms are counted |
| `Audit.VerifyArtifacts` | src/aecontrol/store.py:1673-1768 | the three lists of failures are empty iff artifacts, ledger and checkpoints are all clean |
| `Audit.EveryRunAuditsClean` | src/aecontrol/store.py:1673-1987 | after every run of committed or rolled-back transactions ledger and checkpoints are clean, and the artifacts too iff every payload last saved reads back |
| `Audit.CleanAuditProvesHistory` | src/aecontrol/store.py:1673-1987 | tables without a failure that hold a checkpoint with a signature on a message the history has signed: the rows up to it are the ledger of the time it was issued, with the artifacts saved in it, or two texts collide |
| `Audit.CleanAuditProvesHistoryByHash` | src/aecontrol/store.py:1673-1987 | the same with the digests that are computed: it is that ledger with those artifacts, or two texts that are named have one hash |
| `Audit.CutIsSeenByCheckpoints` | src/aecontrol/store.py:1771-1987 | with the newest rows gone and their artifacts left behind the ledger pass is clean as before; the audit fails iff a checkpoint lies beyond the cut, which is then reported as a missing sequence |
| `Recovery.CheckCheckpoint` | src/aecontrol/recovery.py:404-665 | the number of failures and the first twenty of them, in order, with the counts of rows, signed and unsigned artifacts; valid iff the checkpoint verifies, is recent, was itself restored, and the restored chain reaches its head with every row sourced; raises iff an earlier query of the transaction failed and this checkpoint gets as far as a query |
| `Recovery.NoFailuresOf` | src/aecontrol/recovery.py:404-641 | the list of failures is empty iff the checkpoint is accepted |
| `Recovery.CheckRows` | src/aecontrol/recovery.py:518-631 | the row loop finds the failures of each row in its place and of its source, in order, none iff the rows are chained and sourced, and counts signed and unsigned artifacts |
| `Recovery.CheckSource` | src/aecontrol/recovery.py:561-627 | one referenced artifact: a failure each if it is missing, if its digest is wrong, if its envelope differs and if its signature is incomplete or does not verify; none iff it is whole |
| `Recovery.SourcesByType` | src/aecontrol/recovery.py:678-687 | runs, comparisons and guardrail evidence that are stored with a payload are found, and nothing else is |
| `Recovery.Verify` | src/aecontrol/recovery.py:318-402 | the drill succeeds iff the transaction is read-only, the server promoted, the schema version expected and every checkpoint accepted; else the report adds up the failures of server and checkpoints; an error is raised iff a table is missing and two checkpoints get as far as a query |
| `RecoveryGuarantees.AcceptedMeansRestored` | src/aecontrol/recovery.py:518-631 | an accepted checkpoint of an original ledger means the restored rows up to its sequence are the original prefix, with its envelopes and the payloads given, or two given rows or payloads collide |
| `RecoveryGuarantees.RecoveryProvesHistory` | src/aecontrol/recovery.py:318-402 | an accepted checkpoint with a signature on any message the run has signed proves the prefix that existed when the run issued it, whatever came after, or two texts collide |
| `RecoveryGuarantees.RecoveryProvesHistoryByHash` | src/aecontrol/recovery.py:318-402 | the same with the digests that are computed: the restored ledger and artifacts are those, or two texts that are named, of checkpoints, of rows at one place or of payloads of one artifact, have one hash |
| `RecoveryGuarantees.FaithfulCopyAccepted` | src/aecontrol/recovery.py:318-402 | a faithful copy of a store is accepted for a recent checkpoint of its own iff the payloads recorded up to it hold no large float or collide with what is read back |
| `RecoveryGuarantees.RunCopyAccepted` | src/aecontrol/recovery.py:318-402 | the same for the store after any run and each of its checkpoints |
| `RecoveryGuarantees.RunCopyAcceptedByHash` | src/aecontrol/recovery.py:318-402 | the same with the digests that are computed: accepted iff no recorded payload holds a large float, unless the texts of that payload and of what is read back have one hash |
| `RecoveryGuarantees.LargeFloatIsRefused` | src/aecontrol/recovery.py:561-627 | a run with the float 1e16 and a checkpoint: the untouched copy is refused, unless two texts collide |
| `CanonicalJsonProofs.CanonicalBytesAgree` | src/aecontrol/integrity.py:41-48 | two finite JSON trees have equal canonical bytes iff they are equal up to key order and the sign of float zeros |
| `CanonicalJsonProofs.NormalizeIdempotent` | src/aecontrol/integrity.py:77-84 | normalising twice is normalising once |
| `CanonicalJsonProofs.PrintInjective` | src/aecontrol/integrity.py:41-48 | the printed text determines the value, even with more text after it |
| `CanonicalJsonReader.ReadPrinted` | src/aecontrol/integrity.py:41-48 | a reader after RFC 8259 reads the printed text as the value it was printed from |
| `CanonicalJsonReader.CanonicalBytesRead` | src/aecontrol/integrity.py:41-48 | the canonical bytes of a payload are read as the payload, normalised and with sorted keys |
| `CanonicalJsonProofs.SameIsCanon` | src/aecontrol/integrity.py:77-84 | equality up to key order and signed zeros is equality of the sorted normal forms |
| `Integrity.ArtifactDigestBinds` | src/aecontrol/integrity.py:37-38 | digests are equal for equal payloads, and otherwise only if the two canonical texts collide |
| `Integrity.SignatureMessageInjective` | src/aecontrol/integrity.py:387-388 | a signed message names one artifact type, one id and one digest |
| `DemandForecast.ForecastGpuDemand` | src/aecontrol/demand.py:17-129 | gives each refusal exactly when its check is the first to fail; the history begins at the later of its start and the lookback and holds whole hours only; each horizon hour has the occurrences, arrivals and mean of its slot; the load is the duration times what is queued, running and predicted, the capacity an hour of each worker for each hour; confidence and saturation follow from counts and from load against capacity |
| `DemandForecast.CountOccurrences` | src/aecontrol/demand.py:43-47 | the hour loop counts every slot of the history |
| `DemandForecast.CountArrivals` | src/aecontrol/demand.py:49-59 | the arrival loop sums by slot what falls into history and refuses a negative count |
| `DemandForecast.ArrivalsOccur` | src/aecontrol/demand.py:49-67 | a slot with arrivals has occurred, so no arrival is averaged away |
| `DemandForecast.WeeksReturnHistory` | src/aecontrol/demand.py:61-75 | over k whole weeks, predictions times occurrences give the counted history back k times |
| `DemandForecast.WholeWeeksAverage` | src/aecontrol/demand.py:61-78 | with m whole weeks of history a horizon of k weeks predicts k/m of it |
| `HourOfWeek.OccurrencesBalanced` | src/aecontrol/demand.py:43-47 | with n whole hours each slot is counted n/168 times, rounded down or up |
| `HourOfWeek.OccurrencesSum` | src/aecontrol/demand.py:43-47 | the counts of the 168 slots sum to n |
| `HourOfWeek.SameSlot` | src/aecontrol/demand.py:43-47 | two hours have the same weekday and hour iff whole weeks lie between them |
| `HourOfWeek.MondayBeginsTheWeek` | src/aecontrol/demand.py:43-47 | hour h of the day that many days after a Monday has that weekday and hour: weekdays count from Monday, hours from midnight |
| `HourOfWeek.WholeHours` | src/aecontrol/demand.py:132-138 | the counted hours are exactly those wholly between the earliest instant and the observation |
| `BundleFraming.UnframedFramed` | src/aecontrol/guardrails.py:30-37 | the byte stream decodes back to the very sequence of paths and contents, for all lengths below 2^64 |
| `BundleFraming.FramedUnframed` | src/aecontrol/guardrails.py:30-37 | every stream that decodes is the stream of what it decodes to |
| `BundleFraming.StreamNamesFiles` | src/aecontrol/guardrails.py:21-38 | two bundles have the same stream iff they hold the same files under the same paths |
| `BundleFraming.GuardrailBundle` | src/aecontrol/guardrails.py:21-38 | rejects what is no directory, lacks a configuration file or holds a symbolic link; else the stream describes exactly the files, in path order |
| `CheckpointSinks.ObjectStorage.Publish` | src/aecontrol/checkpoints.py:211-306 | creates the object where there was none, under prefix and key, with bytes, digest, compliance lock and a retention of the next whole second, and changes nothing else; succeeds iff the calls came in time and were answered, the bucket locks objects and the stored object passes the read-back |
| `CheckpointSinks.ObjectStorage.PublishReplicated` | src/aecontrol/checkpoints.py:344-369 | a destination has a receipt iff its calls came in time and were answered, its bucket locks objects and holds the right object, and is listed as failed iff not; published iff at least the required number of destinations delivered |
| `CheckpointSinks.CopiesLast` | src/aecontrol/checkpoints.py:211-369 | over any sequence of publications of any checkpoints to any destinations, whatever fails in each, an object once stored is still there unchanged, so a copy once held stays held |
| `CheckpointSinks.AcceptedIsExact` | src/aecontrol/checkpoints.py:265-295 | for checkpoints up to one MiB the read-back accepts exactly the canonical bytes, digest, lock mode and sufficient retention |
| `CheckpointSinks.AcceptedCheckpoint` | src/aecontrol/checkpoints.py:265-295 | what is accepted for a checkpoint of up to one MiB is read as that checkpoint, lies under its key and is retained as long as it asks |
| `CheckpointSinks.ReadBackStopsEarly` | src/aecontrol/checkpoints.py:265-283 | from one MiB plus one byte on it does not: a longer object passes at the limit, nothing passes beyond it |
| `CheckpointSinks.CheckpointReachesLimit` | src/aecontrol/checkpoints.py:41-49 | every checkpoint reaches that length under some signature: nothing bounds its bytes |
| `CheckpointSinks.CopiesAreIndependent` | src/aecontrol/checkpoints.py:309-369 | every successful publication, whatever buckets and network, leaves at least the required number of different objects iff one copy is required, or no two destinations share bucket and prefix, or the checkpoint is too long to be accepted at all |
| `CheckpointSinks.ReceivedIsDelivered` | src/aecontrol/checkpoints.py:344-369 | a receipt for exactly the destinations that delivered, a failure for exactly the others |
| `CheckpointSinks.OneObjectTwoCopies` | src/aecontrol/checkpoints.py:310-325 | for any replication with two required copies and two destinations of one bucket and prefix: a publication that succeeds with as many receipts as required and fewer objects |
| `CheckpointSinks.CheckpointsDoNotMeet` | src/aecontrol/checkpoints.py:128-133 | on one destination different checkpoints have different objects |
| `CheckpointSinks.Configure` | src/aecontrol/checkpoints.py:310-325 | accepts two to five destinations with distinct ids and a number of copies that fits; all of them by default |
| `CheckpointSinks.Deadline` | src/aecontrol/checkpoints.py:435-438 | the requested retention is a whole second, no earlier than asked and less than a second later |
| `CheckpointObjects.ObjectKeyInjective` | src/aecontrol/checkpoints.py:128-133 | an object key names one tenant, sequence, head and checkpoint id |
| `CheckpointObjects.PaddedLength` | src/aecontrol/checkpoints.py:131 | a sequence is padded to twenty digits |
| `CheckpointObjects.CheckpointFieldsSay` | src/aecontrol/checkpoints.py:41-49 | the stored JSON holds each part of a signed checkpoint under its name |
| `CheckpointObjects.CheckpointBytesRead` | src/aecontrol/checkpoints.py:48-49 | the stored bytes are read as JSON with exactly those members, sorted |
| `CheckpointObjects.CheckpointBytesInjective` | src/aecontrol/checkpoints.py:48-49 | the canonical bytes are those of one signed checkpoint only |
| `RunComparison.CompareRuns` | src/aecontrol/compare.py:18-74 | missing ids are the symmetric difference; each pair is classified by which of the two runs passed, and the lists and counts are those of the classes; aggregate times pairs, and slice deltas weighted by their pairs, both equal improved less regressed; an interval is given from ten pairs on, the bootstrap one, ordered and within the case deltas |
| `RunComparison.LastCounts` | src/aecontrol/compare.py:19-20 | of results with one case id the last counts |
| `RunComparison.ClassesPartition` | src/aecontrol/compare.py:29-45 | classes partition the pairs and the deltas sum to improved less regressed |
| `RunComparison.SwapNegates` | src/aecontrol/compare.py:29-45 | swapping the runs swaps improved and regressed, keeps the unchanged and negates the sum |
| `RunComparison.SliceComparisons` | src/aecontrol/compare.py:77-94 | one line per slice in name order, with its pairs and exact rates |
| `RunComparison.SlicesAddUp` | src/aecontrol/compare.py:77-94 | the weighted slice deltas add up to the deltas of their cases |
| `RunComparison.BootstrapInterval` | src/aecontrol/compare.py:97-106 | the interval is the means at ranks 12 and 487 among the sorted means of 500 resamples, whatever is drawn |
| `RunComparison.IntervalLies` | src/aecontrol/compare.py:97-106 | any such interval is ordered and lies between the least and the greatest delta |

## Left out

- The HTTP API, HTML pages, command line, SDKs, metrics text, authentication and scopes: plumbing.
- Key management services, S3 over HTTP, Kubernetes, model providers: foreign calls. A sink's network is a record of which calls were answered.
- The construction of the artifact keyring and the decoding of its keys: signing and verification are functions of algorithm, key id and message.
- The strength of SHA-256, HMAC and Ed25519: the hash is any function, signing any function whose results verify.
- PostgreSQL's concurrency control: each transaction is one step, locks taken by other transactions are a parameter of the claim, and a rollback leaves the state as it was.
- Schema migrations and the backfill of the ledger over older, divergent envelopes.
- Text encodings: characters are Unicode scalar values, so lone surrogates do not occur; a path's encoding is any injective function.
- Floating point: rates, predictions and utilisation are exact reals; a float in a JSON tree is the text Python prints for it; a compute capability that is not a number is absent, NaN is not modelled.
- `JsonbColumn.Column`: the reordering of keys, which no digest sees; numbers beyond the range of PostgreSQL's numeric type, which the column refuses; lone surrogates.
- Timestamps are integers of microseconds; in a checkpoint's digest they stand for the ISO text.
- Liveness: a job whose lease expires on its last attempt stays running, as `JobStore.ExhaustedLeaseIsStuck` shows.
- The estimated clearance seconds and the telemetry sums of the capacity forecast, and its per-profile duration estimates.
- `AugmentingPaths.FindFreeSlot`, `AugmentingPaths.FlipPath`: the source's nested loops are split into one method a loop, and its set of visited slots is the key set of the parent map.
- `EvaluationWorkers.MoveKeepsFence`: the worker is a state machine over its steps, not the class with its event loop; refreshing of capabilities is the choice of capabilities at each claim.
- `JobStore.QueueStore.EnqueueJob`: one tenant's queue; that a job id must be new among all tenants is stated by `FleetRollups.FleetTables.ChangeJob` only. Defaults that a suite's runtime label gives to a job are part of the request.
- `JobStore.QueueStore.LeaseJob`: which of several equally first rows is taken is left open, as SQL leaves it.
- `Recovery.CheckCheckpoint`: a key that the keyring does not know, which raises in the source, is a verification that fails.
- `Recovery.Verify`: drill id, times and database name in the report, and errors of the database other than tables that are missing.
- `FleetReport.FleetReport`: the order of tenants, which is the database's collation.
- `RunComparison.CompareRuns`: metric deltas, explanations and the random generator; draws are a parameter.
- `RunComparison.SwapNegates`: slices take their names from the baseline, so slice lines need not mirror when the runs are swapped.
- `DemandForecast.ForecastGpuDemand`: the check that timestamps carry a timezone; instants are UTC.
- `CheckpointSinks.ObjectStorage.Publish`: response headers (entity tag, version) of a receipt, and the validation of bucket and prefix names.
- `FileCheckpointSink`: its own documentation calls it a demonstration that trusts the host's administrators; it creates one file and compares bytes.
- The publication of recovery reports, which repeats the put and read-back of checkpoints on other bytes, and `build_guardrail_efficacy_report`, which counts the rows of one table.
- `Audit.VerifyArtifacts`: a missing signing key and a signature that does not verify are one reason; the expected and actual digests that a failure quotes are left out.
- Evaluators, runtimes, datasets, hardware detection, tracing.
