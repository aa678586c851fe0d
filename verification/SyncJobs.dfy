/** Synchronisation jobs, and what each repository method writes to a job row. */
module SyncJobs {
  import opened JavaScript
  import LockHash

  type Tenant = LockHash.Key

  type JobId = nat

  datatype SourceKind = UserGroup | Role

  datatype Source = Source(kind: SourceKind, id: string)

  datatype TriggerType = Manual | Scheduled | System

  datatype Priority = Urgent | Standard

  datatype Status = Pending | Processing | Completed | Failed

  datatype Job = Job(
    tenant: Tenant,
    source: Source,
    sourceVersion: nat,
    triggerType: TriggerType,
    priority: Priority,
    status: Status,
    totalUsers: Option<nat>,
    processedUsers: nat,
    retryCount: nat,
    createdAt: nat,
    updatedAt: nat,
    startedAt: Option<nat>)

  type Jobs = map<JobId, Job>

  datatype Event = SyncRequested(jobId: JobId) | SyncCompleted(jobId: JobId) | SyncFailed(jobId: JobId)

  const MAX_RETRIES := 3

  predicate InFlight(j: Job) {
    j.status.Pending? || j.status.Processing?
  }

  /** The columns of the partial unique index uq_authz_sync_jobs_in_flight. */
  predicate SameKey(a: Job, b: Job) {
    a.tenant == b.tenant && a.source == b.source && a.sourceVersion == b.sourceVersion
  }

  /** An in-flight row, other than id's own, has the index entry that j would take. */
  predicate Blocks(jobs: Jobs, other: JobId, id: JobId, j: Job) {
    other in jobs && other != id && InFlight(jobs[other]) && SameKey(jobs[other], j)
  }

  predicate Blocked(jobs: Jobs, id: JobId, j: Job) {
    exists other :: other in jobs && Blocks(jobs, other, id, j)
  }

  /** What findInFlightJob looks for. */
  predicate HoldsKey(jobs: Jobs, id: JobId, source: Source, sourceVersion: nat) {
    id in jobs && InFlight(jobs[id]) && jobs[id].source == source && jobs[id].sourceVersion == sourceVersion
  }

  ghost predicate UniqueInFlight(jobs: Jobs) {
    forall a, b :: a in jobs && b in jobs && InFlight(jobs[a]) && InFlight(jobs[b]) && SameKey(jobs[a], jobs[b]) ==> a == b
  }

  function NewJob(tenant: Tenant, source: Source, sourceVersion: nat, triggerType: TriggerType, priority: Priority, now: nat): Job {
    Job(tenant, source, sourceVersion, triggerType, priority, Pending, None, 0, 0, now, now, None)
  }

  function Claimed(j: Job, now: nat): Job {
    j.(status := Processing, startedAt := Some(now), updatedAt := now)
  }

  function Progressed(j: Job, processedUsers: nat, totalUsers: Option<nat>, now: nat): Job {
    j.(processedUsers := processedUsers, totalUsers := if totalUsers.Some? then totalUsers else j.totalUsers, updatedAt := now)
  }

  function MarkedCompleted(j: Job, processedUsers: nat, now: nat): Job {
    j.(status := Completed, processedUsers := processedUsers, updatedAt := now)
  }

  function MarkedFailed(j: Job, now: nat): Job {
    j.(status := Failed, updatedAt := now)
  }

  function Reclaimed(j: Job, nextRetryCount: nat, now: nat): Job {
    j.(status := Pending, retryCount := nextRetryCount, startedAt := None, updatedAt := now)
  }

  /** One watchdog decision on a stuck job. */
  function Recovered(j: Job, now: nat): Job {
    if j.retryCount + 1 <= MAX_RETRIES then Reclaimed(j, j.retryCount + 1, now) else MarkedFailed(j, now)
  }

  predicate PendingOf(jobs: Jobs, tenant: Tenant, id: JobId) {
    id in jobs && jobs[id].tenant == tenant && jobs[id].status.Pending?
  }

  function Rank(p: Priority): nat {
    if p.Urgent? then 1 else 2
  }

  /** The claim order: urgent first, then oldest. */
  predicate Before(a: Job, b: Job) {
    Rank(a.priority) < Rank(b.priority) || (a.priority == b.priority && a.createdAt < b.createdAt)
  }

  /** The row the claiming query returns. */
  predicate NextToClaim(jobs: Jobs, tenant: Tenant, id: JobId) {
    PendingOf(jobs, tenant, id) && forall other :: other in jobs && PendingOf(jobs, tenant, other) ==> !Before(jobs[other], jobs[id])
  }
}
