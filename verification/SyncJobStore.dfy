/** The job repository, the enqueuing service and the watchdog as they change the tables. */
module SyncJobStore {
  import opened JavaScript
  import opened SyncJobs
  import opened SyncProtocol
  import LockHash

  /** The job table and the outbox, which are written together. */
  datatype Tables = Tables(jobs: Jobs, outbox: seq<Event>)

  lemma {:induction false} LeastExists(jobs: Jobs, ids: set<JobId>)
    requires ids != {} && ids <= jobs.Keys
    ensures exists least :: least in ids && forall other :: other in ids ==> !Before(jobs[other], jobs[least])
  {
    var id :| id in ids;
    if ids != {id} {
      LeastExists(jobs, ids - {id});
      var least :| least in ids - {id} && forall other :: other in ids - {id} ==> !Before(jobs[other], jobs[least]);
      var best := if Before(jobs[id], jobs[least]) then id else least;
      assert forall other :: other in ids ==> other == id || other in ids - {id};
      assert best in ids && forall other :: other in ids ==> !Before(jobs[other], jobs[best]);
    } else {
      assert !Before(jobs[id], jobs[id]);
    }
  }

  /** A non-empty finite set has an element of least rank. */
  lemma {:induction false} LeastRankExists<T>(xs: set<T>, rank: T -> int)
    requires xs != {}
    ensures exists least :: least in xs && forall other :: other in xs ==> rank(least) <= rank(other)
  {
    var x :| x in xs;
    if xs != {x} {
      LeastRankExists(xs - {x}, rank);
      var least :| least in xs - {x} && forall other :: other in xs - {x} ==> rank(least) <= rank(other);
      var best := if rank(x) < rank(least) then x else least;
      assert forall other :: other in xs ==> other == x || other in xs - {x};
      assert best in xs && forall other :: other in xs ==> rank(best) <= rank(other);
    }
  }

  function LastUpdate(jobs: Jobs): JobId -> int {
    id => if id in jobs then jobs[id].updatedAt else 0
  }

  function PendingIds(jobs: Jobs, tenant: Tenant): set<JobId> {
    set id | id in jobs && PendingOf(jobs, tenant, id)
  }

  predicate Stuck(j: Job, cutoff: int) {
    j.status.Processing? && j.updatedAt < cutoff
  }

  function StuckIds(jobs: Jobs, cutoff: int): set<JobId> {
    set id | id in jobs && Stuck(jobs[id], cutoff)
  }

  /** Distinct jobs, in the order they were last updated. */
  predicate OldestFirst(jobs: Jobs, ids: seq<JobId>) {
    forall i, k :: 0 <= i < k < |ids| ==>
      ids[i] != ids[k] && ids[i] in jobs && ids[k] in jobs && jobs[ids[i]].updatedAt <= jobs[ids[k]].updatedAt
  }

  /** The index has room for a new row like this one. */
  ghost predicate KeyIsFree(jobs: Jobs, j: Job) {
    forall id :: id !in jobs ==> !Blocked(jobs, id, j)
  }

  /** Closing an in-flight job makes room for the next one of its key. */
  lemma ClosingFreesTheKey(jobs: Jobs, id: JobId, closed: Job)
    requires UniqueInFlight(jobs) && id in jobs && !InFlight(closed)
    ensures InFlight(jobs[id]) ==> KeyIsFree(jobs[id := closed], jobs[id])
  {
    if InFlight(jobs[id]) {
      forall other | other in jobs[id := closed] && InFlight(jobs[id := closed][other]) ensures !SameKey(jobs[other], jobs[id]) {
        assert other != id && jobs[other] == jobs[id := closed][other];
      }
    }
  }

  const TIMEOUT_MS := 10 * 60 * 1000

  /** The tables the synchronisation services share. Its validity is the partial unique index. */
  class SyncTables {
    var sources: map<Source, Versions>
    var jobs: Jobs
    var outbox: seq<Event>
    var now: nat

    ghost predicate Valid() reads this { UniqueInFlight(jobs) }

    constructor (sources: map<Source, Versions>)
      ensures Valid() && this.sources == sources && jobs == map[] && outbox == [] && now == 0
    {
      this.sources, jobs, outbox, now := sources, map[], [], 0;
    }

    method FindInFlightJob(source: Source, sourceVersion: nat) returns (found: Option<JobId>)
      ensures found.Some? ==> HoldsKey(jobs, found.value, source, sourceVersion)
      ensures found.None? ==> forall id :: id in jobs ==> !HoldsKey(jobs, id, source, sourceVersion)
    {
      if id :| id in jobs && HoldsKey(jobs, id, source, sourceVersion) {
        return Some(id);
      }
      return None;
    }

    /** Claiming takes the least pending job in claim order, and only that row changes. */
    method ClaimNextPendingJob(tenant: Tenant) returns (claimed: Option<JobId>)
      requires Valid()
      modifies this`jobs
      ensures Valid()
      ensures claimed.None? ==> jobs == old(jobs) && forall id :: id in jobs ==> !PendingOf(jobs, tenant, id)
      ensures claimed.Some? ==> NextToClaim(old(jobs), tenant, claimed.value)
      ensures forall id :: id in old(jobs) && PendingOf(old(jobs), tenant, id) && claimed.Some? && claimed.value in old(jobs) ==>
        && (old(jobs)[id].priority.Urgent? ==> old(jobs)[claimed.value].priority.Urgent?)
        && (old(jobs)[id].priority == old(jobs)[claimed.value].priority ==>
              old(jobs)[claimed.value].createdAt <= old(jobs)[id].createdAt)
      ensures claimed.Some? ==> jobs == old(jobs)[claimed.value := Claimed(old(jobs)[claimed.value], now)]
      ensures claimed.Some? ==> jobs[claimed.value].status.Processing? && jobs[claimed.value].startedAt == Some(now)
    {
      if PendingIds(jobs, tenant) == {} {
        assert forall id :: id in jobs && PendingOf(jobs, tenant, id) ==> id in PendingIds(jobs, tenant);
        return None;
      }
      LeastExists(jobs, PendingIds(jobs, tenant));
      var id :| id in PendingIds(jobs, tenant)
        && forall other :: other in PendingIds(jobs, tenant) ==> !Before(jobs[other], jobs[id]);
      jobs := jobs[id := Claimed(jobs[id], now)];
      return Some(id);
    }

    method UpdateProgress(id: JobId, processedUsers: nat, totalUsers: Option<nat>)
      requires Valid() && id in jobs
      modifies this`jobs
      ensures Valid() && jobs == old(jobs)[id := Progressed(old(jobs)[id], processedUsers, totalUsers, now)]
      ensures jobs[id].processedUsers == processedUsers && jobs[id].status == old(jobs)[id].status
      ensures jobs[id].totalUsers == if totalUsers.Some? then totalUsers else old(jobs)[id].totalUsers
      ensures !Stuck(jobs[id], now - TIMEOUT_MS)
      ensures forall t, k :: PendingOf(jobs, t, k) <==> PendingOf(old(jobs), t, k)
    {
      var j := jobs[id];
      j := j.(processedUsers := processedUsers, updatedAt := now);
      if totalUsers.Some? {
        j := j.(totalUsers := totalUsers);
      }
      jobs := jobs[id := j];
    }

    method MarkCompleted(id: JobId, processedUsers: nat)
      requires Valid() && id in jobs
      modifies this`jobs
      ensures Valid() && jobs == old(jobs)[id := MarkedCompleted(old(jobs)[id], processedUsers, now)]
      ensures jobs[id].status.Completed? && jobs[id].processedUsers == processedUsers
      ensures InFlight(old(jobs)[id]) ==> KeyIsFree(jobs, old(jobs)[id])
    {
      ClosingFreesTheKey(jobs, id, MarkedCompleted(jobs[id], processedUsers, now));
      jobs := jobs[id := jobs[id].(status := Completed, processedUsers := processedUsers, updatedAt := now)];
    }

    method MarkFailed(id: JobId)
      requires Valid() && id in jobs
      modifies this`jobs
      ensures Valid() && jobs == old(jobs)[id := MarkedFailed(old(jobs)[id], now)]
      ensures jobs[id].status.Failed? && jobs[id].processedUsers == old(jobs)[id].processedUsers
      ensures InFlight(old(jobs)[id]) ==> KeyIsFree(jobs, old(jobs)[id])
    {
      ClosingFreesTheKey(jobs, id, MarkedFailed(jobs[id], now));
      jobs := jobs[id := jobs[id].(status := Failed, updatedAt := now)];
    }

    method ReclaimStuckJob(id: JobId, nextRetryCount: nat)
      requires Valid() && id in jobs && jobs[id].status.Processing?
      modifies this`jobs
      ensures Valid() && jobs == old(jobs)[id := Reclaimed(old(jobs)[id], nextRetryCount, now)]
      ensures jobs[id].status.Pending? && jobs[id].retryCount == nextRetryCount && jobs[id].startedAt == None
      ensures PendingOf(jobs, old(jobs)[id].tenant, id) && HoldsKey(jobs, id, old(jobs)[id].source, old(jobs)[id].sourceVersion)
    {
      jobs := jobs[id := jobs[id].(status := Pending, retryCount := nextRetryCount, startedAt := None, updatedAt := now)];
    }

    /** All processing jobs not updated since the cutoff, longest stuck first. */
    method FindStuckProcessingJobs(cutoff: int) returns (ids: seq<JobId>)
      ensures forall id :: id in ids <==> id in StuckIds(jobs, cutoff)
      ensures OldestFirst(jobs, ids)
    {
      ids := [];
      var todo := StuckIds(jobs, cutoff);
      while todo != {}
        invariant todo <= StuckIds(jobs, cutoff)
        invariant forall id :: id in ids <==> id in StuckIds(jobs, cutoff) - todo
        invariant forall i, k :: 0 <= i < |ids| && k in todo ==> ids[i] in jobs && jobs[ids[i]].updatedAt <= jobs[k].updatedAt
        invariant OldestFirst(jobs, ids)
      {
        LeastRankExists(todo, LastUpdate(jobs));
        var id :| id in todo && forall other :: other in todo ==> LastUpdate(jobs)(id) <= LastUpdate(jobs)(other);
        assert id !in ids;
        ids, todo := ids + [id], todo - {id};
      }
    }

    /** createSyncJobTransactional: the job and its event together, or nothing when the index has no room. */
    method CreateSyncJob(newId: JobId, j: Job) returns (created: bool)
      requires Valid() && newId !in jobs && j.status.Pending?
      modifies this`jobs, this`outbox
      ensures Valid() && created == !Blocked(old(jobs), newId, j)
      ensures jobs == if created then old(jobs)[newId := j] else old(jobs)
      ensures outbox == if created then old(outbox) + [SyncRequested(newId)] else old(outbox)
    {
      created := !Blocked(jobs, newId, j);
      if created {
        jobs := jobs[newId := j];
        outbox := outbox + [SyncRequested(newId)];
      }
    }
  }

  datatype EnqueueError = SourceNotFound | NothingToRetry | UniqueViolation

  /** The response; AlreadySynchronized carries no job id. */
  datatype Answer = Existing(jobId: JobId) | Queued(jobId: JobId) | AlreadySynchronized | Rejected(error: EnqueueError)

  /** What other connections have made of the tables by the time of the insert, and by the time of the second look. */
  datatype Interleaving = Interleaving(atInsert: Tables, atRecheck: Tables)

  predicate Known(sources: map<Source, Versions>, tenant: Tenant, source: Source) {
    source in sources && sources[source].tenant == tenant
  }

  /** The version a request is for, once its source has been validated or taken on trust. */
  function VersionFor(sources: map<Source, Versions>, source: Source, sourceVersion: Option<nat>, ignoreValidateSource: bool): nat {
    if !ignoreValidateSource && source in sources then sources[source].version
    else if sourceVersion.Some? then sourceVersion.value else 1
  }

  ghost predicate Nobody(jobs: Jobs, source: Source, sourceVersion: nat) {
    forall id :: id in jobs ==> !HoldsKey(jobs, id, source, sourceVersion)
  }

  /** The row is new: it waits for its tenant's worker with the trigger and the priority asked for, and
      nothing has been done about it. */
  predicate QueuedAs(jobs: Jobs, id: JobId, tenant: Tenant, source: Source, triggerType: TriggerType, priority: Priority) {
    && id in jobs && jobs[id].tenant == tenant && jobs[id].source == source
    && jobs[id].triggerType == triggerType && jobs[id].priority == priority && jobs[id].status.Pending?
    && jobs[id].processedUsers == 0 && jobs[id].retryCount == 0 && jobs[id].totalUsers == None && jobs[id].startedAt == None
  }

  lemma NewJobIsQueued(jobs: Jobs, id: JobId, tenant: Tenant, source: Source, version: nat, triggerType: TriggerType,
                       priority: Priority, now: nat)
    ensures QueuedAs(jobs[id := NewJob(tenant, source, version, triggerType, priority, now)], id, tenant, source, triggerType, priority)
    ensures IsInFlight(jobs[id := NewJob(tenant, source, version, triggerType, priority, now)], id, source, version)
    ensures NewJob(tenant, source, version, triggerType, priority, now).status.Pending?
  {
  }

  lemma HolderIsInFlight(jobs: Jobs, id: JobId, source: Source, version: nat)
    requires HoldsKey(jobs, id, source, version)
    ensures IsInFlight(jobs, id, source, version)
  {
  }

  /** The job answers a request for this version of the source: it waits or runs. */
  predicate IsInFlight(jobs: Jobs, id: JobId, source: Source, version: nat) {
    && id in jobs && jobs[id].source == source && jobs[id].sourceVersion == version
    && (jobs[id].status == Pending || jobs[id].status == Processing)
  }

  /** enqueueSyncJob. Either the source is unknown, or it is clean and nothing happens, or the answer
      names a job in flight for the version; a row and an event are added in one case only. */
  method EnqueueSyncJob(t: SyncTables, tenant: Tenant, source: Source, sourceVersion: Option<nat>, triggerType: TriggerType,
                        priority: Priority, ignoreValidateSource: bool, newId: JobId, others: Interleaving)
    returns (answer: Answer)
    requires t.Valid() && UniqueInFlight(others.atInsert.jobs) && UniqueInFlight(others.atRecheck.jobs)
    requires newId !in others.atInsert.jobs
    modifies t`jobs, t`outbox
    ensures t.Valid()
    ensures answer == Rejected(SourceNotFound) <==> !ignoreValidateSource && !Known(t.sources, tenant, source)
    ensures answer == AlreadySynchronized <==>
      (!ignoreValidateSource && Known(t.sources, tenant, source) && t.sources[source].version <= t.sources[source].projectionVersion)
    ensures var version := VersionFor(t.sources, source, sourceVersion, ignoreValidateSource);
      var j := NewJob(tenant, source, version, triggerType, priority, t.now);
      match answer
      case Existing(id) => HoldsKey(t.jobs, id, source, version)
      case Queued(id) =>
        && id == newId && Nobody(old(t.jobs), source, version) && !Blocked(others.atInsert.jobs, newId, j)
        && t.jobs == others.atInsert.jobs[newId := j] && t.outbox == others.atInsert.outbox + [SyncRequested(newId)]
      case AlreadySynchronized => Tables(t.jobs, t.outbox) == Tables(old(t.jobs), old(t.outbox))
      case Rejected(SourceNotFound) => Tables(t.jobs, t.outbox) == Tables(old(t.jobs), old(t.outbox))
      case Rejected(UniqueViolation) => Blocked(others.atInsert.jobs, newId, j) && Nobody(others.atRecheck.jobs, source, version)
      case Rejected(NothingToRetry) => false
    ensures answer.Queued? ==> QueuedAs(t.jobs, newId, tenant, source, triggerType, priority)
    ensures answer.Existing? || answer.Queued? ==>
      IsInFlight(t.jobs, answer.jobId, source, if !ignoreValidateSource then t.sources[source].version
                                               else match sourceVersion case Some(v) => v case None => 1)
    ensures !answer.Queued? ==> Tables(t.jobs, t.outbox) in {Tables(old(t.jobs), old(t.outbox)), others.atRecheck}
  {
    hide Blocked, HoldsKey, UniqueInFlight, QueuedAs, IsInFlight, NewJob;
    var version := if sourceVersion.Some? then sourceVersion.value else 1;
    if !ignoreValidateSource {
      if !Known(t.sources, tenant, source) {
        return Rejected(SourceNotFound);
      }
      version := t.sources[source].version;
      if version <= t.sources[source].projectionVersion {
        return AlreadySynchronized;
      }
    }
    var inFlightJob := t.FindInFlightJob(source, version);
    if inFlightJob.Some? {
      HolderIsInFlight(t.jobs, inFlightJob.value, source, version);
      return Existing(inFlightJob.value);
    }
    t.jobs, t.outbox := others.atInsert.jobs, others.atInsert.outbox;
    NewJobIsQueued(t.jobs, newId, tenant, source, version, triggerType, priority, t.now);
    var created := t.CreateSyncJob(newId, NewJob(tenant, source, version, triggerType, priority, t.now));
    if created {
      return Queued(newId);
    }
    t.jobs, t.outbox := others.atRecheck.jobs, others.atRecheck.outbox;
    inFlightJob := t.FindInFlightJob(source, version);
    if inFlightJob.Some? {
      HolderIsInFlight(t.jobs, inFlightJob.value, source, version);
      return Existing(inFlightJob.value);
    }
    return Rejected(UniqueViolation);
  }

  /** retryFailedSync: only a dirty source is retried, with a manual trigger. */
  method RetryFailedSync(t: SyncTables, tenant: Tenant, source: Source, newId: JobId, others: Interleaving) returns (answer: Answer)
    requires t.Valid() && UniqueInFlight(others.atInsert.jobs) && UniqueInFlight(others.atRecheck.jobs)
    requires newId !in others.atInsert.jobs
    modifies t`jobs, t`outbox
    ensures t.Valid()
    ensures answer == Rejected(SourceNotFound) <==> !Known(t.sources, tenant, source)
    ensures answer == Rejected(NothingToRetry) <==>
      Known(t.sources, tenant, source) && t.sources[source].version <= t.sources[source].projectionVersion
    ensures answer != AlreadySynchronized
    ensures match answer
      case Existing(id) => source in t.sources && HoldsKey(t.jobs, id, source, t.sources[source].version)
      case Queued(id) =>
        && id == newId && source in t.sources
        && t.jobs == others.atInsert.jobs[newId := NewJob(tenant, source, t.sources[source].version, Manual, Standard, t.now)]
        && t.outbox == others.atInsert.outbox + [SyncRequested(newId)]
      case _ => true
    ensures answer.Queued? ==> QueuedAs(t.jobs, newId, tenant, source, Manual, Standard)
    ensures !answer.Queued? ==> Tables(t.jobs, t.outbox) in {Tables(old(t.jobs), old(t.outbox)), others.atRecheck}
  {
    if !Known(t.sources, tenant, source) {
      return Rejected(SourceNotFound);
    }
    var version := t.sources[source].version;
    if version <= t.sources[source].projectionVersion {
      return Rejected(NothingToRetry);
    }
    var inFlightJob := t.FindInFlightJob(source, version);
    if inFlightJob.Some? {
      HolderIsInFlight(t.jobs, inFlightJob.value, source, version);
      return Existing(inFlightJob.value);
    }
    answer := EnqueueSyncJob(t, tenant, source, Some(version), Manual, Standard, true, newId, others);
  }

  // --- the watchdog ---

  /** A sweep's effect on the job table. */
  function Swept(jobs: Jobs, ids: set<JobId>, now: nat): Jobs {
    map id | id in jobs :: if id in ids then Recovered(jobs[id], now) else jobs[id]
  }

  function GivenUp(jobs: Jobs, ids: set<JobId>): set<JobId> {
    set id | id in ids && id in jobs && jobs[id].retryCount >= MAX_RETRIES
  }

  function FailedEvents(ids: set<JobId>): multiset<Event> {
    multiset(set id | id in ids :: SyncFailed(id))
  }

  function ToSet(ids: seq<JobId>): set<JobId> {
    set id | id in ids
  }

  /** The body of the watchdog's loop: one stuck job reclaimed, or failed with its event. */
  method RecoverStuckJob(t: SyncTables, id: JobId)
    requires t.Valid() && id in t.jobs && t.jobs[id].status.Processing?
    modifies t`jobs, t`outbox
    ensures t.Valid() && t.jobs == old(t.jobs)[id := Recovered(old(t.jobs)[id], t.now)]
    ensures t.outbox == old(t.outbox) + if old(t.jobs)[id].retryCount >= MAX_RETRIES then [SyncFailed(id)] else []
  {
    var nextRetryCount := t.jobs[id].retryCount + 1;
    if nextRetryCount <= MAX_RETRIES {
      t.ReclaimStuckJob(id, nextRetryCount);
    } else {
      t.MarkFailed(id);
      t.outbox := t.outbox + [SyncFailed(id)];
    }
  }

  /** A sweep over these jobs took the first tables to the second. */
  ghost predicate SweptOver(before: Tables, ids: set<JobId>, now: nat, after: Tables) {
    && after.jobs == Swept(before.jobs, ids, now)
    && multiset(after.outbox) == multiset(before.outbox) + FailedEvents(GivenUp(before.jobs, ids))
  }

  predicate SameRow(before: Jobs, after: Jobs, id: JobId) {
    id in before && id in after && after[id] == before[id]
  }

  /** checkAndReclaimStuckJobs: every stuck job is either returned to the queue with one retry more, or,
      its retries used up, failed with an event; no other job moves, and the count is exact. */
  method CheckAndReclaimStuckJobs(t: SyncTables) returns (recoveredCount: nat)
    requires t.Valid()
    modifies t`jobs, t`outbox
    ensures t.Valid()
    ensures SweptOver(old(Tables(t.jobs, t.outbox)), StuckIds(old(t.jobs), t.now - TIMEOUT_MS), t.now, Tables(t.jobs, t.outbox))
    ensures recoveredCount == |StuckIds(old(t.jobs), t.now - TIMEOUT_MS)|
    ensures forall id :: id in old(t.jobs) ==> id in t.jobs && HandledByWatchdog(old(t.jobs)[id], t.jobs[id], t.now)
  {
    hide HandledByWatchdog, SweptOver, StuckIds, UniqueInFlight, OldestFirst, ToSet, StillStuck;
    var stuckJobs := t.FindStuckProcessingJobs(t.now - TIMEOUT_MS);
    ghost var before := Tables(t.jobs, t.outbox);
    recoveredCount := 0;
    StuckAreProcessing(before.jobs, t.now - TIMEOUT_MS, stuckJobs);
    SweptOverNothing(before, t.now);
    for i := 0 to |stuckJobs|
      invariant t.Valid() && SweptOver(before, ToSet(stuckJobs[..i]), t.now, Tables(t.jobs, t.outbox))
      invariant StillStuck(before.jobs, t.jobs, stuckJobs, i)
      invariant recoveredCount == |ToSet(stuckJobs[..i])|
    {
      var id := stuckJobs[i];
      NextStuck(before.jobs, t.jobs, stuckJobs, i, t.now);
      ghost var swept := Tables(t.jobs, t.outbox);
      RecoverStuckJob(t, id);
      recoveredCount := recoveredCount + 1;
      SweptOverGrows(before, ToSet(stuckJobs[..i]), t.now, swept, id, Tables(t.jobs, t.outbox));
    }
    assert stuckJobs[..|stuckJobs|] == stuckJobs;
    SweepMeans(before, t.now, Tables(t.jobs, t.outbox));
  }

  /** A job that has been processing without an update for ten minutes waits again with one retry more, up
      to three, and then fails; any other job is as it was. */
  predicate HandledByWatchdog(before: Job, after: Job, now: nat) {
    if before.status.Processing? && before.updatedAt + 600000 < now then
      if before.retryCount < 3 then
        after.status.Pending? && after.retryCount == before.retryCount + 1 && after.startedAt == None
      else after.status.Failed? && after.retryCount == before.retryCount
    else after == before
  }

  lemma SweepMeans(before: Tables, now: nat, after: Tables)
    requires SweptOver(before, StuckIds(before.jobs, now - TIMEOUT_MS), now, after)
    ensures forall id :: id in before.jobs ==> id in after.jobs && HandledByWatchdog(before.jobs[id], after.jobs[id], now)
  {
  }

  /** The jobs from i on are distinct, processing, and not touched yet. */
  ghost predicate StillStuck(before: Jobs, now: Jobs, ids: seq<JobId>, i: nat) {
    && (forall k :: i <= k < |ids| ==> SameRow(before, now, ids[k]) && before[ids[k]].status.Processing?)
    && (forall k, m :: 0 <= k < m < |ids| ==> ids[k] != ids[m])
  }

  lemma NextStuck(before: Jobs, now: Jobs, ids: seq<JobId>, i: nat, clock: nat)
    requires i < |ids| && StillStuck(before, now, ids, i)
    ensures SameRow(before, now, ids[i]) && before[ids[i]].status.Processing?
    ensures ids[i] !in ToSet(ids[..i]) && ToSet(ids[..i + 1]) == ToSet(ids[..i]) + {ids[i]}
    ensures StillStuck(before, now[ids[i] := Recovered(now[ids[i]], clock)], ids, i + 1)
  {
    assert ids[..i + 1] == ids[..i] + [ids[i]];
  }

  lemma StuckAreProcessing(jobs: Jobs, cutoff: int, ids: seq<JobId>)
    requires OldestFirst(jobs, ids) && forall id :: id in ids <==> id in StuckIds(jobs, cutoff)
    ensures StillStuck(jobs, jobs, ids, 0) && ToSet(ids) == StuckIds(jobs, cutoff) && ToSet(ids[..0]) == {}
  {
    forall i | 0 <= i < |ids| ensures SameRow(jobs, jobs, ids[i]) && jobs[ids[i]].status.Processing? {
      assert ids[i] in ids;
    }
  }

  lemma SweptOverNothing(before: Tables, now: nat)
    ensures SweptOver(before, {}, now, before)
  {
    assert GivenUp(before.jobs, {}) == {};
    assert (set id | id in GivenUp(before.jobs, {}) :: SyncFailed(id)) == {};
  }

  lemma SweptOverGrows(before: Tables, ids: set<JobId>, now: nat, swept: Tables, id: JobId, after: Tables)
    requires SweptOver(before, ids, now, swept) && id in before.jobs && id !in ids
    requires after.jobs == swept.jobs[id := Recovered(before.jobs[id], now)]
    requires after.outbox == swept.outbox + if before.jobs[id].retryCount >= MAX_RETRIES then [SyncFailed(id)] else []
    ensures SweptOver(before, ids + {id}, now, after)
  {
    if before.jobs[id].retryCount >= MAX_RETRIES {
      GivenUpGrows(before.jobs, ids, id);
    } else {
      assert GivenUp(before.jobs, ids + {id}) == GivenUp(before.jobs, ids);
    }
  }

  lemma GivenUpGrows(jobs: Jobs, ids: set<JobId>, id: JobId)
    requires id in jobs && jobs[id].retryCount >= MAX_RETRIES && id !in ids
    ensures FailedEvents(GivenUp(jobs, ids + {id})) == FailedEvents(GivenUp(jobs, ids)) + multiset{SyncFailed(id)}
  {
    assert GivenUp(jobs, ids + {id}) == GivenUp(jobs, ids) + {id};
    var few := set x | x in GivenUp(jobs, ids) :: SyncFailed(x);
    var more := set x | x in GivenUp(jobs, ids + {id}) :: SyncFailed(x);
    assert more == few + {SyncFailed(id)} && SyncFailed(id) !in few;
  }

  lemma RunAppend(s: State, steps: seq<Step>, step: Step)
    ensures Run(s, steps + [step]) == Next(Run(s, steps), step)
  {
    hide Next;
    assert (steps + [step])[..|steps|] == steps;
  }

  lemma RunTwo(s: State, first: Step, second: Step)
    ensures Run(s, [first, second]) == Next(Next(s, first), second)
  {
    hide Next;
    RunAppend(s, [first], second);
    assert [first, second] == [first] + [second];
    RunAppend(s, [], first);
    assert [first] == [] + [first];
  }

  lemma WatchdogNext(s: State, id: JobId)
    requires id in s.jobs && s.jobs[id].status.Processing?
    ensures Enabled(s, Watchdog(id)) && Next(s, Watchdog(id)) == WatchdogState(s, id)
  {
  }

  /** A sweep is a run of watchdog steps of the protocol, one for each stuck job. */
  lemma {:induction false} SweepIsARunOfTheProtocol(s: State, ids: seq<JobId>) returns (steps: seq<Step>)
    requires forall i :: 0 <= i < |ids| ==> ids[i] in s.jobs && s.jobs[ids[i]].status.Processing?
    requires forall i, k :: 0 <= i < k < |ids| ==> ids[i] != ids[k]
    ensures |steps| == |ids| && forall i :: 0 <= i < |ids| ==> steps[i] == Watchdog(ids[i])
    ensures var t := Run(s, steps);
      && SweptOver(Tables(s.jobs, s.outbox), ToSet(ids), s.clock, Tables(t.jobs, t.outbox))
      && t == s.(jobs := t.jobs, outbox := t.outbox)
  {
    hide Next, Enabled, FailedEvents, GivenUp;
    if ids == [] {
      steps := [];
      assert ToSet(ids) == {};
      SweptOverNothing(Tables(s.jobs, s.outbox), s.clock);
    } else {
      var front, id := ids[..|ids| - 1], ids[|ids| - 1];
      var shorter := SweepIsARunOfTheProtocol(s, front);
      steps := shorter + [Watchdog(id)];
      RunAppend(s, shorter, Watchdog(id));
      var m := Run(s, shorter);
      assert id !in ToSet(front) && m.jobs[id] == s.jobs[id];
      WatchdogNext(m, id);
      SweptOverGrows(Tables(s.jobs, s.outbox), ToSet(front), s.clock, Tables(m.jobs, m.outbox), id,
                     Tables(Run(s, steps).jobs, Run(s, steps).outbox));
      assert ToSet(ids) == ToSet(front) + {id};
    }
  }

  /** What claimNextPendingJob does is what a worker's Select and Claim steps do. */
  lemma ClaimIsARunOfTheProtocol(s: State, w: Actor, id: JobId)
    requires w in s.workers && s.workers[w].Locked? && UniqueInFlight(s.jobs) && NextToClaim(s.jobs, s.workers[w].tenant, id)
    ensures var t := Run(s, [Select(w, Some(id)), Claim(w)]);
      && t.jobs == s.jobs[id := Claimed(s.jobs[id], s.clock)] && t.outbox == s.outbox && t.locks == s.locks
      && t.workers == s.workers[w := Executing(s.workers[w].tenant, id)]
  {
    var selected := Next(s, Select(w, Some(id)));
    RunTwo(s, Select(w, Some(id)), Claim(w));
    hide Run, LockHash.WorkerLockId, FoundBy;
    assert selected.jobs == s.jobs && selected.workers[w] == Selected(s.workers[w].tenant, id);
    assert !Blocked(s.jobs, id, s.jobs[id]);
  }

  /** A call of enqueueSyncJob that nobody interferes with is a run of the enqueuer's steps. */
  lemma EnqueueIsARunOfTheProtocol(s: State, a: Actor, source: Source, triggerType: TriggerType, priority: Priority,
                                   ignoreValidateSource: bool, id: JobId)
    requires a !in s.enqueuers && source in s.sources && id !in s.jobs
    requires ignoreValidateSource || s.sources[source].version > s.sources[source].projectionVersion
    requires Nobody(s.jobs, source, s.sources[source].version)
    ensures var j := NewJob(s.sources[source].tenant, source, s.sources[source].version, triggerType, priority, s.clock);
      var t := Run(s, [Begin(a, source, triggerType, priority, ignoreValidateSource), LookUp(a, None), Insert(a, id, id)]);
      t.jobs == s.jobs[id := j] && t.outbox == s.outbox + [SyncRequested(id)] && a in t.enqueuers && t.enqueuers[a] == Returned(id)
  {
    var begin, lookUp, insert := Begin(a, source, triggerType, priority, ignoreValidateSource), LookUp(a, None), Insert(a, id, id);
    RunTwo(s, begin, lookUp);
    RunAppend(s, [begin, lookUp], insert);
    assert [begin, lookUp] + [insert] == [begin, lookUp, insert];
    hide Run, LockHash.WorkerLockId;
    var r := Request(source, s.sources[source].version, triggerType, priority);
    var begun := Next(s, begin);
    assert begun == s.(enqueuers := s.enqueuers[a := Resolved(r)]);
    assert FoundBy(begun, r, None);
    var looked := Next(begun, lookUp);
    assert looked.enqueuers[a] == NotFound(r) && looked.jobs == s.jobs && looked.sources == s.sources;
    NobodyMeansFree(s.jobs, id, RequestedJob(looked, r));
  }

  /** A call that others interfere with also follows the protocol: s0 is where it begins, s1 where it inserts,
      s2 where it looks again. Each of its four answers is what the enqueuer's next step makes of that state. */
  lemma InterferedEnqueueFollowsTheProtocol(s0: State, s1: State, s2: State, a: Actor, source: Source, triggerType: TriggerType,
                                            priority: Priority, ignoreValidateSource: bool, id: JobId, winner: JobId)
    requires a !in s0.enqueuers && source in s0.sources
    requires ignoreValidateSource || s0.sources[source].version > s0.sources[source].projectionVersion
    requires var r := Request(source, s0.sources[source].version, triggerType, priority);
      && a in s1.enqueuers && s1.enqueuers[a] == NotFound(r) && source in s1.sources && id !in s1.jobs
      && a in s2.enqueuers && s2.enqueuers[a] == Conflicted(r, winner)
    ensures var v := s0.sources[source].version;
      var r := Request(source, v, triggerType, priority);
      var begin, j := Begin(a, source, triggerType, priority, ignoreValidateSource), RequestedJob(s1, r);
      && (forall k :: HoldsKey(s0.jobs, k, source, v) ==>
            Run(s0, [begin, LookUp(a, Some(k))]) == s0.(enqueuers := s0.enqueuers[a := Returned(k)]))
      && (Nobody(s0.jobs, source, v) ==> Run(s0, [begin, LookUp(a, None)]) == s0.(enqueuers := s0.enqueuers[a := NotFound(r)]))
      && (Blocks(s1.jobs, winner, id, j) ==>
            Next(s1, Insert(a, id, winner)) == s1.(enqueuers := s1.enqueuers[a := Conflicted(r, winner)]))
      && (!Blocked(s1.jobs, id, j) ==>
            Next(s1, Insert(a, id, winner)).jobs == s1.jobs[id := j]
            && Next(s1, Insert(a, id, winner)).outbox == s1.outbox + [SyncRequested(id)])
      && (forall k :: HoldsKey(s2.jobs, k, source, v) ==>
            Next(s2, Resolve(a, Some(k))) == s2.(enqueuers := s2.enqueuers[a := Returned(k)]))
      && (Nobody(s2.jobs, source, v) ==> Next(s2, Resolve(a, None)) == s2.(enqueuers := s2.enqueuers[a := Rethrown]))
  {
    var v := s0.sources[source].version;
    var r := Request(source, v, triggerType, priority);
    var begin := Begin(a, source, triggerType, priority, ignoreValidateSource);
    LookUpAfterBegin(s0, a, source, triggerType, priority, ignoreValidateSource);
    InsertFollows(s1, a, r, id, winner);
    ResolveFollows(s2, a, r, winner);
  }

  lemma LookUpAfterBegin(s: State, a: Actor, source: Source, triggerType: TriggerType, priority: Priority, ignoreValidateSource: bool)
    requires a !in s.enqueuers && source in s.sources
    requires ignoreValidateSource || s.sources[source].version > s.sources[source].projectionVersion
    ensures var v := s.sources[source].version;
      var r, begin := Request(source, v, triggerType, priority), Begin(a, source, triggerType, priority, ignoreValidateSource);
      && (forall k :: HoldsKey(s.jobs, k, source, v) ==>
            Run(s, [begin, LookUp(a, Some(k))]) == s.(enqueuers := s.enqueuers[a := Returned(k)]))
      && (Nobody(s.jobs, source, v) ==> Run(s, [begin, LookUp(a, None)]) == s.(enqueuers := s.enqueuers[a := NotFound(r)]))
  {
    hide Run, Next, HoldsKey;
    var v := s.sources[source].version;
    var r, begin := Request(source, v, triggerType, priority), Begin(a, source, triggerType, priority, ignoreValidateSource);
    BeginFollows(s, a, source, triggerType, priority, ignoreValidateSource);
    var begun := Next(s, begin);
    forall k | HoldsKey(s.jobs, k, source, v)
      ensures Run(s, [begin, LookUp(a, Some(k))]) == s.(enqueuers := s.enqueuers[a := Returned(k)])
    {
      RunTwo(s, begin, LookUp(a, Some(k)));
      LookUpFollows(begun, a, r, Some(k));
    }
    if Nobody(s.jobs, source, v) {
      RunTwo(s, begin, LookUp(a, None));
      LookUpFollows(begun, a, r, None);
    }
  }

  lemma BeginFollows(s: State, a: Actor, source: Source, triggerType: TriggerType, priority: Priority, ignoreValidateSource: bool)
    requires a !in s.enqueuers && source in s.sources
    requires ignoreValidateSource || s.sources[source].version > s.sources[source].projectionVersion
    ensures Next(s, Begin(a, source, triggerType, priority, ignoreValidateSource))
      == s.(enqueuers := s.enqueuers[a := Resolved(Request(source, s.sources[source].version, triggerType, priority))])
  {
  }

  lemma LookUpFollows(s: State, a: Actor, r: Request, found: Option<JobId>)
    requires a in s.enqueuers && s.enqueuers[a] == Resolved(r) && FoundBy(s, r, found)
    ensures Next(s, LookUp(a, found))
      == s.(enqueuers := s.enqueuers[a := if found.Some? then Returned(found.value) else NotFound(r)])
  {
    hide FoundBy;
  }

  lemma InsertFollows(s: State, a: Actor, r: Request, id: JobId, winner: JobId)
    requires a in s.enqueuers && s.enqueuers[a] == NotFound(r) && r.source in s.sources && id !in s.jobs
    ensures var j, t := RequestedJob(s, r), Next(s, Insert(a, id, winner));
      && (Blocks(s.jobs, winner, id, j) ==> t == s.(enqueuers := s.enqueuers[a := Conflicted(r, winner)]))
      && (!Blocked(s.jobs, id, j) ==> t.jobs == s.jobs[id := j] && t.outbox == s.outbox + [SyncRequested(id)])
  {
    hide RequestedJob, LockHash.WorkerLockId;
  }

  lemma ResolveFollows(s: State, a: Actor, r: Request, winner: JobId)
    requires a in s.enqueuers && s.enqueuers[a] == Conflicted(r, winner)
    ensures forall k :: HoldsKey(s.jobs, k, r.source, r.sourceVersion) ==>
      Next(s, Resolve(a, Some(k))) == s.(enqueuers := s.enqueuers[a := Returned(k)])
    ensures Nobody(s.jobs, r.source, r.sourceVersion) ==>
      Next(s, Resolve(a, None)) == s.(enqueuers := s.enqueuers[a := Rethrown])
  {
    hide HoldsKey, LockHash.WorkerLockId;
  }

  lemma NobodyMeansFree(jobs: Jobs, id: JobId, j: Job)
    ensures Nobody(jobs, j.source, j.sourceVersion) ==> !Blocked(jobs, id, j)
  {
    if Blocked(jobs, id, j) {
      var other :| other in jobs && Blocks(jobs, other, id, j);
      assert HoldsKey(jobs, other, j.source, j.sourceVersion);
    }
  }
}
