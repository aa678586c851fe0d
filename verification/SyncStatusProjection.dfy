/** SyncStatusProjectionService: the status shown for a source, and a tenant's summary. */
module SyncStatusProjection {
  import opened JavaScript
  import opened SyncJobs
  import opened SyncProtocol
  import opened SyncJobStore
  import SyncGuarantees

  datatype ComputedStatus = InSync | Waiting | Running | Broken

  datatype NextSync = NoneExpected | ScheduledDaily | ManualInFlight

  datatype ActiveJob = ActiveJob(jobId: JobId, processed: nat, total: nat, hasError: bool, retryable: bool)

  datatype Computed = Computed(status: ComputedStatus, next: NextSync, activeJob: Option<ActiveJob>)

  function Detail(id: JobId, j: Job, failed: bool): Option<ActiveJob> {
    Some(ActiveJob(id, j.processedUsers, if j.totalUsers.Some? then j.totalUsers.value else 0, failed, failed))
  }

  function Expected(j: Job): NextSync {
    if j.triggerType.Manual? then ManualInFlight else ScheduledDaily
  }

  /** computeStatus. */
  function ComputeStatus(version: nat, projectionVersion: nat, jobs: Jobs, latest: Option<JobId>): Computed
    requires latest.Some? ==> latest.value in jobs
  {
    if latest.Some? && jobs[latest.value].status.Processing? then
      Computed(Running, Expected(jobs[latest.value]), Detail(latest.value, jobs[latest.value], false))
    else if latest.Some? && jobs[latest.value].status.Pending? then
      Computed(Waiting, Expected(jobs[latest.value]), Detail(latest.value, jobs[latest.value], false))
    else if latest.Some? && jobs[latest.value].status.Failed? && version > projectionVersion then
      Computed(Broken, ScheduledDaily, Detail(latest.value, jobs[latest.value], true))
    else if version > projectionVersion then Computed(Waiting, ScheduledDaily, None)
    else Computed(InSync, NoneExpected, None)
  }

  /** findLatestJobBySource. */
  predicate IsLatest(jobs: Jobs, source: Source, latest: Option<JobId>) {
    match latest
    case None => forall id :: id in jobs ==> jobs[id].source != source
    case Some(l) =>
      && l in jobs && jobs[l].source == source
      && forall id :: id in jobs && jobs[id].source == source ==> jobs[id].createdAt <= jobs[l].createdAt
  }

  function Recency(jobs: Jobs, id: JobId): int {
    if id in jobs then 0 - (jobs[id].createdAt as int) else 0
  }

  /** Newer jobs rank lower. */
  function Newest(jobs: Jobs): JobId -> int {
    (id: JobId) => Recency(jobs, id)
  }

  method FindLatestJobBySource(t: SyncTables, source: Source) returns (latest: Option<JobId>)
    ensures IsLatest(t.jobs, source, latest)
  {
    var own := set id | id in t.jobs && t.jobs[id].source == source;
    if own == {} {
      assert forall id :: id in t.jobs && t.jobs[id].source == source ==> id in own;
      return None;
    }
    LeastRankExists<JobId>(own, Newest(t.jobs));
    var l :| l in own && forall id :: id in own ==> Newest(t.jobs)(l) <= Newest(t.jobs)(id);
    forall id | id in t.jobs && t.jobs[id].source == source ensures t.jobs[id].createdAt <= t.jobs[l].createdAt {
      assert id in own;
      assert Newest(t.jobs)(l) <= Newest(t.jobs)(id);
    }
    return Some(l);
  }

  predicate LatestHas(jobs: Jobs, latest: Option<JobId>, status: Status) {
    latest.Some? && latest.value in jobs && jobs[latest.value].status == status
  }

  /** In every reachable state the shown status says exactly how the source stands: in sync iff it is
      not dirty and its latest job is not in flight, and a failure is shown only while it still matters. */
  lemma StatusIsExact(s: State, x: Source, latest: Option<JobId>)
    requires SyncGuarantees.Reachable(s) && x in s.sources && IsLatest(s.jobs, x, latest)
    ensures var c := ComputeStatus(s.sources[x].version, s.sources[x].projectionVersion, s.jobs, latest);
      var dirty := s.sources[x].version != s.sources[x].projectionVersion;
      var inFlight := LatestHas(s.jobs, latest, Pending) || LatestHas(s.jobs, latest, Processing);
      && (c.status.InSync? <==> !dirty && !inFlight)
      && (c.status.Running? <==> LatestHas(s.jobs, latest, Processing))
      && (c.status.Broken? <==> dirty && LatestHas(s.jobs, latest, Failed))
      && (c.status.Waiting? <==> LatestHas(s.jobs, latest, Pending)
                                 || (dirty && (latest.None? || LatestHas(s.jobs, latest, Completed))))
      && (c.activeJob.Some? <==> inFlight || c.status.Broken?)
      && (c.activeJob.Some? ==>
            var shown, j := c.activeJob.value, s.jobs[latest.value];
            && shown.jobId == latest.value && shown.processed == j.processedUsers
            && shown.total == (match j.totalUsers case Some(n) => n case None => 0)
            && shown.hasError == c.status.Broken? && shown.retryable == c.status.Broken?)
      && (c.next.NoneExpected? <==> c.status.InSync?)
      && (c.next.ManualInFlight? <==> inFlight && s.jobs[latest.value].triggerType.Manual?)
  {
    hide Inv, Run;
    SyncGuarantees.DirtyTestsAgree(s, x);
  }

  /** Which job is the latest is never in doubt. */
  lemma LatestJobIsUnique(s: State, x: Source, a: JobId, b: JobId)
    requires SyncGuarantees.Reachable(s) && IsLatest(s.jobs, x, Some(a)) && IsLatest(s.jobs, x, Some(b))
    ensures a == b
  {
    hide VersionsOrdered, AnswersExist, LocksOwned, WorkersHaveJobs, ClaimsPaid, EventsMatchJobs, UniqueInFlight, Run;
    SyncGuarantees.ReachableHasInv(s);
  }

  datatype Summary = Summary(totalEntities: nat, completed: nat, pending: nat, processing: nat, failed: nat)

  function StatusOf(sources: map<Source, Versions>, jobs: Jobs, x: Source, latest: Option<JobId>): ComputedStatus
    requires x in sources && (latest.Some? ==> latest.value in jobs)
  {
    ComputeStatus(sources[x].version, sources[x].projectionVersion, jobs, latest).status
  }

  /** The status shown for a source. */
  ghost predicate Shows(sources: map<Source, Versions>, jobs: Jobs, x: Source, status: ComputedStatus) {
    x in sources && exists latest :: IsLatest(jobs, x, latest) && StatusOf(sources, jobs, x, latest) == status
  }

  /** getTenantSummary over the tenant's active groups and its roles: each counter counts the
      entities of its status, and together they count every entity. */
  method GetTenantSummary(t: SyncTables, entities: seq<Source>) returns (summary: Summary, ghost shown: seq<ComputedStatus>)
    requires forall i :: 0 <= i < |entities| ==> entities[i] in t.sources
    ensures |shown| == |entities| && forall i :: 0 <= i < |entities| ==> Shows(t.sources, t.jobs, entities[i], shown[i])
    ensures summary.totalEntities == |entities|
    ensures summary.completed + summary.pending + summary.processing + summary.failed == summary.totalEntities
    ensures summary.completed == multiset(shown)[InSync] && summary.pending == multiset(shown)[Waiting]
    ensures summary.processing == multiset(shown)[Running] && summary.failed == multiset(shown)[Broken]
  {
    hide ComputeStatus;
    var completed, pending, processing, failed := 0, 0, 0, 0;
    shown := [];
    for i := 0 to |entities|
      invariant |shown| == i && forall k :: 0 <= k < i ==> Shows(t.sources, t.jobs, entities[k], shown[k])
      invariant completed + pending + processing + failed == i
      invariant completed == multiset(shown)[InSync] && pending == multiset(shown)[Waiting]
      invariant processing == multiset(shown)[Running] && failed == multiset(shown)[Broken]
    {
      var entity := entities[i];
      var latestJob := FindLatestJobBySource(t, entity);
      var computed := ComputeStatus(t.sources[entity].version, t.sources[entity].projectionVersion, t.jobs, latestJob);
      assert StatusOf(t.sources, t.jobs, entity, latestJob) == computed.status;
      shown := shown + [computed.status];
      match computed.status {
        case InSync => completed := completed + 1;
        case Waiting => pending := pending + 1;
        case Running => processing := processing + 1;
        case Broken => failed := failed + 1;
      }
    }
    summary := Summary(|entities|, completed, pending, processing, failed);
  }
}
