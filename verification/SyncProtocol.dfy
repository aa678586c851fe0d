/** The synchronisation protocol: enqueuers, workers, the watchdog and administrators as one
    transition system, every step being one statement or one transaction of the program. */
module SyncProtocol {
  import opened JavaScript
  import opened SyncJobs
  import LockHash

  type Actor = nat

  /** A role or a user group, with its version counters. */
  datatype Versions = Versions(tenant: Tenant, version: nat, projectionVersion: nat)

  datatype Request = Request(source: Source, sourceVersion: nat, triggerType: TriggerType, priority: Priority)

  /** Where one call of enqueueSyncJob stands. */
  datatype Enqueuer =
    | Resolved(request: Request)
    | NotFound(request: Request)
    | Conflicted(request: Request, winner: JobId)
    | Returned(jobId: JobId)
    | NothingToDo
    | Rethrown

  /** Where one call of processNextJob stands. A detached worker has lost its database session,
      and with it the lock, but still runs its job. */
  datatype Worker =
    | Locked(tenant: Tenant)
    | Selected(tenant: Tenant, jobId: JobId)
    | Executing(tenant: Tenant, jobId: JobId)
    | Detached(jobId: JobId)

  /** claims counts how often each job was claimed; it is history, not a column. */
  datatype State = State(
    sources: map<Source, Versions>,
    jobs: Jobs,
    outbox: seq<Event>,
    enqueuers: map<Actor, Enqueuer>,
    workers: map<Actor, Worker>,
    locks: map<nat, Actor>,
    clock: nat,
    claims: map<JobId, nat>)

  datatype Step =
    | CreateSource(source: Source, tenant: Tenant)
    | AdminUpdate(source: Source)
    | Begin(actor: Actor, source: Source, triggerType: TriggerType, priority: Priority, ignoreValidateSource: bool)
    | LookUp(actor: Actor, found: Option<JobId>)
    | Insert(actor: Actor, jobId: JobId, winner: JobId)
    | Resolve(actor: Actor, found: Option<JobId>)
    | Leave(actor: Actor)
    | Acquire(worker: Actor, tenant: Tenant)
    | Select(worker: Actor, next: Option<JobId>)
    | Claim(worker: Actor)
    | Progress(worker: Actor, processedUsers: nat, totalUsers: Option<nat>)
    | Reconcile(worker: Actor)
    | Finish(worker: Actor, processedUsers: nat)
    | Fail(worker: Actor)
    | Detach(worker: Actor)
    | Crash(worker: Actor)
    | Watchdog(jobId: JobId)

  function Init(): State {
    State(map[], map[], [], map[], map[], map[], 0, map[])
  }

  /** The request's key is held by this in-flight job. */
  predicate Holds(s: State, id: JobId, r: Request) {
    HoldsKey(s.jobs, id, r.source, r.sourceVersion)
  }

  predicate FoundBy(s: State, r: Request, found: Option<JobId>) {
    match found
    case Some(id) => Holds(s, id, r)
    case None => forall id :: id in s.jobs ==> !Holds(s, id, r)
  }

  function TenantOfWorker(w: Worker): Option<Tenant> {
    match w
    case Locked(t) => Some(t)
    case Selected(t, _) => Some(t)
    case Executing(t, _) => Some(t)
    case Detached(_) => None
  }

  function Unlocked(s: State, worker: Actor): map<nat, Actor>
    requires worker in s.workers
  {
    var t := TenantOfWorker(s.workers[worker]);
    if t.Some? then s.locks - {LockHash.WorkerLockId(t.value)} else s.locks
  }

  predicate Runs(w: Worker) {
    w.Executing? || w.Detached?
  }

  /** The row an insert writes for a request. */
  function RequestedJob(s: State, r: Request): Job
    requires r.source in s.sources
  {
    NewJob(s.sources[r.source].tenant, r.source, r.sourceVersion, r.triggerType, r.priority, s.clock)
  }

  /** When a step can happen. */
  predicate Enabled(s: State, step: Step) {
    match step
    case CreateSource(source, _) => source !in s.sources
    case AdminUpdate(source) => source in s.sources
    case Begin(a, source, _, _, _) => a !in s.enqueuers && source in s.sources
    case LookUp(a, found) => a in s.enqueuers && s.enqueuers[a].Resolved? && FoundBy(s, s.enqueuers[a].request, found)
    case Insert(a, id, winner) =>
      && a in s.enqueuers && s.enqueuers[a].NotFound? && id !in s.jobs
      && s.enqueuers[a].request.source in s.sources
      && (Blocks(s.jobs, winner, id, RequestedJob(s, s.enqueuers[a].request)) || !Blocked(s.jobs, id, RequestedJob(s, s.enqueuers[a].request)))
    case Resolve(a, found) => a in s.enqueuers && s.enqueuers[a].Conflicted? && FoundBy(s, s.enqueuers[a].request, found)
    case Leave(a) => a in s.enqueuers
    case Acquire(w, tenant) => w !in s.workers && LockHash.WorkerLockId(tenant) !in s.locks
    case Select(w, next) => w in s.workers && s.workers[w].Locked? &&
      (match next
       case Some(id) => NextToClaim(s.jobs, s.workers[w].tenant, id)
       case None => forall id :: id in s.jobs ==> !PendingOf(s.jobs, s.workers[w].tenant, id))
    case Claim(w) => w in s.workers && s.workers[w].Selected? && s.workers[w].jobId in s.jobs
    case Progress(w, _, _) => w in s.workers && Runs(s.workers[w]) && s.workers[w].jobId in s.jobs
    case Reconcile(w) =>
      && w in s.workers && Runs(s.workers[w]) && s.workers[w].jobId in s.jobs
      && s.jobs[s.workers[w].jobId].source.kind.UserGroup?
    case Finish(w, _) => w in s.workers && Runs(s.workers[w]) && s.workers[w].jobId in s.jobs
    case Fail(w) => w in s.workers && Runs(s.workers[w]) && s.workers[w].jobId in s.jobs
    case Detach(w) => w in s.workers && s.workers[w].Executing?
    case Crash(w) => w in s.workers
    case Watchdog(id) => id in s.jobs && s.jobs[id].status.Processing?
  }

  function BeginState(s: State, a: Actor, source: Source, triggerType: TriggerType, priority: Priority, ignoreValidateSource: bool): State
    requires source in s.sources
  {
    var v := s.sources[source];
    if !ignoreValidateSource && v.version <= v.projectionVersion then s.(enqueuers := s.enqueuers[a := NothingToDo])
    else s.(enqueuers := s.enqueuers[a := Resolved(Request(source, v.version, triggerType, priority))])
  }

  /** The insert transaction: the job row and its outbox event, or a unique violation. */
  function InsertState(s: State, a: Actor, id: JobId, winner: JobId): State
    requires Enabled(s, Insert(a, id, winner))
  {
    var r := s.enqueuers[a].request;
    if Blocks(s.jobs, winner, id, RequestedJob(s, r)) then s.(enqueuers := s.enqueuers[a := Conflicted(r, winner)])
    else s.(
      jobs := s.jobs[id := RequestedJob(s, r)],
      outbox := s.outbox + [SyncRequested(id)],
      enqueuers := s.enqueuers[a := Returned(id)],
      clock := s.clock + 1,
      claims := s.claims[id := 0])
  }

  /** The claiming update of a selected job. It fails when the index forbids the row, and the
      error releases the lock. */
  function ClaimState(s: State, w: Actor): State
    requires Enabled(s, Claim(w))
  {
    var id, tenant := s.workers[w].jobId, s.workers[w].tenant;
    if Blocked(s.jobs, id, s.jobs[id]) then s.(locks := Unlocked(s, w), workers := s.workers - {w})
    else s.(
      jobs := s.jobs[id := Claimed(s.jobs[id], s.clock)],
      workers := s.workers[w := Executing(tenant, id)],
      claims := s.claims[id := (if id in s.claims then s.claims[id] else 0) + 1])
  }

  /** updateProjectionVersion: setting a source's projection version, if the source exists. */
  function Projected(sources: map<Source, Versions>, source: Source, version: nat): map<Source, Versions> {
    if source in sources then sources[source := sources[source].(projectionVersion := version)] else sources
  }

  /** The finalising transaction: the projection version, the job, its event; then the lock. */
  function FinishState(s: State, w: Actor, processedUsers: nat): State
    requires Enabled(s, Finish(w, processedUsers))
  {
    var id := s.workers[w].jobId;
    var j := s.jobs[id];
    s.(
      sources := Projected(s.sources, j.source, j.sourceVersion),
      jobs := s.jobs[id := MarkedCompleted(j, processedUsers, s.clock)],
      outbox := s.outbox + [SyncCompleted(id)],
      locks := Unlocked(s, w),
      workers := s.workers - {w})
  }

  function FailState(s: State, w: Actor): State
    requires Enabled(s, Fail(w))
  {
    var id := s.workers[w].jobId;
    s.(jobs := s.jobs[id := MarkedFailed(s.jobs[id], s.clock)], outbox := s.outbox + [SyncFailed(id)],
       locks := Unlocked(s, w), workers := s.workers - {w})
  }

  /** One watchdog read and write of one stuck job, taken together. */
  function WatchdogState(s: State, id: JobId): State
    requires Enabled(s, Watchdog(id))
  {
    var j := Recovered(s.jobs[id], s.clock);
    s.(jobs := s.jobs[id := j], outbox := if j.status.Failed? then s.outbox + [SyncFailed(id)] else s.outbox)
  }

  function SelectState(s: State, w: Actor, next: Option<JobId>): State
    requires Enabled(s, Select(w, next))
  {
    match next
    case Some(id) => s.(workers := s.workers[w := Selected(s.workers[w].tenant, id)])
    case None => s.(locks := Unlocked(s, w), workers := s.workers - {w})
  }

  function FoundState(s: State, a: Actor, found: Option<JobId>, otherwise: Enqueuer): State {
    s.(enqueuers := s.enqueuers[a := if found.Some? then Returned(found.value) else otherwise])
  }

  /** The state after a step; a step that cannot happen changes nothing. */
  function Next(s: State, step: Step): State {
    if !Enabled(s, step) then s
    else match step
      case CreateSource(source, tenant) => s.(sources := s.sources[source := Versions(tenant, 1, 0)])
      case AdminUpdate(source) => s.(sources := s.sources[source := s.sources[source].(version := s.sources[source].version + 1)])
      case Begin(a, source, t, p, ignoring) => BeginState(s, a, source, t, p, ignoring)
      case LookUp(a, found) => FoundState(s, a, found, NotFound(s.enqueuers[a].request))
      case Insert(a, id, winner) => InsertState(s, a, id, winner)
      case Resolve(a, found) => FoundState(s, a, found, Rethrown)
      case Leave(a) => s.(enqueuers := s.enqueuers - {a})
      case Acquire(w, tenant) =>
        s.(workers := s.workers[w := Locked(tenant)], locks := s.locks[LockHash.WorkerLockId(tenant) := w])
      case Select(w, next) => SelectState(s, w, next)
      case Claim(w) => ClaimState(s, w)
      case Progress(w, processed, total) =>
        s.(jobs := s.jobs[s.workers[w].jobId := Progressed(s.jobs[s.workers[w].jobId], processed, total, s.clock)])
      case Reconcile(w) =>
        s.(sources := Projected(s.sources, s.jobs[s.workers[w].jobId].source, s.jobs[s.workers[w].jobId].sourceVersion))
      case Finish(w, processed) => FinishState(s, w, processed)
      case Fail(w) => FailState(s, w)
      case Detach(w) => s.(locks := Unlocked(s, w), workers := s.workers[w := Detached(s.workers[w].jobId)])
      case Crash(w) => s.(locks := Unlocked(s, w), workers := s.workers - {w})
      case Watchdog(id) => WatchdogState(s, id)
  }

  function Run(s: State, steps: seq<Step>): State {
    if steps == [] then s else Next(Run(s, steps[..|steps| - 1]), steps[|steps| - 1])
  }

  // --- invariants of every reachable state ---

  ghost predicate SourcesOrdered(s: State) {
    forall x :: x in s.sources ==> 1 <= s.sources[x].version && s.sources[x].projectionVersion <= s.sources[x].version
  }

  ghost predicate JobsOrdered(s: State) {
    forall id :: id in s.jobs ==>
      && s.jobs[id].source in s.sources && s.jobs[id].tenant == s.sources[s.jobs[id].source].tenant
      && s.jobs[id].sourceVersion <= s.sources[s.jobs[id].source].version
  }

  ghost predicate RequestsOrdered(s: State) {
    forall a :: a in s.enqueuers && HasRequest(s.enqueuers[a]) ==>
      && s.enqueuers[a].request.source in s.sources
      && s.enqueuers[a].request.sourceVersion <= s.sources[s.enqueuers[a].request.source].version
  }

  /** Version counters never run behind a projection, a job or a request. */
  ghost predicate VersionsOrdered(s: State) {
    SourcesOrdered(s) && JobsOrdered(s) && RequestsOrdered(s)
  }

  predicate HasRequest(e: Enqueuer) {
    e.Resolved? || e.NotFound? || e.Conflicted?
  }

  /** Returned and conflicting jobs exist; a conflicting job has the request's key. */
  ghost predicate AnswersExist(s: State) {
    forall a :: a in s.enqueuers ==>
      && (s.enqueuers[a].Returned? ==> s.enqueuers[a].jobId in s.jobs)
      && (s.enqueuers[a].Conflicted? ==> HasKeyOf(s, s.enqueuers[a].winner, s.enqueuers[a].request))
  }

  predicate HasKeyOf(s: State, id: JobId, r: Request) {
    id in s.jobs && s.jobs[id].source == r.source && s.jobs[id].sourceVersion == r.sourceVersion
  }

  /** A worker that has not lost its session owns its tenant's lock. */
  ghost predicate LocksOwned(s: State) {
    forall w :: w in s.workers && TenantOfWorker(s.workers[w]).Some? ==>
      var id := LockHash.WorkerLockId(TenantOfWorker(s.workers[w]).value);
      id in s.locks && s.locks[id] == w
  }

  ghost predicate WorkersHaveJobs(s: State) {
    forall w :: w in s.workers && !s.workers[w].Locked? ==>
      && s.workers[w].jobId in s.jobs
      && (s.workers[w].Selected? || s.workers[w].Executing? ==> s.jobs[s.workers[w].jobId].tenant == s.workers[w].tenant)
  }

  /** Every claim is paid for: the first by creation, each later one by a watchdog reclaim. */
  ghost predicate ClaimsPaid(s: State) {
    && s.claims.Keys == s.jobs.Keys
    && (forall id :: id in s.jobs ==> s.jobs[id].retryCount <= MAX_RETRIES && s.claims[id] <= s.jobs[id].retryCount + 1)
    && (forall id :: id in s.jobs && s.jobs[id].status.Pending? ==> s.claims[id] <= s.jobs[id].retryCount)
    && (forall w :: w in s.workers && s.workers[w].Selected? && s.workers[w].jobId in s.jobs ==>
          s.claims[s.workers[w].jobId] <= s.jobs[s.workers[w].jobId].retryCount)
  }

  ghost predicate RequestedOnce(outbox: seq<Event>, ids: set<JobId>) {
    forall id :: multiset(outbox)[SyncRequested(id)] == if id in ids then 1 else 0
  }

  ghost predicate ClosedAnnounced(outbox: seq<Event>, jobs: Jobs) {
    && (forall id :: id in jobs && jobs[id].status.Completed? ==> SyncCompleted(id) in outbox)
    && (forall id :: id in jobs && jobs[id].status.Failed? ==> SyncFailed(id) in outbox)
  }

  /** One REQUESTED event for each job, and a closing event for each closed job. */
  ghost predicate EventsMatchJobs(s: State) {
    RequestedOnce(s.outbox, s.jobs.Keys) && ClosedAnnounced(s.outbox, s.jobs)
  }

  /** Creation times tell jobs apart. */
  ghost predicate CreationOrdered(s: State) {
    && (forall id :: id in s.jobs ==> s.jobs[id].createdAt < s.clock)
    && (forall a, b :: a in s.jobs && b in s.jobs && s.jobs[a].createdAt == s.jobs[b].createdAt ==> a == b)
  }

  ghost predicate Inv(s: State) {
    && VersionsOrdered(s) && AnswersExist(s) && LocksOwned(s) && WorkersHaveJobs(s)
    && ClaimsPaid(s) && EventsMatchJobs(s) && CreationOrdered(s) && UniqueInFlight(s.jobs)
  }

  // --- what one step does to the job table ---

  datatype Effect =
    | Unchanged
    | Creates(id: JobId, actor: Actor)
    | Claims(id: JobId, worker: Actor)
    | Touches(id: JobId)
    | Completes(id: JobId)
    | Fails(id: JobId)
    | Reclaims(id: JobId)

  predicate SameIdentity(a: Job, b: Job) {
    a.tenant == b.tenant && a.source == b.source && a.sourceVersion == b.sourceVersion
    && a.priority == b.priority && a.createdAt == b.createdAt
  }

  ghost predicate Rewrites(s: State, t: State, id: JobId) {
    && id in s.jobs && id in t.jobs && t.jobs == s.jobs[id := t.jobs[id]] && SameIdentity(s.jobs[id], t.jobs[id])
    && t.clock == s.clock
  }

  ghost predicate SameRetries(s: State, t: State, id: JobId) {
    id in s.jobs && id in t.jobs && t.jobs[id].retryCount == s.jobs[id].retryCount && t.claims == s.claims
  }

  ghost predicate HasEffect(s: State, t: State, e: Effect) {
    match e
    case Unchanged => t.jobs == s.jobs && t.outbox == s.outbox && t.claims == s.claims && t.clock == s.clock
    case Creates(id, a) =>
      && a in s.enqueuers && s.enqueuers[a].NotFound? && s.enqueuers[a].request.source in s.sources
      && id !in s.jobs && id in t.jobs && t.jobs == s.jobs[id := t.jobs[id]]
      && t.jobs[id] == RequestedJob(s, s.enqueuers[a].request) && !Blocked(s.jobs, id, t.jobs[id])
      && t.outbox == s.outbox + [SyncRequested(id)] && t.claims == s.claims[id := 0] && t.clock == s.clock + 1
      && t.workers == s.workers
    case Claims(id, w) =>
      && Rewrites(s, t, id) && t.outbox == s.outbox
      && w in s.workers && s.workers[w].Selected? && s.workers[w].jobId == id
      && t.jobs[id].status.Processing? && t.jobs[id].retryCount == s.jobs[id].retryCount && !Blocked(s.jobs, id, s.jobs[id])
      && t.claims == s.claims[id := (if id in s.claims then s.claims[id] else 0) + 1]
      && t.workers == s.workers[w := Executing(s.workers[w].tenant, id)]
    case Touches(id) =>
      Rewrites(s, t, id) && SameRetries(s, t, id) && t.outbox == s.outbox && t.jobs[id].status == s.jobs[id].status
    case Completes(id) =>
      Rewrites(s, t, id) && SameRetries(s, t, id) && t.outbox == s.outbox + [SyncCompleted(id)] && t.jobs[id].status.Completed?
    case Fails(id) =>
      Rewrites(s, t, id) && SameRetries(s, t, id) && t.outbox == s.outbox + [SyncFailed(id)] && t.jobs[id].status.Failed?
    case Reclaims(id) =>
      && Rewrites(s, t, id) && t.outbox == s.outbox && t.claims == s.claims && s.jobs[id].status.Processing?
      && t.jobs[id].status.Pending? && t.jobs[id].retryCount == s.jobs[id].retryCount + 1 <= MAX_RETRIES
      && t.workers == s.workers
  }

  /** Every selection in force was made earlier, or is of a job that is pending now. */
  ghost predicate SelectionsGrow(s: State, t: State) {
    forall w :: w in t.workers && t.workers[w].Selected? ==>
      (w in s.workers && s.workers[w] == t.workers[w]) || PendingOf(s.jobs, t.workers[w].tenant, t.workers[w].jobId)
  }

  /** A worker runs only the job it had selected. */
  ghost predicate ExecutionsGrow(s: State, t: State) {
    forall w :: w in t.workers && Runs(t.workers[w]) ==>
      && w in s.workers && !s.workers[w].Locked? && s.workers[w].jobId == t.workers[w].jobId
      && (t.workers[w].Executing? ==> !s.workers[w].Detached? && s.workers[w].tenant == t.workers[w].tenant)
  }

  function EffectOf(s: State, step: Step): Effect {
    if !Enabled(s, step) then Unchanged
    else match step
      case Insert(a, id, winner) =>
        if Blocks(s.jobs, winner, id, RequestedJob(s, s.enqueuers[a].request)) then Unchanged else Creates(id, a)
      case Claim(w) => if Blocked(s.jobs, s.workers[w].jobId, s.jobs[s.workers[w].jobId]) then Unchanged else Claims(s.workers[w].jobId, w)
      case Progress(w, _, _) => Touches(s.workers[w].jobId)
      case Finish(w, _) => Completes(s.workers[w].jobId)
      case Fail(w) => Fails(s.workers[w].jobId)
      case Watchdog(id) => if s.jobs[id].retryCount + 1 <= MAX_RETRIES then Reclaims(id) else Fails(id)
      case _ => Unchanged
  }

  lemma EnqueuingHasEffect(s: State, step: Step)
    requires IsEnqueuing(step)
    ensures HasEffect(s, Next(s, step), EffectOf(s, step))
  {
    hide LockHash.WorkerLockId, NextToClaim, PendingOf, Blocked, FoundBy, Unlocked, Projected, RequestedJob, Blocks;
  }

  lemma WorkingHasEffect(s: State, step: Step)
    requires !IsEnqueuing(step)
    ensures HasEffect(s, Next(s, step), EffectOf(s, step))
  {
    hide LockHash.WorkerLockId, NextToClaim, PendingOf, Blocked, FoundBy, Unlocked, Projected, RequestedJob, Blocks;
  }

  lemma StepHasEffect(s: State, step: Step)
    ensures HasEffect(s, Next(s, step), EffectOf(s, step))
  {
    hide HasEffect, Next, EffectOf;
    if IsEnqueuing(step) {
      EnqueuingHasEffect(s, step);
    } else {
      WorkingHasEffect(s, step);
    }
  }

  lemma SelectionsGrowStep(s: State, step: Step)
    ensures SelectionsGrow(s, Next(s, step))
  {
    hide LockHash.WorkerLockId, Blocked, FoundBy;
  }

  predicate MovesWorkers(step: Step) {
    step.Acquire? || step.Select? || step.Claim? || step.Finish? || step.Fail? || step.Detach? || step.Crash?
  }

  lemma OnlyWorkerStepsMoveWorkers(s: State, step: Step)
    requires !MovesWorkers(step)
    ensures Next(s, step).workers == s.workers && Next(s, step).locks == s.locks
  {
    hide LockHash.WorkerLockId, Blocked, FoundBy, NextToClaim, PendingOf;
  }

  lemma ExecutionsGrowStep(s: State, step: Step)
    ensures ExecutionsGrow(s, Next(s, step))
  {
    if !MovesWorkers(step) {
      hide Next;
      OnlyWorkerStepsMoveWorkers(s, step);
    } else {
      hide LockHash.WorkerLockId, Blocked, FoundBy, NextToClaim, PendingOf, Unlocked, Projected;
    }
  }

  // --- each invariant is kept by every step ---

  /** Some job of the source has this source version. */
  ghost predicate SyncedBy(jobs: Jobs, x: Source, version: nat) {
    exists id :: id in jobs && jobs[id].source == x && version == jobs[id].sourceVersion
  }

  /** Sources stay, keep their tenant, and their versions only grow; a projection moves only to a
      job's source version. */
  ghost predicate SourcesGrow(before: map<Source, Versions>, after: map<Source, Versions>, jobs: Jobs) {
    && (forall x :: x in before ==>
          && x in after && after[x].tenant == before[x].tenant && before[x].version <= after[x].version
          && (after[x].projectionVersion == before[x].projectionVersion || SyncedBy(jobs, x, after[x].projectionVersion)))
    && (forall x :: x in after && x !in before ==> after[x].version == 1 && after[x].projectionVersion == 0)
  }

  lemma ProjectedGrows(sources: map<Source, Versions>, jobs: Jobs, id: JobId)
    requires id in jobs
    ensures SourcesGrow(sources, Projected(sources, jobs[id].source, jobs[id].sourceVersion), jobs)
  {
    assert SyncedBy(jobs, jobs[id].source, jobs[id].sourceVersion);
  }

  predicate WritesSources(step: Step) {
    step.CreateSource? || step.AdminUpdate? || step.Reconcile? || step.Finish?
  }

  lemma OnlySourceStepsWriteSources(s: State, step: Step)
    requires !WritesSources(step)
    ensures Next(s, step).sources == s.sources
  {
    hide LockHash.WorkerLockId, Blocked, FoundBy, NextToClaim, PendingOf;
  }

  lemma SourcesGrowStep(s: State, step: Step)
    ensures SourcesGrow(s.sources, Next(s, step).sources, s.jobs)
  {
    if !WritesSources(step) {
      hide Next, SyncedBy;
      OnlySourceStepsWriteSources(s, step);
    } else {
      hide SyncedBy, Projected;
      if Enabled(s, step) && (step.Finish? || step.Reconcile?) {
        ProjectedGrows(s.sources, s.jobs, s.workers[step.worker].jobId);
      }
    }
  }

  function ActorOf(step: Step): Actor {
    match step
    case Begin(a, _, _, _, _) => a
    case LookUp(a, _) => a
    case Insert(a, _, _) => a
    case Resolve(a, _) => a
    case Leave(a) => a
    case _ => 0
  }

  /** How one enqueuer's answer can change. */
  ghost predicate Answers(s: State, t: State, a: Actor)
    requires a in t.enqueuers
  {
    match t.enqueuers[a]
    case Resolved(r) => r.source in s.sources && r.sourceVersion == s.sources[r.source].version
    case NotFound(r) => a in s.enqueuers && s.enqueuers[a] == Resolved(r)
    case Conflicted(r, winner) => a in s.enqueuers && s.enqueuers[a] == NotFound(r) && HasKeyOf(s, winner, r)
    case Returned(id) => id in t.jobs
    case NothingToDo => true
    case Rethrown => true
  }

  ghost predicate EnqueuersEvolve(s: State, t: State, a: Actor) {
    && (forall b :: b in t.enqueuers && b != a ==> b in s.enqueuers && t.enqueuers[b] == s.enqueuers[b])
    && (a in t.enqueuers ==> (a in s.enqueuers && t.enqueuers[a] == s.enqueuers[a]) || Answers(s, t, a))
  }

  predicate IsEnqueuing(step: Step) {
    step.Begin? || step.LookUp? || step.Insert? || step.Resolve? || step.Leave?
  }

  lemma OnlyEnqueuingAnswers(s: State, step: Step)
    requires !IsEnqueuing(step)
    ensures Next(s, step).enqueuers == s.enqueuers
  {
    hide LockHash.WorkerLockId, Blocked, NextToClaim, PendingOf, FoundBy;
  }

  lemma EnqueuingAnswers(s: State, step: Step)
    requires IsEnqueuing(step) && Enabled(s, step)
    ensures EnqueuersEvolve(s, Next(s, step), ActorOf(step))
  {
    hide LockHash.WorkerLockId, Blocked, NextToClaim, PendingOf, Unlocked, Projected;
  }

  lemma EnqueuersEvolveStep(s: State, step: Step)
    ensures EnqueuersEvolve(s, Next(s, step), ActorOf(step))
  {
    if Enabled(s, step) && IsEnqueuing(step) {
      EnqueuingAnswers(s, step);
    } else {
      if !IsEnqueuing(step) { OnlyEnqueuingAnswers(s, step); }
    }
  }

  lemma SourcesOrderedStep(s: State, step: Step)
    requires SourcesOrdered(s) && JobsOrdered(s)
    ensures SourcesOrdered(Next(s, step))
  {
    hide Next;
    var t := Next(s, step);
    SourcesGrowStep(s, step);
    forall x | x in t.sources ensures 1 <= t.sources[x].version && t.sources[x].projectionVersion <= t.sources[x].version {
      if x in s.sources && SyncedBy(s.jobs, x, t.sources[x].projectionVersion) {
        var id :| id in s.jobs && s.jobs[id].source == x && t.sources[x].projectionVersion == s.jobs[id].sourceVersion;
      }
    }
  }

  lemma JobsOrderedStep(s: State, step: Step)
    requires VersionsOrdered(s)
    ensures JobsOrdered(Next(s, step))
  {
    hide Next, EffectOf, Blocked, SyncedBy;
    SourcesGrowStep(s, step);
    StepHasEffect(s, step);
  }

  lemma RequestsOrderedStep(s: State, step: Step)
    requires RequestsOrdered(s)
    ensures RequestsOrdered(Next(s, step))
  {
    hide Next, Blocked, SyncedBy;
    SourcesGrowStep(s, step);
    EnqueuersEvolveStep(s, step);
  }

  lemma VersionsOrderedStep(s: State, step: Step)
    requires VersionsOrdered(s)
    ensures VersionsOrdered(Next(s, step))
  {
    hide Next, SourcesOrdered, JobsOrdered, RequestsOrdered;
    SourcesOrderedStep(s, step);
    JobsOrderedStep(s, step);
    RequestsOrderedStep(s, step);
  }

  lemma AnswersExistStep(s: State, step: Step)
    requires AnswersExist(s)
    ensures AnswersExist(Next(s, step))
  {
    hide Next, EffectOf, Blocked;
    EnqueuersEvolveStep(s, step);
    StepHasEffect(s, step);
  }

  lemma LocksOwnedStep(s: State, step: Step)
    requires LocksOwned(s)
    ensures LocksOwned(Next(s, step))
  {
    hide LockHash.WorkerLockId, Blocked, FoundBy, NextToClaim, PendingOf, Projected;
    if !MovesWorkers(step) {
      hide Next;
      OnlyWorkerStepsMoveWorkers(s, step);
    }
  }

  lemma WorkersHaveJobsStep(s: State, step: Step)
    requires WorkersHaveJobs(s)
    ensures WorkersHaveJobs(Next(s, step))
  {
    hide Next, EffectOf, Blocked;
    StepHasEffect(s, step);
    SelectionsGrowStep(s, step);
    ExecutionsGrowStep(s, step);
  }

  /** Two workers that hold locks of the same tenant are one worker. */
  lemma LockExcludes(s: State, v: Actor, w: Actor)
    requires LocksOwned(s) && v in s.workers && w in s.workers
    requires TenantOfWorker(s.workers[v]).Some? && TenantOfWorker(s.workers[v]) == TenantOfWorker(s.workers[w])
    ensures v == w
  {
    hide LockHash.WorkerLockId;
  }

  lemma ClaimsPaidStep(s: State, step: Step)
    requires ClaimsPaid(s) && LocksOwned(s) && WorkersHaveJobs(s)
    ensures ClaimsPaid(Next(s, step))
  {
    hide Next, EffectOf, Blocked, LocksOwned;
    var t, e := Next(s, step), EffectOf(s, step);
    StepHasEffect(s, step);
    SelectionsGrowStep(s, step);
    if e.Claims? {
      forall w | w in t.workers && t.workers[w].Selected? ensures t.workers[w].jobId != e.id {
        if w in s.workers && s.workers[w].Selected? && s.workers[w].jobId == e.id {
          LockExcludes(s, w, e.worker);
        }
      }
    }
  }

  lemma RequestedOnceAppend(outbox: seq<Event>, ids: set<JobId>, e: Event)
    requires RequestedOnce(outbox, ids) && (e.SyncRequested? ==> e.jobId !in ids)
    ensures RequestedOnce(outbox + [e], if e.SyncRequested? then ids + {e.jobId} else ids)
  {
    assert multiset(outbox + [e]) == multiset(outbox) + multiset{e};
  }

  lemma EventsMatchJobsStep(s: State, step: Step)
    requires EventsMatchJobs(s)
    ensures EventsMatchJobs(Next(s, step))
  {
    hide Next, EffectOf, Blocked, RequestedOnce;
    var t, e := Next(s, step), EffectOf(s, step);
    StepHasEffect(s, step);
    if e.Creates? {
      RequestedOnceAppend(s.outbox, s.jobs.Keys, SyncRequested(e.id));
      assert t.jobs.Keys == s.jobs.Keys + {e.id};
    } else {
      assert t.jobs.Keys == s.jobs.Keys;
      if e.Completes? { RequestedOnceAppend(s.outbox, s.jobs.Keys, SyncCompleted(e.id)); }
      if e.Fails? { RequestedOnceAppend(s.outbox, s.jobs.Keys, SyncFailed(e.id)); }
    }
  }

  lemma CreationOrderedStep(s: State, step: Step)
    requires CreationOrdered(s)
    ensures CreationOrdered(Next(s, step))
  {
    hide Next, EffectOf, Blocked;
    StepHasEffect(s, step);
  }

  lemma UniqueInFlightStep(s: State, step: Step)
    requires UniqueInFlight(s.jobs)
    ensures UniqueInFlight(Next(s, step).jobs)
  {
    hide Next, EffectOf;
    StepHasEffect(s, step);
  }

  lemma InvStep(s: State, step: Step)
    requires Inv(s)
    ensures Inv(Next(s, step))
  {
    hide Next, VersionsOrdered, AnswersExist, LocksOwned, WorkersHaveJobs, ClaimsPaid, EventsMatchJobs, CreationOrdered, UniqueInFlight;
    VersionsOrderedStep(s, step);
    AnswersExistStep(s, step);
    LocksOwnedStep(s, step);
    WorkersHaveJobsStep(s, step);
    ClaimsPaidStep(s, step);
    EventsMatchJobsStep(s, step);
    CreationOrderedStep(s, step);
    UniqueInFlightStep(s, step);
  }

  /** Safety over whole runs: every reachable state satisfies the invariant. */
  lemma {:induction false} ReachableStatesSatisfyInv(steps: seq<Step>)
    ensures Inv(Run(Init(), steps))
  {
    if steps != [] {
      ReachableStatesSatisfyInv(steps[..|steps| - 1]);
      InvStep(Run(Init(), steps[..|steps| - 1]), steps[|steps| - 1]);
    }
  }
}
