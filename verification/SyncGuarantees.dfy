/** What the protocol guarantees its users in every reachable state and over every run. */
module SyncGuarantees {
  import opened JavaScript
  import opened SyncJobs
  import opened SyncProtocol
  import LockHash

  ghost predicate Reachable(s: State) {
    exists steps :: s == Run(Init(), steps)
  }

  lemma ReachableHasInv(s: State)
    requires Reachable(s)
    ensures Inv(s)
  {
    var steps :| s == Run(Init(), steps);
    ReachableStatesSatisfyInv(steps);
  }

  /** However enqueuers interleave, no two in-flight jobs synchronise one version of one source. */
  lemma OneJobInFlightPerVersion(s: State, a: JobId, b: JobId)
    requires Reachable(s) && a in s.jobs && b in s.jobs && InFlight(s.jobs[a]) && InFlight(s.jobs[b])
    requires s.jobs[a].source == s.jobs[b].source && s.jobs[a].sourceVersion == s.jobs[b].sourceVersion
    ensures a == b
  {
    hide AnswersExist, LocksOwned, WorkersHaveJobs, ClaimsPaid, EventsMatchJobs, CreationOrdered, Run;
    ReachableHasInv(s);
  }

  /** An enqueuer that lost the race is given the winner's job, as long as that is in flight; it
      rethrows only when the winner is not. */
  lemma LoserReturnsWinner(s: State, a: Actor, found: Option<JobId>)
    requires Reachable(s) && Enabled(s, Resolve(a, found))
    requires s.enqueuers[a].winner in s.jobs && InFlight(s.jobs[s.enqueuers[a].winner])
    ensures Next(s, Resolve(a, found)).enqueuers[a] == Returned(s.enqueuers[a].winner)
  {
    hide LocksOwned, WorkersHaveJobs, ClaimsPaid, EventsMatchJobs, CreationOrdered, Run, LockHash.WorkerLockId;
    ReachableHasInv(s);
    var winner := s.enqueuers[a].winner;
    assert Holds(s, winner, s.enqueuers[a].request);
    assert found.Some? && Holds(s, found.value, s.enqueuers[a].request);
  }

  /** No job is executed more than four times, and every execution after the first is paid for by
      a recorded retry. */
  lemma NoJobRunsMoreThanFourTimes(s: State, id: JobId)
    requires Reachable(s) && id in s.jobs
    ensures id in s.claims && s.claims[id] <= s.jobs[id].retryCount + 1 && s.claims[id] <= 4 && s.jobs[id].retryCount <= 3
  {
    hide AnswersExist, LocksOwned, WorkersHaveJobs, EventsMatchJobs, CreationOrdered, VersionsOrdered, UniqueInFlight, Run;
    ReachableHasInv(s);
  }

  /** Two workers that still hold their sessions never work for one tenant, nor for two tenants whose
      lock keys collide. */
  lemma OneWorkerPerTenant(s: State, v: Actor, w: Actor)
    requires Reachable(s) && v in s.workers && w in s.workers
    requires TenantOfWorker(s.workers[v]).Some? && TenantOfWorker(s.workers[w]).Some?
    requires LockHash.WorkerLockId(TenantOfWorker(s.workers[v]).value) == LockHash.WorkerLockId(TenantOfWorker(s.workers[w]).value)
    ensures v == w
  {
    hide AnswersExist, ClaimsPaid, WorkersHaveJobs, EventsMatchJobs, CreationOrdered, VersionsOrdered, UniqueInFlight, Run,
         LockHash.WorkerLockId;
    ReachableHasInv(s);
  }

  /** The three ways the files write "dirty" agree. */
  lemma DirtyTestsAgree(s: State, x: Source)
    requires Reachable(s) && x in s.sources
    ensures s.sources[x].version != s.sources[x].projectionVersion <==> s.sources[x].version > s.sources[x].projectionVersion
    ensures !(s.sources[x].version <= s.sources[x].projectionVersion) <==> s.sources[x].version != s.sources[x].projectionVersion
  {
    hide AnswersExist, LocksOwned, WorkersHaveJobs, ClaimsPaid, EventsMatchJobs, CreationOrdered, UniqueInFlight, Run;
    ReachableHasInv(s);
  }

  /** REQUESTED events and jobs correspond one to one. */
  lemma RequestedEventsAreTheJobs(s: State, id: JobId)
    requires Reachable(s)
    ensures multiset(s.outbox)[SyncRequested(id)] == if id in s.jobs then 1 else 0
  {
    hide AnswersExist, LocksOwned, WorkersHaveJobs, ClaimsPaid, VersionsOrdered, CreationOrdered, UniqueInFlight, Run;
    ReachableHasInv(s);
  }

  // --- what makes a source dirty, and what makes it clean ---

  predicate IsDirty(s: State, x: Source) {
    x in s.sources && s.sources[x].version > s.sources[x].projectionVersion
  }

  /** A source is dirty from its creation, and again after every update by an administrator. */
  lemma UpdatesMakeDirty(s: State, x: Source, tenant: Tenant)
    requires Reachable(s)
    ensures x !in s.sources ==> IsDirty(Next(s, CreateSource(x, tenant)), x) && Next(s, CreateSource(x, tenant)).sources[x].tenant == tenant
    ensures x in s.sources ==> IsDirty(Next(s, AdminUpdate(x)), x)
    ensures x in s.sources ==> Next(s, AdminUpdate(x)).sources[x].version == s.sources[x].version + 1
    ensures forall y :: y in s.sources && y != x ==>
      y in Next(s, AdminUpdate(x)).sources && Next(s, AdminUpdate(x)).sources[y] == s.sources[y]
  {
    hide AnswersExist, LocksOwned, WorkersHaveJobs, ClaimsPaid, EventsMatchJobs, CreationOrdered, UniqueInFlight, Run;
    ReachableHasInv(s);
  }

  /** A job that finishes makes its source clean exactly when no administrator has moved the version past the
      job's: an update during the job is not lost, and a late job of an old version makes a clean source dirty. */
  lemma FinishCleansExactly(s: State, w: Actor, processedUsers: nat)
    requires Reachable(s) && Enabled(s, Finish(w, processedUsers))
    ensures var j, t := s.jobs[s.workers[w].jobId], Next(s, Finish(w, processedUsers));
      && j.source in s.sources && t.sources.Keys == s.sources.Keys
      && (IsDirty(t, j.source) <==> s.sources[j.source].version > j.sourceVersion)
      && (!IsDirty(t, j.source) <==> t.sources[j.source].projectionVersion == t.sources[j.source].version)
      && (forall y :: y in s.sources && y != j.source ==> t.sources[y] == s.sources[y])
  {
    hide AnswersExist, LocksOwned, ClaimsPaid, EventsMatchJobs, CreationOrdered, UniqueInFlight, Run, Unlocked, TenantOfWorker;
    ReachableHasInv(s);
  }

  lemma InitIsReachable()
    ensures Reachable(Init())
  {
    assert Init() == Run(Init(), []);
  }

  lemma ReachableNext(s: State, step: Step)
    requires Reachable(s)
    ensures Reachable(Next(s, step))
  {
    hide Next;
    var steps :| s == Run(Init(), steps);
    var longer := steps + [step];
    assert longer[..|longer| - 1] == steps && longer[|longer| - 1] == step;
    assert Next(s, step) == Run(Init(), longer);
  }

  /** An undisturbed request for a dirty source nobody has requested adds a job for its version. */
  lemma RequestRuns(s: State, a: Actor, x: Source, priority: Priority, id: JobId) returns (t: State)
    requires Reachable(s) && a !in s.enqueuers && IsDirty(s, x) && id !in s.jobs
    requires forall k :: k in s.jobs ==> !HoldsKey(s.jobs, k, x, s.sources[x].version)
    ensures Reachable(t) && t.sources == s.sources && t.workers == s.workers && t.locks == s.locks && t.clock == s.clock + 1
    ensures t.enqueuers.Keys == s.enqueuers.Keys + {a}
    ensures t.jobs == s.jobs[id := NewJob(s.sources[x].tenant, x, s.sources[x].version, Manual, priority, s.clock)]
  {
    hide Reachable, Run;
    var begin, lookUp, insert := Begin(a, x, Manual, priority, false), LookUp(a, None), Insert(a, id, id);
    ReachableNext(s, begin);
    ReachableNext(Next(s, begin), lookUp);
    t := Next(Next(Next(s, begin), lookUp), insert);
    ReachableNext(Next(Next(s, begin), lookUp), insert);
  }

  /** A free worker takes the next job of its tenant. */
  lemma WorkerTakes(s: State, w: Actor, tenant: Tenant, id: JobId) returns (t: State)
    requires Reachable(s) && w !in s.workers && LockHash.WorkerLockId(tenant) !in s.locks
    requires NextToClaim(s.jobs, tenant, id) && !Blocked(s.jobs, id, s.jobs[id])
    ensures Reachable(t) && t.sources == s.sources && t.workers == s.workers[w := Executing(tenant, id)]
    ensures t.locks == s.locks[LockHash.WorkerLockId(tenant) := w] && t.jobs == s.jobs[id := Claimed(s.jobs[id], s.clock)]
  {
    hide Reachable, Run, LockHash.WorkerLockId, Blocked, NextToClaim;
    assert PendingOf(s.jobs, tenant, id) by { NextIsPending(s.jobs, tenant, id); }
    var acquire, select, claim := Acquire(w, tenant), Select(w, Some(id)), Claim(w);
    ReachableNext(s, acquire);
    ReachableNext(Next(s, acquire), select);
    t := Next(Next(Next(s, acquire), select), claim);
    ReachableNext(Next(Next(s, acquire), select), claim);
  }

  lemma NextIsPending(jobs: Jobs, tenant: Tenant, id: JobId)
    requires NextToClaim(jobs, tenant, id)
    ensures PendingOf(jobs, tenant, id)
  {
  }

  /** A projection can go back: an urgent job of version 2 overtakes the waiting job of version 1 and makes the
      source clean, and then the older job, when it finishes, makes it dirty again. */
  lemma LateJobMakesDirtyAgain(x: Source, tenant: Tenant) returns (s: State)
    ensures Reachable(s) && Enabled(s, Finish(0, 0)) && x in s.sources
    ensures !IsDirty(s, x) && IsDirty(Next(s, Finish(0, 0)), x)
  {
    hide Run, LockHash.WorkerLockId, Next;
    var two := TwoRequests(x, tenant);
    var newer := WorkerTakes(two, 0, tenant, 1);
    var clean := WorkerFinishes(newer, 0);
    s := WorkerTakes(clean, 0, tenant, 0);
    var end := WorkerFinishes(s, 0);
  }

  lemma WorkerFinishes(s: State, w: Actor) returns (t: State)
    requires Reachable(s) && w in s.workers && s.workers[w].Executing? && s.workers[w].jobId in s.jobs
    ensures Enabled(s, Finish(w, 0)) && t == Next(s, Finish(w, 0)) && Reachable(t)
    ensures var id := s.workers[w].jobId;
      && t.jobs == s.jobs[id := MarkedCompleted(s.jobs[id], 0, s.clock)] && t.workers == s.workers - {w}
      && t.sources == Projected(s.sources, s.jobs[id].source, s.jobs[id].sourceVersion)
      && t.locks == s.locks - {LockHash.WorkerLockId(s.workers[w].tenant)}
  {
    hide Reachable, Run, LockHash.WorkerLockId, Projected;
    t := Next(s, Finish(w, 0));
    ReachableNext(s, Finish(w, 0));
  }

  /** A standard job waits for version 1 and an urgent one for version 2. */
  lemma TwoRequests(x: Source, tenant: Tenant) returns (s: State)
    ensures Reachable(s) && s.sources == map[x := Versions(tenant, 2, 0)] && s.workers == map[] && s.locks == map[]
    ensures s.jobs == map[0 := NewJob(tenant, x, 1, Manual, Standard, 0), 1 := NewJob(tenant, x, 2, Manual, Urgent, 1)]
  {
    hide Run;
    InitIsReachable();
    ReachableNext(Init(), CreateSource(x, tenant));
    var one := RequestRuns(Next(Init(), CreateSource(x, tenant)), 0, x, Standard, 0);
    ReachableNext(one, AdminUpdate(x));
    s := RequestRuns(Next(one, AdminUpdate(x)), 1, x, Urgent, 1);
  }

  /** A request is refused exactly when it asks for validation and its source is clean; otherwise it is for
      the version the source has then. */
  lemma RequestsAreForDirtySources(s: State, a: Actor, x: Source, triggerType: TriggerType, priority: Priority, ignoring: bool)
    requires Reachable(s) && a !in s.enqueuers && x in s.sources
    ensures var t := Next(s, Begin(a, x, triggerType, priority, ignoring));
      && a in t.enqueuers && t.jobs == s.jobs
      && (t.enqueuers[a] == NothingToDo <==> !ignoring && !IsDirty(s, x))
      && (ignoring || IsDirty(s, x) ==> t.enqueuers[a] == Resolved(Request(x, s.sources[x].version, triggerType, priority)))
  {
    hide Inv, Run;
  }

  // --- no lock outlives its worker ---

  /** Every lock is held by a worker that has its session and whose tenant's lock it is. */
  ghost predicate LocksAreWorkers(s: State) {
    forall id :: id in s.locks ==>
      && s.locks[id] in s.workers && TenantOfWorker(s.workers[s.locks[id]]).Some?
      && LockHash.WorkerLockId(TenantOfWorker(s.workers[s.locks[id]]).value) == id
  }

  /** How workers and locks move together: a worker starts with its tenant's lock, goes on under it, or gives it up. */
  ghost predicate LocksMove(s: State, t: State, w: Actor) {
    || (t.workers == s.workers && t.locks == s.locks)
    || (w in t.workers && TenantOfWorker(t.workers[w]).Some? && t.workers == s.workers[w := t.workers[w]]
        && w !in s.workers && t.locks == s.locks[LockHash.WorkerLockId(TenantOfWorker(t.workers[w]).value) := w])
    || (w in s.workers && w in t.workers && t.workers == s.workers[w := t.workers[w]] && t.locks == s.locks
        && TenantOfWorker(t.workers[w]) == TenantOfWorker(s.workers[w]))
    || (w in s.workers && t.workers - {w} == s.workers - {w} && t.locks == Unlocked(s, w)
        && (w in t.workers ==> TenantOfWorker(t.workers[w]).None?))
  }

  function WorkerOf(step: Step): Actor {
    match step
    case Acquire(w, _) => w
    case Select(w, _) => w
    case Claim(w) => w
    case Finish(w, _) => w
    case Fail(w) => w
    case Detach(w) => w
    case Crash(w) => w
    case _ => 0
  }

  lemma LocksMoveStep(s: State, step: Step)
    ensures LocksMove(s, Next(s, step), WorkerOf(step))
  {
    hide LockHash.WorkerLockId, Blocked, FoundBy, NextToClaim, PendingOf, Projected, Unlocked;
    if !MovesWorkers(step) {
      hide Next;
      OnlyWorkerStepsMoveWorkers(s, step);
    }
  }

  lemma LocksAreWorkersStep(s: State, step: Step)
    requires LocksAreWorkers(s)
    ensures LocksAreWorkers(Next(s, step))
  {
    hide LockHash.WorkerLockId, Next;
    var t, w := Next(s, step), WorkerOf(step);
    LocksMoveStep(s, step);
    forall v | v in s.workers && v != w ensures v in t.workers && t.workers[v] == s.workers[v] {
      if t.workers - {w} == s.workers - {w} {
        assert v in s.workers - {w} && v in t.workers - {w};
        assert (t.workers - {w})[v] == (s.workers - {w})[v];
      }
    }
  }

  /** However a worker ends, by finishing, failing, losing its session, finding nothing, or crashing, its lock is
      free again: the locks held are exactly those of the workers at work. */
  lemma {:induction false} LocksAreReleased(steps: seq<Step>)
    ensures LocksAreWorkers(Run(Init(), steps))
  {
    if steps != [] {
      LocksAreReleased(steps[..|steps| - 1]);
      LocksAreWorkersStep(Run(Init(), steps[..|steps| - 1]), steps[|steps| - 1]);
    }
  }

  /** A worker can start for a tenant exactly when no other worker is at work under that lock. */
  lemma AcquireSucceedsExactly(s: State, w: Actor, tenant: Tenant)
    requires Reachable(s) && w !in s.workers
    ensures Enabled(s, Acquire(w, tenant)) <==>
      forall v :: v in s.workers && TenantOfWorker(s.workers[v]).Some? ==>
        LockHash.WorkerLockId(TenantOfWorker(s.workers[v]).value) != LockHash.WorkerLockId(tenant)
  {
    hide VersionsOrdered, AnswersExist, WorkersHaveJobs, ClaimsPaid, EventsMatchJobs, CreationOrdered, UniqueInFlight, Run,
         LockHash.WorkerLockId;
    var steps :| s == Run(Init(), steps);
    ReachableStatesSatisfyInv(steps);
    LocksAreReleased(steps);
  }

  // --- bounded overtaking ---

  predicate IsSelected(s: State, id: JobId) {
    exists w :: w in s.workers && s.workers[w].Selected? && s.workers[w].jobId == id
  }

  predicate Waiting(s: State, j: JobId) {
    j in s.jobs && s.jobs[j].status.Pending?
  }

  /** The other jobs of j's tenant that may still be claimed before j. */
  predicate Overtakes(s: State, id: JobId, j: JobId)
    requires id in s.jobs && j in s.jobs
  {
    && id != j && s.jobs[id].tenant == s.jobs[j].tenant
    && (IsSelected(s, id) || (s.jobs[id].status.Pending? && Before(s.jobs[id], s.jobs[j])))
  }

  function Overtakers(s: State, j: JobId): set<JobId>
    requires j in s.jobs
  {
    set id | id in s.jobs && Overtakes(s, id, j)
  }

  /** The step claims another job of j's tenant. */
  predicate ClaimsOther(s: State, step: Step, j: JobId) {
    var e := EffectOf(s, step);
    e.Claims? && e.id != j && e.id in s.jobs && j in s.jobs && s.jobs[e.id].tenant == s.jobs[j].tenant
  }

  /** The step puts a job ahead of j: a new urgent job, or one the watchdog returned to the queue. */
  predicate PutsAhead(s: State, step: Step, j: JobId) {
    var e, t := EffectOf(s, step), Next(s, step);
    && (e.Creates? || e.Reclaims?) && e.id in t.jobs && j in s.jobs && e.id != j
    && t.jobs[e.id].tenant == s.jobs[j].tenant && Before(t.jobs[e.id], s.jobs[j])
  }

  function Count(b: bool): nat {
    if b then 1 else 0
  }

  /** What the selecting query returns is ahead of every other waiting job. */
  lemma SelectedIsAhead(s: State, id: JobId, j: JobId)
    requires CreationOrdered(s) && Waiting(s, j) && id != j && NextToClaim(s.jobs, s.jobs[j].tenant, id)
    ensures PendingOf(s.jobs, s.jobs[j].tenant, id) && Before(s.jobs[id], s.jobs[j])
    ensures (s.jobs[id].priority.Urgent? && s.jobs[j].priority.Standard?)
            || (s.jobs[id].priority == s.jobs[j].priority && s.jobs[id].createdAt < s.jobs[j].createdAt)
  {
    assert PendingOf(s.jobs, s.jobs[j].tenant, j);
    assert !Before(s.jobs[j], s.jobs[id]);
  }

  lemma NewSelectionsAreAhead(s: State, step: Step, j: JobId, w: Actor)
    requires Inv(s) && Waiting(s, j)
    requires w in Next(s, step).workers && Next(s, step).workers[w].Selected?
    requires Next(s, step).workers[w].jobId != j && Next(s, step).workers[w].tenant == s.jobs[j].tenant
    ensures (w in s.workers && s.workers[w] == Next(s, step).workers[w])
            || (Next(s, step).workers[w].jobId in s.jobs && Overtakes(s, Next(s, step).workers[w].jobId, j))
  {
    hide VersionsOrdered, AnswersExist, LocksOwned, WorkersHaveJobs, ClaimsPaid, EventsMatchJobs, UniqueInFlight, CreationOrdered,
         Blocked, FoundBy, Before, LockHash.WorkerLockId, NextToClaim, Unlocked, Projected;
    if !(w in s.workers && s.workers[w] == Next(s, step).workers[w]) {
      assert step.Select? && step.worker == w && step.next.Some?;
      assert NextToClaim(s.jobs, s.jobs[j].tenant, step.next.value);
      SelectedIsAhead(s, step.next.value, j);
    }
  }

  /** A job that overtakes j after a step overtook it before, or the step put it ahead. */
  lemma OvertakersComeFrom(s: State, step: Step, j: JobId, id: JobId)
    requires Inv(s) && Waiting(s, j) && Waiting(Next(s, step), j)
    requires id in Next(s, step).jobs && Overtakes(Next(s, step), id, j)
    ensures (id in s.jobs && Overtakes(s, id, j)) || (PutsAhead(s, step, j) && id == EffectOf(s, step).id)
  {
    hide Next, EffectOf, VersionsOrdered, AnswersExist, LocksOwned, ClaimsPaid, EventsMatchJobs, CreationOrdered, UniqueInFlight,
         Blocked;
    var t := Next(s, step);
    StepHasEffect(s, step);
    if IsSelected(t, id) {
      var w :| w in t.workers && t.workers[w].Selected? && t.workers[w].jobId == id;
      InvStep(s, step);
      assert WorkersHaveJobs(t);
      NewSelectionsAreAhead(s, step, j, w);
    }
  }

  /** A claimed job overtook j before the claim and no longer does. */
  lemma ClaimedLeaves(s: State, step: Step, j: JobId)
    requires Inv(s) && Waiting(s, j) && Waiting(Next(s, step), j) && ClaimsOther(s, step, j)
    ensures EffectOf(s, step).id in Overtakers(s, j) && EffectOf(s, step).id !in Overtakers(Next(s, step), j)
  {
    hide Next, EffectOf, VersionsOrdered, AnswersExist, ClaimsPaid, EventsMatchJobs, CreationOrdered, UniqueInFlight, Blocked, Before,
         LockHash.WorkerLockId;
    var t, e := Next(s, step), EffectOf(s, step);
    StepHasEffect(s, step);
    assert IsSelected(s, e.id);
    forall w | w in s.workers && s.workers[w].Selected? && s.workers[w].jobId == e.id ensures w == e.worker {
      LockExcludes(s, w, e.worker);
    }
    assert !IsSelected(t, e.id);
  }

  /** A job is put ahead of j only by being urgent where j is not, or by being reclaimed when it is urgent or
      older: nothing new of j's own priority, and nothing standard where j is urgent, gets ahead by creation. */
  lemma WhatGetsAhead(s: State, step: Step, j: JobId)
    requires Inv(s) && Waiting(s, j) && PutsAhead(s, step, j)
    ensures var e, t := EffectOf(s, step), Next(s, step);
      && e.id in t.jobs
      && (e.Creates? ==> t.jobs[e.id].priority.Urgent? && s.jobs[j].priority.Standard?)
      && (e.Reclaims? ==> (t.jobs[e.id].priority.Urgent? && s.jobs[j].priority.Standard?)
                          || (t.jobs[e.id].priority == s.jobs[j].priority && t.jobs[e.id].createdAt < s.jobs[j].createdAt))
  {
    hide Next, EffectOf, VersionsOrdered, AnswersExist, LocksOwned, WorkersHaveJobs, ClaimsPaid, EventsMatchJobs, UniqueInFlight, Blocked;
    StepHasEffect(s, step);
  }

  /** One step: each claim of another job uses up an overtaker, and overtakers come only from urgent
      jobs and reclaims. */
  lemma OvertakingStep(s: State, step: Step, j: JobId)
    requires Inv(s) && Waiting(s, j) && Waiting(Next(s, step), j)
    ensures |Overtakers(Next(s, step), j)| + Count(ClaimsOther(s, step, j)) <= |Overtakers(s, j)| + Count(PutsAhead(s, step, j))
    ensures PutsAhead(s, step, j) && EffectOf(s, step).Creates? ==>
      s.jobs[j].priority.Standard? && EffectOf(s, step).id in Next(s, step).jobs
      && Next(s, step).jobs[EffectOf(s, step).id].priority.Urgent?
  {
    hide Next, EffectOf, Inv, Overtakes;
    var t, e := Next(s, step), EffectOf(s, step);
    if PutsAhead(s, step, j) {
      WhatGetsAhead(s, step, j);
    }
    var was, now := Overtakers(s, j), Overtakers(t, j);
    forall id | id in now ensures id in was || (PutsAhead(s, step, j) && id == e.id) {
      OvertakersComeFrom(s, step, j, id);
    }
    if ClaimsOther(s, step, j) {
      ClaimedLeaves(s, step, j);
      assert !PutsAhead(s, step, j);
      Subset(now, was - {e.id});
    } else if PutsAhead(s, step, j) {
      Subset(now, was + {e.id});
    } else {
      Subset(now, was);
    }
  }

  lemma {:induction false} Subset(a: set<JobId>, b: set<JobId>)
    requires a <= b
    ensures |a| <= |b|
  {
    if a != {} {
      var x :| x in a;
      Subset(a - {x}, b - {x});
    }
  }

  /** j waits in every state of the run. */
  ghost predicate WaitsThroughout(s: State, steps: seq<Step>, j: JobId) {
    && Waiting(Run(s, steps), j)
    && (steps == [] || WaitsThroughout(s, steps[..|steps| - 1], j))
  }

  function OtherClaims(s: State, steps: seq<Step>, j: JobId): nat {
    if steps == [] then 0
    else OtherClaims(s, steps[..|steps| - 1], j)
         + Count(ClaimsOther(Run(s, steps[..|steps| - 1]), steps[|steps| - 1], j))
  }

  function PutAhead(s: State, steps: seq<Step>, j: JobId): nat {
    if steps == [] then 0
    else PutAhead(s, steps[..|steps| - 1], j)
         + Count(PutsAhead(Run(s, steps[..|steps| - 1]), steps[|steps| - 1], j))
  }

  lemma {:induction false} RunKeepsInv(s: State, steps: seq<Step>)
    requires Inv(s)
    ensures Inv(Run(s, steps))
  {
    hide Inv, Next;
    if steps != [] {
      RunKeepsInv(s, steps[..|steps| - 1]);
      InvStep(Run(s, steps[..|steps| - 1]), steps[|steps| - 1]);
    }
  }

  /** Bounded overtaking: while j waits, its tenant claims at most as many other jobs as were ahead
      of j, plus those put ahead by urgent requests and by the watchdog. */
  lemma {:induction false} OvertakingIsBounded(s: State, steps: seq<Step>, j: JobId)
    requires Inv(s) && WaitsThroughout(s, steps, j)
    ensures Waiting(s, j) && Waiting(Run(s, steps), j)
    ensures OtherClaims(s, steps, j) + |Overtakers(Run(s, steps), j)| <= |Overtakers(s, j)| + PutAhead(s, steps, j)
  {
    hide Inv, Next, Overtakers, ClaimsOther, PutsAhead;
    if steps != [] {
      var front := steps[..|steps| - 1];
      OvertakingIsBounded(s, front, j);
      RunKeepsInv(s, front);
      OvertakingStep(Run(s, front), steps[|steps| - 1], j);
    }
  }
}
