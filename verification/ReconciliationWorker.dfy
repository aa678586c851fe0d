/** AuthorizationReconciliationWorker: one cycle of one tenant's worker. */
module ReconciliationWorker {
  import opened JavaScript
  import opened MatchingRules
  import opened RuleEvaluation
  import opened Sql
  import opened RuleTranslation
  import opened EffectiveRoles
  import opened EffectiveRoleTable
  import opened AuthorizationStore
  import opened MembershipReconciler
  import opened EffectiveRoleProjection
  import opened DistributedLock
  import EmployeePropagation
  import LockHash
  import Jobs = SyncJobs
  import Protocol = SyncProtocol
  import Store = SyncJobStore

  const BATCH_SIZE := 500

  // --- paging ---

  function Min(a: nat, b: nat): nat {
    if a < b then a else b
  }

  /** The page a stable ordering of the active users returns. */
  function Page(active: seq<Id>, skip: nat): seq<Id> {
    active[Min(skip, |active|)..Min(skip + BATCH_SIZE, |active|)]
  }

  /** The users the batch loop visits, whatever the pages hold. */
  function Visited(pages: nat -> seq<Id>, skip: nat, total: nat): (users: seq<Id>)
    decreases if skip < total then total - skip else 0
  {
    if skip >= total || pages(skip) == [] then []
    else pages(skip) + Visited(pages, skip + |pages(skip)|, total)
  }

  lemma VisitedUnfolds(pages: nat -> seq<Id>, skip: nat, total: nat)
    ensures Visited(pages, skip, total)
      == if skip >= total || pages(skip) == [] then [] else pages(skip) + Visited(pages, skip + |pages(skip)|, total)
  {
  }

  lemma VisitedGoesOn(pages: nat -> seq<Id>, visited: seq<Id>, total: nat)
    requires visited + Visited(pages, |visited|, total) == Visited(pages, 0, total)
    ensures |visited| >= total || pages(|visited|) == [] ==> visited == Visited(pages, 0, total)
    ensures |visited| < total && pages(|visited|) != [] ==>
      var longer := visited + pages(|visited|); longer + Visited(pages, |longer|, total) == Visited(pages, 0, total)
  {
    hide Visited;
    VisitedUnfolds(pages, |visited|, total);
    if |visited| < total && pages(|visited|) != [] {
      var users := pages(|visited|);
      var rest := Visited(pages, |visited| + |users|, total);
      assert visited + (users + rest) == (visited + users) + rest;
    } else {
      assert visited + [] == visited;
    }
  }

  /** While the paging order is stable, the loop visits every active user exactly once. */
  lemma {:induction false} StablePagingVisitsEveryoneOnce(pages: nat -> seq<Id>, active: seq<Id>, skip: nat)
    requires forall k: nat :: pages(k) == Page(active, k)
    requires skip <= |active|
    ensures Visited(pages, skip, |active|) == active[skip..]
    decreases |active| - skip
  {
    if skip < |active| {
      var next := Min(skip + BATCH_SIZE, |active|);
      assert pages(skip) == active[skip..next];
      StablePagingVisitsEveryoneOnce(pages, active, next);
      assert active[skip..] == active[skip..next] + active[next..];
    }
  }

  /** The loop stops early only on an empty page, so otherwise it reaches the total. */
  lemma {:induction false} StopsEarlyOnlyOnEmptyPage(pages: nat -> seq<Id>, skip: nat, total: nat)
    ensures skip + |Visited(pages, skip, total)| >= total || pages(skip + |Visited(pages, skip, total)|) == []
    decreases if skip < total then total - skip else 0
  {
    if skip < total && pages(skip) != [] {
      StopsEarlyOnlyOnEmptyPage(pages, skip + |pages(skip)|, total);
    }
  }

  // --- the matched population ---

  function SelectedIds(employees: map<Id, Employee>, q: Query): set<Id> {
    set e | e in employees && Selects(q, employees[e])
  }

  predicate RejectsQuery(employees: map<Id, Employee>, q: Query) {
    exists e :: e in employees && EvalAll(q.conditions, q.params, employees[e]) == Truth.Failed
  }

  /** getMatchedEmployeeIds; the database may reject the query. */
  method GetMatchedEmployeeIds(db: Database, q: Query) returns (ids: Option<seq<Id>>)
    ensures ids.None? <==> RejectsQuery(db.employees, q)
    ensures ids.Some? ==> ToSet(ids.value) == SelectedIds(db.employees, q)
  {
    if e :| e in db.employees && EvalAll(q.conditions, q.params, db.employees[e]) == Truth.Failed {
      return None;
    }
    var list := Difference(SelectedIds(db.employees, q), {});
    assert SelectedIds(db.employees, q) - {} == SelectedIds(db.employees, q);
    return Some(list);
  }

  ghost predicate OneTenant(db: Db, tenantCode: string) {
    forall e :: e in db.employees ==> db.employees[e].tenantCode == tenantCode
  }

  /** For a translatable rule the query is never rejected, and the population it selects is the
      one the evaluator defines. */
  lemma SelectedAreTheMatching(db: Db, tenantCode: string, r: Rule)
    requires RuleOk(r) && Translatable(r) && OneTenant(db, tenantCode)
    ensures !RejectsQuery(db.employees, Translate(tenantCode, r.clauses))
    ensures SelectedIds(db.employees, Translate(tenantCode, r.clauses)) == set e | e in db.employees && Evaluate(r, db.employees[e])
  {
    hide Translate, EvalAll, Selects, Evaluate, RuleOk, Translatable;
    forall e | e in db.employees
      ensures EvalAll(Translate(tenantCode, r.clauses).conditions, Translate(tenantCode, r.clauses).params, db.employees[e]) != Truth.Failed
      ensures Selects(Translate(tenantCode, r.clauses), db.employees[e]) <==> Evaluate(r, db.employees[e])
    {
      TranslationPreservesMeaning(tenantCode, r, db.employees[e]);
    }
  }

  // --- executing a job ---

  /** Which calls of a cycle throw. */
  datatype Faults = Faults(counting: bool, matching: bool, users: set<Id>, finalising: bool, recording: bool)

  /** The cached profiles of these users hold exactly their derived grants. */
  ghost predicate CachesCurrent(db: Db, entries: map<Id, Profile>, users: set<Id>) {
    forall u :: u in users ==> u in entries && RoleSet(entries[u].roles) == Derive(db, u)
  }

  lemma CachedOneMore(db: Db, before: map<Id, Profile>, after: map<Id, Profile>, users: set<Id>, u: Id)
    requires CachesCurrent(db, before, users) && after - {u} == before - {u}
    requires u in after && RoleSet(after[u].roles) == Derive(db, u)
    ensures CachesCurrent(db, after, users + {u})
  {
    hide RoleSet, Derive;
    forall v | v in users && v != u ensures v in after && after[v] == before[v] {
      assert v in before - {u} && v in after - {u};
    }
  }

  lemma NobodyCached(db: Db, entries: map<Id, Profile>)
    ensures CachesCurrent(db, entries, {})
  {
  }

  /** What a cycle came to; Rethrown is a failure that could not be recorded either. */
  datatype Cycle =
    | Contended
    | NoPendingJob
    | JobCompleted(jobId: Jobs.JobId)
    | JobFailed(jobId: Jobs.JobId)
    | Rethrown(jobId: Jobs.JobId)

  /** Nothing but the progress of one job has moved. */
  ghost predicate OnlyProgress(before: Jobs.Jobs, after: Jobs.Jobs, id: Jobs.JobId) {
    && id in before && id in after && after == before[id := after[id]]
    && after[id] == before[id].(totalUsers := after[id].totalUsers, processedUsers := after[id].processedUsers,
                                updatedAt := after[id].updatedAt)
  }

  lemma ProgressFollowsProgress(before: Jobs.Jobs, jobs: Jobs.Jobs, id: Jobs.JobId, processed: nat, total: Option<nat>, now: nat)
    requires OnlyProgress(before, jobs, id)
    ensures OnlyProgress(before, jobs[id := Jobs.Progressed(jobs[id], processed, total, now)], id)
  {
  }

  lemma AfterIgnoresProgress(db: Db, tenantCode: string, before: Jobs.Jobs, after: Jobs.Jobs, id: Jobs.JobId)
    requires OnlyProgress(before, after, id)
    ensures After(db, tenantCode, after[id]) == After(db, tenantCode, before[id])
  {
    hide WithMembers, SelectedIds, Translate;
  }

  lemma NoProgress(jobs: Jobs.Jobs, id: Jobs.JobId)
    requires id in jobs
    ensures OnlyProgress(jobs, jobs, id)
  {
  }

  lemma ProgressChains(a: Jobs.Jobs, b: Jobs.Jobs, c: Jobs.Jobs, id: Jobs.JobId)
    requires OnlyProgress(a, b, id) && OnlyProgress(b, c, id)
    ensures OnlyProgress(a, c, id)
  {
  }

  lemma ProjectedOnce(before: map<Jobs.Source, Protocol.Versions>, after: map<Jobs.Source, Protocol.Versions>,
                      was: Jobs.Jobs, jobs: Jobs.Jobs, id: Jobs.JobId)
    requires OnlyProgress(was, jobs, id) && ProjectedAtMost(before, after, was[id])
    ensures Protocol.Projected(after, jobs[id].source, jobs[id].sourceVersion)
      == Protocol.Projected(before, was[id].source, was[id].sourceVersion)
  {
  }

  lemma ProgressThenDone(before: Jobs.Jobs, jobs: Jobs.Jobs, id: Jobs.JobId, total: nat, processed: nat, now: nat)
    requires OnlyProgress(before, jobs, id) && jobs[id].totalUsers == Some(total)
    ensures jobs[id := Jobs.MarkedCompleted(jobs[id], processed, now)] == before[id := Done(before[id], total, processed, now)]
  {
  }

  /** The projection versions of the groups are one column, seen in the two views of the model. */
  ghost predicate SameProjections(groups: map<Id, Group>, sources: map<Jobs.Source, Protocol.Versions>) {
    forall g :: g in groups && Jobs.Source(Jobs.UserGroup, g) in sources ==>
      sources[Jobs.Source(Jobs.UserGroup, g)].projectionVersion == groups[g].projectionVersion
  }

  lemma ProjectingKeepsViews(groups: map<Id, Group>, sources: map<Jobs.Source, Protocol.Versions>, g: Id, version: nat)
    requires SameProjections(groups, sources)
    ensures SameProjections(WithProjection(groups, g, version), Protocol.Projected(sources, Jobs.Source(Jobs.UserGroup, g), version))
  {
  }

  lemma AfterKeepsViews(db: Db, tenantCode: string, j: Jobs.Job, sources: map<Jobs.Source, Protocol.Versions>)
    ensures var groups := After(db, tenantCode, j).groups;
      SameProjections(groups, sources) ==> SameProjections(groups, Protocol.Projected(sources, j.source, j.sourceVersion))
  {
    hide MembershipsAfter;
  }

  /** A failed job may already have advanced its group's projection version. */
  predicate ProjectedAtMost(before: map<Jobs.Source, Protocol.Versions>, after: map<Jobs.Source, Protocol.Versions>, j: Jobs.Job) {
    after in {before, Protocol.Projected(before, j.source, j.sourceVersion)}
  }

  /** The row of a job that ran to its end. */
  function Done(j: Jobs.Job, totalUsers: nat, processed: nat, now: nat): Jobs.Job {
    j.(status := Jobs.Completed, totalUsers := Some(totalUsers), processedUsers := processed, updatedAt := now)
  }

  /** The group a job reconciles, when it still exists. */
  predicate ReconcilesGroup(db: Db, j: Jobs.Job) {
    j.source.kind.UserGroup? && j.source.id in db.groups
  }

  /** Memberships once the job's group has exactly the employees its query selects. */
  function MembershipsAfter(db: Db, tenantCode: string, j: Jobs.Job): set<(Id, Id)> {
    if ReconcilesGroup(db, j) then
      WithMembers(db.memberships, j.source.id,
                  SelectedIds(db.employees, Translate(tenantCode, db.groups[j.source.id].matchingRule.clauses)))
    else db.memberships
  }

  /** The database once the job has run. */
  function After(db: Db, tenantCode: string, j: Jobs.Job): Db {
    db.(memberships := MembershipsAfter(db, tenantCode, j),
        groups := if j.source.kind.UserGroup? then WithProjection(db.groups, j.source.id, j.sourceVersion) else db.groups)
  }

  /** The source's projection has reached this version, and nothing else about any source has moved. */
  ghost predicate SourceReached(before: map<Jobs.Source, Protocol.Versions>, after: map<Jobs.Source, Protocol.Versions>,
                                x: Jobs.Source, version: nat)
  {
    && after.Keys == before.Keys && (forall y :: y in before && y != x ==> after[y] == before[y])
    && (x in before ==> after[x].tenant == before[x].tenant && after[x].version == before[x].version
                        && after[x].projectionVersion == version)
  }

  /** The same, seen on the rows of the groups. */
  ghost predicate GroupReached(before: map<Id, Group>, after: map<Id, Group>, g: Id, version: nat) {
    && after.Keys == before.Keys && (forall h :: h in before && h != g ==> after[h] == before[h])
    && (g in before ==> after[g].projectionVersion == version && after[g].version == before[g].version
                        && after[g].matchingRule == before[g].matchingRule && after[g].status == before[g].status)
  }

  /** A job that went through is closed, with everyone it visited counted. */
  predicate Closed(jobs: Jobs.Jobs, id: Jobs.JobId, totalUsers: nat, visited: nat) {
    id in jobs && jobs[id].status == Jobs.Completed && jobs[id].totalUsers == Some(totalUsers) && jobs[id].processedUsers == visited
  }

  lemma CompletionMeans(sources: map<Jobs.Source, Protocol.Versions>, db: Db, tenantCode: string, j: Jobs.Job)
    ensures SourceReached(sources, Protocol.Projected(sources, j.source, j.sourceVersion), j.source, j.sourceVersion)
    ensures j.source.kind.UserGroup? ==> GroupReached(db.groups, After(db, tenantCode, j).groups, j.source.id, j.sourceVersion)
    ensures !j.source.kind.UserGroup? ==> After(db, tenantCode, j) == db
  {
    hide MembershipsAfter;
    if !j.source.kind.UserGroup? {
      assert !ReconcilesGroup(db, j);
      RoleJobsKeepMemberships(db, tenantCode, j);
    }
  }

  lemma RoleJobsKeepMemberships(db: Db, tenantCode: string, j: Jobs.Job)
    requires !ReconcilesGroup(db, j)
    ensures MembershipsAfter(db, tenantCode, j) == db.memberships
  {
  }

  class AuthorizationReconciliationWorker {
    const t: Store.SyncTables
    const db: Database
    const roles: EffectiveRoleRepository
    const cache: UserAuthorizationCache
    const lock: DistributedLockAdapter
    const session: Session
    const tenant: Jobs.Tenant
    const tenantCode: string

    constructor (t: Store.SyncTables, db: Database, roles: EffectiveRoleRepository, cache: UserAuthorizationCache,
                 lock: DistributedLockAdapter, session: Session, tenant: Jobs.Tenant, tenantCode: string)
      ensures this.t == t && this.db == db && this.roles == roles && this.cache == cache && this.lock == lock
      ensures this.session == session
      ensures this.tenant == tenant && this.tenantCode == tenantCode
    {
      this.t, this.db, this.roles, this.cache, this.lock := t, db, roles, cache, lock;
      this.session, this.tenant, this.tenantCode := session, tenant, tenantCode;
    }

    /** The inner loop over one page; false when a recomputation throws. */
    method ProcessPage(users: seq<Id>, faults: Faults, redisUp: bool, ghost before: Rows, ghost seen: set<Id>,
                       ghost cached: set<Id>)
      returns (ok: bool)
      requires roles.Valid() && Recomputed(db.View(), before, roles.rows, seen)
      requires redisUp && SoundIds(db.View()) ==> CachesCurrent(db.View(), cache.entries, cached)
      modifies roles, cache
      ensures roles.Valid()
      ensures ok ==> Recomputed(db.View(), before, roles.rows, seen + ToSet(users))
      ensures ok && redisUp && SoundIds(db.View()) ==> CachesCurrent(db.View(), cache.entries, cached + ToSet(users))
    {
      hide Recomputed, LeavesCurrent, OthersUntouched, RoleSet, Derive, SoundIds, CountsTrue, CachesCurrent;
      assert seen + ToSet(users[..0]) == seen && cached + ToSet(users[..0]) == cached;
      for i := 0 to |users|
        invariant roles.Valid() && Recomputed(db.View(), before, roles.rows, seen + ToSet(users[..i]))
        invariant redisUp && SoundIds(db.View()) ==> CachesCurrent(db.View(), cache.entries, cached + ToSet(users[..i]))
      {
        if users[i] in faults.users {
          return false;
        }
        ghost var rows, entries := roles.rows, cache.entries;
        var result := RecomputeUserEffectiveRoles(db, roles, cache, users[i], redisUp, redisUp);
        RecomputedGrows(db.View(), before, rows, roles.rows, seen + ToSet(users[..i]), users[i]);
        assert (seen + ToSet(users[..i])) + {users[i]} == seen + ToSet(users[..i + 1]);
        assert (cached + ToSet(users[..i])) + {users[i]} == cached + ToSet(users[..i + 1]);
        if redisUp && SoundIds(db.View()) {
          CachedOneMore(db.View(), entries, cache.entries, cached + ToSet(users[..i]), users[i]);
        }
      }
      assert users[..|users|] == users;
      return true;
    }

    /** The batch loop. It ends whatever the pages hold; false when a recomputation throws. */
    method ProcessBatches(id: Jobs.JobId, totalUsers: nat, pages: nat -> seq<Id>, faults: Faults, redisUp: bool,
                          ghost before: Rows, ghost seen: set<Id>)
      returns (ok: bool, processed: nat)
      requires t.Valid() && id in t.jobs && roles.Valid() && t.jobs[id].totalUsers == Some(totalUsers)
      requires Recomputed(db.View(), before, roles.rows, seen)
      modifies t`jobs, roles, cache
      ensures t.Valid() && roles.Valid() && id in t.jobs && OnlyProgress(old(t.jobs), t.jobs, id)
      ensures t.jobs[id].totalUsers == Some(totalUsers)
      ensures ok ==> processed == |Visited(pages, 0, totalUsers)|
      ensures ok ==> Recomputed(db.View(), before, roles.rows, seen + ToSet(Visited(pages, 0, totalUsers)))
      ensures ok && redisUp && SoundIds(db.View()) ==>
        CachesCurrent(db.View(), cache.entries, ToSet(Visited(pages, 0, totalUsers)))
    {
      hide Recomputed, RoleSet, Derive, SoundIds, Visited, OnlyProgress, Jobs.UniqueInFlight, CachesCurrent;
      processed := 0;
      ghost var visited: seq<Id> := [];
      assert seen + ToSet(visited) == seen && visited + Visited(pages, 0, totalUsers) == Visited(pages, 0, totalUsers);
      NoProgress(t.jobs, id);
      assert ToSet(visited) == {};
      NobodyCached(db.View(), cache.entries);
      while processed < totalUsers
        invariant t.Valid() && roles.Valid() && id in t.jobs && OnlyProgress(old(t.jobs), t.jobs, id)
        invariant t.jobs[id].totalUsers == Some(totalUsers)
        invariant processed == |visited| && visited + Visited(pages, processed, totalUsers) == Visited(pages, 0, totalUsers)
        invariant Recomputed(db.View(), before, roles.rows, seen + ToSet(visited))
        invariant redisUp && SoundIds(db.View()) ==> CachesCurrent(db.View(), cache.entries, ToSet(visited))
        decreases totalUsers - processed
      {
        VisitedGoesOn(pages, visited, totalUsers);
        var users := pages(processed);
        if |users| == 0 {
          break;
        }
        ok := ProcessPage(users, faults, redisUp, before, seen + ToSet(visited), ToSet(visited));
        if !ok {
          return false, processed;
        }
        assert ToSet(visited + users) == ToSet(visited) + ToSet(users);
        assert (seen + ToSet(visited)) + ToSet(users) == seen + ToSet(visited + users);
        visited := visited + users;
        processed := processed + |users|;
        ProgressFollowsProgress(old(t.jobs), t.jobs, id, processed, Some(totalUsers), t.now);
        t.UpdateProgress(id, processed, Some(totalUsers));
      }
      VisitedGoesOn(pages, visited, totalUsers);
      return true, processed;
    }

    /** The user-group part of a job: match, then reconcile; false when one of them throws. */
    method ReconcileSource(id: Jobs.JobId, faults: Faults) returns (ok: bool, ghost touched: set<Id>)
      requires id in t.jobs && roles.Valid()
      modifies t`sources, db`memberships, db`groups, roles
      ensures roles.Valid()
      ensures ok ==> db.View() == After(old(db.View()), tenantCode, t.jobs[id])
      ensures ok ==> Recomputed(db.View(), old(roles.rows), roles.rows, touched)
      ensures ProjectedAtMost(old(t.sources), t.sources, t.jobs[id])
      ensures SameProjections(old(db.groups), old(t.sources)) ==> SameProjections(db.groups, t.sources)
    {
      hide SameProjections, Recomputed, WithMembers, SelectedIds, MembersOf, RejectsQuery;
      touched := {};
      var job := t.jobs[id];
      var gid := job.source.id;
      if !job.source.kind.UserGroup? || gid !in db.groups {
        NothingRecomputed(db.View(), roles.rows);
        return true, {};
      }
      var q := BuildMatchingQuery(tenantCode, db.groups[gid].matchingRule);
      var matched := GetMatchedEmployeeIds(db, q);
      if faults.matching || matched.None? {
        return false, {};
      }
      if SameProjections(db.groups, t.sources) {
        ProjectingKeepsViews(db.groups, t.sources, gid, job.sourceVersion);
      }
      var result := ReconcileGroupPopulation(db, roles, gid, matched.value, job.sourceVersion);
      t.sources := Protocol.Projected(t.sources, job.source, job.sourceVersion);
      return true, ToSet(result.addedEmployeeIds) + ToSet(result.removedEmployeeIds);
    }

    /** executeJob. */
    method ExecuteJob(id: Jobs.JobId, totalUsers: nat, pages: nat -> seq<Id>, faults: Faults, redisUp: bool)
      returns (ok: bool, ghost touched: set<Id>)
      requires t.Valid() && id in t.jobs && roles.Valid()
      modifies t`jobs, t`outbox, t`sources, db`memberships, db`groups, roles, cache
      ensures t.Valid() && roles.Valid()
      ensures ok ==> t.jobs == old(t.jobs)[id := Done(old(t.jobs)[id], totalUsers, |Visited(pages, 0, totalUsers)|, t.now)]
      ensures ok ==> t.outbox == old(t.outbox) + [Jobs.SyncCompleted(id)]
      ensures ok ==> t.sources == Protocol.Projected(old(t.sources), old(t.jobs)[id].source, old(t.jobs)[id].sourceVersion)
      ensures ok ==> db.View() == After(old(db.View()), tenantCode, old(t.jobs)[id])
      ensures ok ==> Closed(t.jobs, id, totalUsers, |Visited(pages, 0, totalUsers)|)
      ensures ok ==> SourceReached(old(t.sources), t.sources, old(t.jobs)[id].source, old(t.jobs)[id].sourceVersion)
      ensures ok && old(t.jobs)[id].source.kind.UserGroup? ==>
        GroupReached(old(db.groups), db.groups, old(t.jobs)[id].source.id, old(t.jobs)[id].sourceVersion)
      ensures ok ==> ToSet(Visited(pages, 0, totalUsers)) <= touched && Recomputed(db.View(), old(roles.rows), roles.rows, touched)
      ensures ok && redisUp && SoundIds(db.View()) ==>
        CachesCurrent(db.View(), cache.entries, ToSet(Visited(pages, 0, totalUsers)))
      ensures !ok ==> t.outbox == old(t.outbox) && OnlyProgress(old(t.jobs), t.jobs, id)
      ensures !ok ==> ProjectedAtMost(old(t.sources), t.sources, old(t.jobs)[id])
      ensures SameProjections(old(db.groups), old(t.sources)) ==> SameProjections(db.groups, t.sources)
    {
      hide SameProjections, Recomputed, CachesCurrent, WithMembers, SelectedIds, SoundIds, Jobs.UniqueInFlight, Visited, OnlyProgress, ToSet,
           Protocol.Projected, Done, After, SourceReached, GroupReached;
      touched := {};
      ghost var jobs, rows := t.jobs, roles.rows;
      NoProgress(jobs, id);
      if faults.counting {
        return false, {};
      }
      ProgressFollowsProgress(jobs, t.jobs, id, 0, Some(totalUsers), t.now);
      t.UpdateProgress(id, 0, Some(totalUsers));
      AfterIgnoresProgress(db.View(), tenantCode, jobs, t.jobs, id);
      ok, touched := ReconcileSource(id, faults);
      if !ok {
        return false, {};
      }
      var processed;
      ghost var started := t.jobs;
      ok, processed := ProcessBatches(id, totalUsers, pages, faults, redisUp, rows, touched);
      ProgressChains(jobs, started, t.jobs, id);
      if !ok || faults.finalising {
        return false, {};
      }
      touched := touched + ToSet(Visited(pages, 0, totalUsers));
      var job := t.jobs[id];
      ProjectedOnce(old(t.sources), t.sources, jobs, t.jobs, id);
      AfterKeepsViews(old(db.View()), tenantCode, jobs[id], t.sources);
      t.sources := Protocol.Projected(t.sources, job.source, job.sourceVersion);
      ProgressThenDone(jobs, t.jobs, id, totalUsers, processed, t.now);
      t.MarkCompleted(id, processed);
      t.outbox := t.outbox + [Jobs.SyncCompleted(id)];
      CompletionMeans(old(t.sources), old(db.View()), tenantCode, jobs[id]);
      return true, touched;
    }

    /** handleJobFailure; it may throw as well. */
    method HandleJobFailure(id: Jobs.JobId, faults: Faults) returns (recorded: bool)
      requires t.Valid() && id in t.jobs
      modifies t`jobs, t`outbox
      ensures t.Valid() && recorded == !faults.recording
      ensures t.jobs == if recorded then old(t.jobs)[id := Jobs.MarkedFailed(old(t.jobs)[id], t.now)] else old(t.jobs)
      ensures t.outbox == if recorded then old(t.outbox) + [Jobs.SyncFailed(id)] else old(t.outbox)
    {
      if faults.recording {
        return false;
      }
      t.MarkFailed(id);
      t.outbox := t.outbox + [Jobs.SyncFailed(id)];
      return true;
    }

    /** processNextJob. The lock is free again on every path; at most one job is claimed, the least
        pending one, and it ends completed, or failed, or, when even that could not be written,
        still processing for the watchdog to find. */
    method ProcessNextJob(totalUsers: nat, pages: nat -> seq<Id>, faults: Faults, redisUp: bool)
      returns (cycle: Cycle, ghost touched: set<Id>)
      requires t.Valid() && roles.Valid() && CountsRight(lock.held)
      modifies t`jobs, t`outbox, t`sources, db`memberships, db`groups, roles, cache, lock
      ensures t.Valid() && roles.Valid()
      ensures lock.held == old(lock.held)
      ensures cycle.Contended? <==> HeldByOther(old(lock.held), session, LockHash.WorkerLockId(tenant))
      ensures cycle.Contended? || cycle.NoPendingJob? ==>
        (t.jobs == old(t.jobs) && t.outbox == old(t.outbox) && db.View() == old(db.View()) && roles.rows == old(roles.rows))
      ensures cycle.NoPendingJob? ==> forall id :: id in t.jobs ==> !Jobs.PendingOf(t.jobs, tenant, id)
      ensures !cycle.Contended? && !cycle.NoPendingJob? ==> Jobs.NextToClaim(old(t.jobs), tenant, cycle.jobId)
      ensures cycle.JobCompleted? ==>
        var id, claimed := cycle.jobId, Jobs.Claimed(old(t.jobs)[cycle.jobId], t.now);
        && t.jobs == old(t.jobs)[id := Done(claimed, totalUsers, |Visited(pages, 0, totalUsers)|, t.now)]
        && t.outbox == old(t.outbox) + [Jobs.SyncCompleted(id)]
        && t.sources == Protocol.Projected(old(t.sources), claimed.source, claimed.sourceVersion)
        && db.View() == After(old(db.View()), tenantCode, claimed)
        && Closed(t.jobs, id, totalUsers, |Visited(pages, 0, totalUsers)|)
        && SourceReached(old(t.sources), t.sources, claimed.source, claimed.sourceVersion)
        && (claimed.source.kind.UserGroup? ==> GroupReached(old(db.groups), db.groups, claimed.source.id, claimed.sourceVersion))
        && ToSet(Visited(pages, 0, totalUsers)) <= touched
        && Recomputed(db.View(), old(roles.rows), roles.rows, touched)
        && (redisUp && SoundIds(db.View()) ==> CachesCurrent(db.View(), cache.entries, ToSet(Visited(pages, 0, totalUsers))))
      ensures SameProjections(old(db.groups), old(t.sources)) ==> SameProjections(db.groups, t.sources)
      ensures cycle.JobFailed? ==>
        && cycle.jobId in t.jobs && t.jobs == old(t.jobs)[cycle.jobId := t.jobs[cycle.jobId]]
        && t.jobs[cycle.jobId].status.Failed? && t.outbox == old(t.outbox) + [Jobs.SyncFailed(cycle.jobId)]
      ensures cycle.Rethrown? ==>
        && cycle.jobId in t.jobs && t.jobs == old(t.jobs)[cycle.jobId := t.jobs[cycle.jobId]]
        && t.jobs[cycle.jobId].status.Processing? && t.outbox == old(t.outbox)
    {
      hide SameProjections, Recomputed, CachesCurrent, SoundIds, Jobs.UniqueInFlight, Visited, ToSet, Protocol.Projected, After, Jobs.NextToClaim,
           LockHash.HashOf, SourceReached, GroupReached, Closed;
      touched := {};
      var lockKey := LockHash.WORKER_LOCK_PREFIX + tenant;
      var acquired := lock.AcquireLock(session, lockKey);
      if !acquired {
        return Contended, touched;
      }
      ReleaseUndoesAcquire(old(lock.held), session, LockHash.HashOf(lockKey));
      var claimed := t.ClaimNextPendingJob(tenant);
      if claimed.None? {
        cycle := NoPendingJob;
      } else {
        NextToClaimExists(old(t.jobs), tenant, claimed.value);
        var ok;
        ok, touched := ExecuteJob(claimed.value, totalUsers, pages, faults, redisUp);
        if ok {
          cycle := JobCompleted(claimed.value);
        } else {
          var recorded := HandleJobFailure(claimed.value, faults);
          cycle := if recorded then JobFailed(claimed.value) else Rethrown(claimed.value);
        }
      }
      var released := lock.ReleaseLock(session, lockKey);
    }
  }

  lemma NextToClaimExists(jobs: Jobs.Jobs, tenant: Jobs.Tenant, id: Jobs.JobId)
    requires Jobs.NextToClaim(jobs, tenant, id)
    ensures id in jobs
  {
  }

  // --- what a completed job has established ---

  /** The members of the job's group are exactly the employees its query selects. */
  lemma MembersAreTheSelected(db: Db, tenantCode: string, j: Jobs.Job)
    requires ReconcilesGroup(db, j)
    ensures MembersOf(After(db, tenantCode, j), j.source.id)
      == SelectedIds(db.employees, Translate(tenantCode, db.groups[j.source.id].matchingRule.clauses))
  {
    hide SelectedIds, Translate;
    var after, g := After(db, tenantCode, j), j.source.id;
    var selected := SelectedIds(db.employees, Translate(tenantCode, db.groups[g].matchingRule.clauses));
    forall u ensures u in MembersOf(after, g) <==> u in selected {
      assert (u, g) in after.memberships <==> u in selected;
      if u in MembersOf(after, g) {
        var m :| m in after.memberships && m.1 == g && m.0 == u;
        assert m == (u, g);
      }
    }
  }

  /** A completed job under stable paging: every active user was visited exactly once and has exactly
      its derived rows, and the job's group holds exactly the employees its rule matches. */
  lemma CompletedJobReachesDefinition(db: Db, tenantCode: string, j: Jobs.Job, pages: nat -> seq<Id>, active: seq<Id>,
                                      before: Rows, after: Rows, touched: set<Id>)
    requires forall k: nat :: pages(k) == Page(active, k)
    requires ToSet(Visited(pages, 0, |active|)) <= touched
    requires Recomputed(After(db, tenantCode, j), before, after, touched)
    ensures Visited(pages, 0, |active|) == active
    ensures WellKept(before) && SoundIds(After(db, tenantCode, j)) ==>
      WellKept(after) && forall u :: u in active ==> RolesCurrent(After(db, tenantCode, j), after, u)
    ensures ReconcilesGroup(db, j) && OneTenant(db, tenantCode) && RuleOk(db.groups[j.source.id].matchingRule)
            && Translatable(db.groups[j.source.id].matchingRule) ==>
      MembersOf(After(db, tenantCode, j), j.source.id)
        == set e | e in db.employees && Evaluate(db.groups[j.source.id].matchingRule, db.employees[e])
  {
    hide WellKept, SoundIds, RolesCurrent, After, MembersOf, SelectedIds, Evaluate, RuleOk, Translatable, Translate;
    StablePagingVisitsEveryoneOnce(pages, active, 0);
    assert active[0..] == active;
    forall u | u in active ensures u in touched {
      assert u in ToSet(active);
    }
    if ReconcilesGroup(db, j) {
      MembersAreTheSelected(db, tenantCode, j);
      if OneTenant(db, tenantCode) && RuleOk(db.groups[j.source.id].matchingRule) && Translatable(db.groups[j.source.id].matchingRule) {
        SelectedAreTheMatching(db, tenantCode, db.groups[j.source.id].matchingRule);
      }
    }
  }

  /** What the event handlers maintain for one group: an employee's user is in it iff its rule matches. */
  ghost predicate GroupCurrent(db: Db, g: Id)
    requires g in db.groups
  {
    forall e :: e in db.employees && e in db.userOf ==>
      ((db.userOf[e], g) in db.memberships <==> Evaluate(db.groups[g].matchingRule, db.employees[e]))
  }

  /** A user's id, read as an employee's id, gets the same verdict as the employee the user belongs to. */
  predicate SameVerdict(db: Db, r: Rule, e: Id)
    requires e in db.employees && e in db.userOf
  {
    (db.userOf[e] in db.employees && Evaluate(r, db.employees[db.userOf[e]])) <==> Evaluate(r, db.employees[e])
  }

  /** The batch path stores employee ids where the event path stores user ids. Its result is the one
      the event path maintains exactly when the two ids of every employee get the same verdict, as
      they do when they are equal. */
  lemma BatchAgreesWithEventsExactly(db: Db, tenantCode: string, j: Jobs.Job)
    requires ReconcilesGroup(db, j) && OneTenant(db, tenantCode)
    requires RuleOk(db.groups[j.source.id].matchingRule) && Translatable(db.groups[j.source.id].matchingRule)
    ensures GroupCurrent(After(db, tenantCode, j), j.source.id) <==>
      forall e :: e in db.employees && e in db.userOf ==> SameVerdict(db, db.groups[j.source.id].matchingRule, e)
  {
    hide SelectedIds, Evaluate, RuleOk, Translatable, Translate;
    var after, g := After(db, tenantCode, j), j.source.id;
    SelectedAreTheMatching(db, tenantCode, db.groups[g].matchingRule);
    MembersAreTheSelected(db, tenantCode, j);
    forall u ensures (u, g) in after.memberships <==> u in db.employees && Evaluate(db.groups[g].matchingRule, db.employees[u]) {
      assert (u, g) in after.memberships ==> u in MembersOf(after, g);
      if u in MembersOf(after, g) {
        var m :| m in after.memberships && m.1 == g && m.0 == u;
        assert m == (u, g);
      }
    }
    assert after.groups[g].matchingRule == db.groups[g].matchingRule;
    forall e | e in db.employees && e in db.userOf
      ensures ((after.userOf[e], g) in after.memberships <==> Evaluate(after.groups[g].matchingRule, after.employees[e]))
        <==> SameVerdict(db, db.groups[g].matchingRule, e)
    {
    }
    if GroupCurrent(after, g) {
      forall e | e in db.employees && e in db.userOf ensures SameVerdict(db, db.groups[g].matchingRule, e) {
        assert e in after.employees && e in after.userOf;
      }
    }
  }

  /** The first steps of a job that goes through; only a user group is reconciled. */
  function FirstSteps(w: Protocol.Actor, kind: Jobs.SourceKind, total: nat): seq<Protocol.Step> {
    [Protocol.Progress(w, 0, Some(total))] + if kind.UserGroup? then [Protocol.Reconcile(w)] else []
  }

  lemma FirstStepsRun(s: Protocol.State, w: Protocol.Actor, total: nat)
    requires w in s.workers && s.workers[w].Executing? && s.workers[w].jobId in s.jobs
    ensures var id := s.workers[w].jobId;
      var j := s.jobs[id];
      Protocol.Run(s, FirstSteps(w, j.source.kind, total)) == s.(
        jobs := s.jobs[id := Jobs.Progressed(j, 0, Some(total), s.clock)],
        sources := if j.source.kind.UserGroup? then Protocol.Projected(s.sources, j.source, j.sourceVersion) else s.sources)
  {
    hide Protocol.Run, Protocol.Projected;
    var begin := Protocol.Progress(w, 0, Some(total));
    var one := ProgressNext(s, w, 0, total);
    if s.jobs[s.workers[w].jobId].source.kind.UserGroup? {
      var two := ReconcileNext(one, w);
      Store.RunTwo(s, begin, Protocol.Reconcile(w));
      assert [begin] + [Protocol.Reconcile(w)] == [begin, Protocol.Reconcile(w)];
    } else {
      Store.RunAppend(s, [], begin);
      assert [] + [begin] == [begin] == [begin] + [];
      RunOfNothing(s);
    }
  }

  lemma RunOfNothing(s: Protocol.State)
    ensures Protocol.Run(s, []) == s
  {
  }

  /** A job that goes through, of a user group or of a role, moves the tables as the worker's steps of the
      protocol do, so its invariants cover it. */
  lemma CompletedJobIsARunOfTheProtocol(s: Protocol.State, w: Protocol.Actor, total: nat, processed: nat)
    requires w in s.workers && s.workers[w].Executing? && s.workers[w].jobId in s.jobs
    ensures var id := s.workers[w].jobId;
      var t := Protocol.Run(s, FirstSteps(w, s.jobs[id].source.kind, total)
                               + [Protocol.Progress(w, processed, Some(total))] + [Protocol.Finish(w, processed)]);
      && t.jobs == s.jobs[id := Done(s.jobs[id], total, processed, s.clock)]
      && t.outbox == s.outbox + [Jobs.SyncCompleted(id)]
      && t.sources == Protocol.Projected(s.sources, s.jobs[id].source, s.jobs[id].sourceVersion)
      && t.locks == Protocol.Unlocked(s, w) && w !in t.workers
  {
    var id := s.workers[w].jobId;
    var j := s.jobs[id];
    var first := FirstSteps(w, j.source.kind, total);
    hide Protocol.Run, FirstSteps, Protocol.Projected;
    FirstStepsRun(s, w, total);
    Store.RunAppend(s, first, Protocol.Progress(w, processed, Some(total)));
    Store.RunAppend(s, first + [Protocol.Progress(w, processed, Some(total))], Protocol.Finish(w, processed));
    var three := ProgressNext(Protocol.Run(s, first), w, processed, total);
    FinishNext(three, w, processed);
    hide Protocol.Next, Protocol.Enabled, Protocol.FinishState;
    ProjectedTwice(s.sources, j.source, j.sourceVersion);
    ProgressTwiceThenDone(s.jobs, id, total, processed, s.clock);
  }

  lemma ProgressTwiceThenDone(jobs: Jobs.Jobs, id: Jobs.JobId, total: nat, processed: nat, now: nat)
    requires id in jobs
    ensures var one := jobs[id := Jobs.Progressed(jobs[id], 0, Some(total), now)];
      var two := one[id := Jobs.Progressed(one[id], processed, Some(total), now)];
      two[id := Jobs.MarkedCompleted(two[id], processed, now)] == jobs[id := Done(jobs[id], total, processed, now)]
  {
  }

  lemma ProgressNext(s: Protocol.State, w: Protocol.Actor, processed: nat, total: nat) returns (t: Protocol.State)
    requires w in s.workers && s.workers[w].Executing? && s.workers[w].jobId in s.jobs
    ensures t == Protocol.Next(s, Protocol.Progress(w, processed, Some(total)))
    ensures t == s.(jobs := s.jobs[s.workers[w].jobId :=
                                     Jobs.Progressed(s.jobs[s.workers[w].jobId], processed, Some(total), s.clock)])
  {
    t := Protocol.Next(s, Protocol.Progress(w, processed, Some(total)));
  }

  lemma ReconcileNext(s: Protocol.State, w: Protocol.Actor) returns (t: Protocol.State)
    requires w in s.workers && s.workers[w].Executing? && s.workers[w].jobId in s.jobs
    requires s.jobs[s.workers[w].jobId].source.kind.UserGroup?
    ensures t == Protocol.Next(s, Protocol.Reconcile(w))
    ensures var j := s.jobs[s.workers[w].jobId]; t == s.(sources := Protocol.Projected(s.sources, j.source, j.sourceVersion))
  {
    t := Protocol.Next(s, Protocol.Reconcile(w));
  }

  lemma FinishNext(s: Protocol.State, w: Protocol.Actor, processed: nat)
    requires w in s.workers && s.workers[w].Executing? && s.workers[w].jobId in s.jobs
    ensures Protocol.Enabled(s, Protocol.Finish(w, processed))
    ensures var id, t := s.workers[w].jobId, Protocol.Next(s, Protocol.Finish(w, processed));
      && t.jobs == s.jobs[id := Jobs.MarkedCompleted(s.jobs[id], processed, s.clock)]
      && t.outbox == s.outbox + [Jobs.SyncCompleted(id)]
      && t.sources == Protocol.Projected(s.sources, s.jobs[id].source, s.jobs[id].sourceVersion)
      && t.locks == Protocol.Unlocked(s, w) && w !in t.workers
  {
    hide Protocol.Projected, LockHash.WorkerLockId;
  }

  lemma ProjectedTwice(sources: map<Jobs.Source, Protocol.Versions>, source: Jobs.Source, version: nat)
    ensures Protocol.Projected(Protocol.Projected(sources, source, version), source, version)
      == Protocol.Projected(sources, source, version)
  {
  }

  /** A job for the one group of the witness store. */
  function WitnessJob(): Jobs.Job {
    Jobs.NewJob([], Jobs.Source(Jobs.UserGroup, "group"), 1, Jobs.Manual, Jobs.Standard, 0)
  }

  /** One employee, its user under another id, and a group whose rule the employee matches: the memberships
      are right before the batch and wrong after it, since the employee's id has replaced the user's. */
  lemma BatchBreaksMembershipsOfRenamedUsers()
    ensures var db := EmployeePropagation.WitnessStore("employee", CompanyId);
      && Indexed(db) && MembershipsCurrent(db) && ReconcilesGroup(db, WitnessJob())
      && !GroupCurrent(After(db, "", WitnessJob()), "group")
  {
    hide Translate, Evaluate, RuleOk, SelectedIds, AttributeOf, OperatorOf;
    var db := EmployeePropagation.WitnessStore("employee", CompanyId);
    var rule := db.groups["group"].matchingRule;
    EmployeePropagation.WitnessIsCurrent("employee", CompanyId);
    EmployeePropagation.WitnessRule(CompanyId, db.employees["employee"]);
    WitnessRuleIsTranslatable();
    BatchAgreesWithEventsExactly(db, "", WitnessJob());
    assert Evaluate(rule, db.employees["employee"]) && db.userOf["employee"] == "user" && "user" !in db.employees;
    assert !SameVerdict(db, rule, "employee");
  }

  lemma WitnessRuleIsTranslatable()
    ensures Translatable(EmployeePropagation.WitnessStore("", CompanyId).groups["group"].matchingRule)
  {
    var c := EmployeePropagation.WitnessStore("", CompanyId).groups["group"].matchingRule.clauses[0];
    assert ToLower("exists") == "exists";
    assert OperatorIn(c) == Exists && AttributeIn(c) == Text(CompanyId);
  }
}
