/** ScheduledReconciliationScanner: the sweep that requests a job for every dirty entity. */
module ReconciliationScanner {
  import opened JavaScript
  import opened SyncJobs
  import opened SyncProtocol
  import opened SyncJobStore

  /** The query's version <> COALESCE(projection_version, 0). */
  function DirtyOf(sources: map<Source, Versions>, kind: SourceKind): set<Source> {
    set x | x in sources && x.kind == kind && sources[x].version != sources[x].projectionVersion
  }

  function Dirty(sources: map<Source, Versions>): set<Source> {
    DirtyOf(sources, UserGroup) + DirtyOf(sources, Role)
  }

  function Elements<T>(xs: seq<T>): set<T> {
    set x | x in xs
  }

  predicate Distinct<T(==)>(xs: seq<T>) {
    forall i, k :: 0 <= i < k < |xs| ==> xs[i] != xs[k]
  }

  /** The rows of a query, each once. */
  method RowsOf<T(==)>(s: set<T>) returns (xs: seq<T>)
    ensures Elements(xs) == s && Distinct(xs)
  {
    xs := [];
    var todo := s;
    while todo != {}
      invariant todo <= s && Elements(xs) == s - todo && Distinct(xs)
    {
      var x :| x in todo;
      assert x !in Elements(xs) && Elements(xs + [x]) == Elements(xs) + {x};
      xs, todo := xs + [x], todo - {x};
    }
  }

  function OfTenant(list: seq<Source>, sources: map<Source, Versions>, tenant: Tenant): (xs: seq<Source>)
    requires Elements(list) <= sources.Keys
    ensures forall x :: x in xs <==> x in list && sources[x].tenant == tenant
    ensures Distinct(list) ==> Distinct(xs)
  {
    if list == [] then []
    else
      assert Elements(list[1..]) <= Elements(list) && list[0] in Elements(list);
      assert Distinct(list) ==> list[0] !in list[1..] && Distinct(list[1..]);
      var rest := OfTenant(list[1..], sources, tenant);
      if sources[list[0]].tenant == tenant then [list[0]] + rest else rest
  }

  // --- what a sweep has done so far ---

  /** The row a sweep adds for a source. */
  function SweepJob(sources: map<Source, Versions>, x: Source, now: nat): Job
    requires x in sources
  {
    NewJob(sources[x].tenant, x, sources[x].version, Scheduled, Standard, now)
  }

  function Added(before: Tables, after: Tables): set<JobId> {
    set id | id in after.jobs && id !in before.jobs
  }

  ghost predicate AddedFor(sources: map<Source, Versions>, before: Tables, j: Job, done: set<Source>, now: nat) {
    j.source in done && j.source in sources && j == SweepJob(sources, j.source, now)
    && Nobody(before.jobs, j.source, sources[j.source].version)
  }

  /** Rows have only been added, for sources in done that had no job in flight for their version. */
  ghost predicate RowsAdded(sources: map<Source, Versions>, before: Tables, after: Tables, done: set<Source>, now: nat) {
    && (forall id :: id in before.jobs ==> id in after.jobs && after.jobs[id] == before.jobs[id])
    && (forall id :: id in Added(before, after) ==> AddedFor(sources, before, after.jobs[id], done, now))
  }

  /** Each source has a job in flight for its version. */
  ghost predicate AllInFlight(sources: map<Source, Versions>, jobs: Jobs, done: set<Source>) {
    forall x :: x in done ==> x in sources && !Nobody(jobs, x, sources[x].version)
  }

  function EventsFor(ids: set<JobId>): multiset<Event> {
    multiset(set id | id in ids :: SyncRequested(id))
  }

  /** Every added row, and nothing else, has been announced. */
  ghost predicate Announced(before: Tables, after: Tables) {
    before.outbox <= after.outbox && multiset(after.outbox) == multiset(before.outbox) + EventsFor(Added(before, after))
  }

  /** The sources in done have been requested: each has a job in flight for its version; the rows added
      are for those that had none; each addition is announced, and nothing else has moved. */
  ghost predicate Requested(sources: map<Source, Versions>, before: Tables, after: Tables, done: set<Source>, now: nat) {
    RowsAdded(sources, before, after, done, now) && AllInFlight(sources, after.jobs, done) && Announced(before, after)
  }

  lemma RequestedNothing(sources: map<Source, Versions>, before: Tables, now: nat)
    ensures Requested(sources, before, before, {}, now)
  {
    assert Added(before, before) == {};
    assert (set id | id in Added(before, before) :: SyncRequested(id)) == {};
  }

  lemma RequestedExisting(sources: map<Source, Versions>, before: Tables, after: Tables, done: set<Source>, now: nat, x: Source)
    requires Requested(sources, before, after, done, now) && x in sources && !Nobody(after.jobs, x, sources[x].version)
    ensures Requested(sources, before, after, done + {x}, now)
  {
    hide Announced, Nobody;
  }

  lemma AnnouncedOneMore(before: Tables, after: Tables, id: JobId, next: Tables)
    requires Announced(before, after) && id !in after.jobs
    requires id !in before.jobs && next.jobs.Keys == after.jobs.Keys + {id} && next.outbox == after.outbox + [SyncRequested(id)]
    ensures Announced(before, next)
  {
    hide EventsFor;
    assert Added(before, next) == Added(before, after) + {id};
    OneMoreEvent(Added(before, after), id);
    assert multiset(next.outbox) == multiset(after.outbox) + multiset{SyncRequested(id)};
  }

  lemma OneMoreEvent(ids: set<JobId>, id: JobId)
    requires id !in ids
    ensures EventsFor(ids + {id}) == EventsFor(ids) + multiset{SyncRequested(id)}
  {
    var few := set k | k in ids :: SyncRequested(k);
    var more := set k | k in ids + {id} :: SyncRequested(k);
    assert more == few + {SyncRequested(id)} && SyncRequested(id) !in few;
  }

  lemma StillNobodyBefore(before: Jobs, after: Jobs, x: Source, version: nat)
    requires forall id :: id in before ==> id in after && after[id] == before[id]
    requires Nobody(after, x, version)
    ensures Nobody(before, x, version)
  {
    forall k | k in before ensures !HoldsKey(before, k, x, version) {
      assert !HoldsKey(after, k, x, version);
    }
  }

  lemma OneMoreInFlight(sources: map<Source, Versions>, jobs: Jobs, done: set<Source>, id: JobId, j: Job)
    requires AllInFlight(sources, jobs, done) && id !in jobs && InFlight(j)
    requires j.source in sources && j.sourceVersion == sources[j.source].version
    ensures AllInFlight(sources, jobs[id := j], done + {j.source})
  {
    var next := jobs[id := j];
    assert HoldsKey(next, id, j.source, j.sourceVersion);
    forall y | y in done ensures !Nobody(next, y, sources[y].version) {
      var k :| k in jobs && HoldsKey(jobs, k, y, sources[y].version);
      assert HoldsKey(next, k, y, sources[y].version);
    }
  }

  lemma RequestedQueued(sources: map<Source, Versions>, before: Tables, after: Tables, done: set<Source>, now: nat,
                        x: Source, id: JobId, next: Tables)
    requires Requested(sources, before, after, done, now) && x in sources && id !in after.jobs
    requires Nobody(after.jobs, x, sources[x].version)
    requires next.jobs == after.jobs[id := SweepJob(sources, x, now)] && next.outbox == after.outbox + [SyncRequested(id)]
    ensures Requested(sources, before, next, done + {x}, now)
  {
    hide Nobody, Announced, AllInFlight;
    AnnouncedOneMore(before, after, id, next);
    StillNobodyBefore(before.jobs, after.jobs, x, sources[x].version);
    OneMoreInFlight(sources, after.jobs, done, id, SweepJob(sources, x, now));
    forall k | k in Added(before, next) ensures AddedFor(sources, before, next.jobs[k], done + {x}, now) {
      assert k == id || k in Added(before, after);
    }
  }

  predicate Below(jobs: Jobs, bound: nat) {
    forall id :: id in jobs ==> id < bound
  }

  /** One guarded call of enqueueSyncJob, with nothing committed by others in between. */
  method RequestOne(t: SyncTables, tenant: Tenant, x: Source, freshId: nat, ghost before: Tables, ghost done: set<Source>)
    returns (hasJobId: bool)
    requires t.Valid() && x in t.sources && t.sources[x].tenant == tenant && Below(t.jobs, freshId)
    requires Requested(t.sources, before, Tables(t.jobs, t.outbox), done, t.now)
    modifies t`jobs, t`outbox
    ensures t.Valid() && hasJobId && Below(t.jobs, freshId + 1)
    ensures Requested(t.sources, before, Tables(t.jobs, t.outbox), done + {x}, t.now)
  {
    hide Requested, UniqueInFlight, Blocked, Nobody;
    ghost var tables := Tables(t.jobs, t.outbox);
    var version := t.sources[x].version;
    var others := Interleaving(Tables(t.jobs, t.outbox), Tables(t.jobs, t.outbox));
    var response := EnqueueSyncJob(t, tenant, x, Some(version), Scheduled, Standard, true, freshId, others);
    NoViolation(tables.jobs, freshId, x, version, SweepJob(t.sources, x, t.now));
    if response.Existing? {
      SomebodyHolds(tables.jobs, response.jobId, x, version);
      RequestedExisting(t.sources, before, tables, done, t.now, x);
    } else {
      RequestedQueued(t.sources, before, tables, done, t.now, x, freshId, Tables(t.jobs, t.outbox));
    }
    return response.Existing? || response.Queued?;
  }

  lemma SomebodyHolds(jobs: Jobs, id: JobId, x: Source, version: nat)
    requires HoldsKey(jobs, id, x, version)
    ensures !Nobody(jobs, x, version)
  {
  }

  /** One of the two loops of handleByTenant; the calls for sources in failing throw and are caught. */
  method RequestAll(t: SyncTables, tenant: Tenant, list: seq<Source>, failing: set<Source>, freshId: nat,
                    ghost before: Tables, ghost done: set<Source>)
    returns (jobsEnqueued: nat, nextId: nat)
    requires t.Valid() && Distinct(list) && Below(t.jobs, freshId)
    requires forall x :: x in list ==> x in t.sources && t.sources[x].tenant == tenant
    requires Requested(t.sources, before, Tables(t.jobs, t.outbox), done, t.now)
    modifies t`jobs, t`outbox
    ensures t.Valid() && Below(t.jobs, nextId)
    ensures Requested(t.sources, before, Tables(t.jobs, t.outbox), done + (Elements(list) - failing), t.now)
    ensures jobsEnqueued == |Elements(list) - failing|
  {
    hide Requested, UniqueInFlight, Blocked, Elements, Distinct;
    jobsEnqueued, nextId := 0, freshId;
    HandledNothing(list, failing, done);
    for i := 0 to |list|
      invariant t.Valid() && Below(t.jobs, nextId)
      invariant Requested(t.sources, before, Tables(t.jobs, t.outbox), done + (Elements(list[..i]) - failing), t.now)
      invariant jobsEnqueued == |Elements(list[..i]) - failing|
    {
      var x := list[i];
      HandledOneMore(list, i, failing, done);
      if x in failing {
        continue;
      }
      ghost var so := done + (Elements(list[..i]) - failing);
      var hasJobId := RequestOne(t, tenant, x, nextId, before, so);
      if hasJobId {
        jobsEnqueued := jobsEnqueued + 1;
      }
      nextId := nextId + 1;
    }
    assert list[..|list|] == list;
  }

  lemma HandledNothing(list: seq<Source>, failing: set<Source>, done: set<Source>)
    ensures Elements(list[..0]) - failing == {} && done + (Elements(list[..0]) - failing) == done
  {
  }

  lemma HandledOneMore(list: seq<Source>, i: nat, failing: set<Source>, done: set<Source>)
    requires Distinct(list) && i < |list|
    ensures var now, next := Elements(list[..i]) - failing, Elements(list[..i + 1]) - failing;
      if list[i] in failing then next == now
      else list[i] !in now && next == now + {list[i]} && done + next == (done + now) + {list[i]}
  {
    assert list[..i + 1] == list[..i] + [list[i]];
    assert Elements(list[..i + 1]) == Elements(list[..i]) + {list[i]};
    assert list[i] !in list[..i];
  }

  lemma NoViolation(jobs: Jobs, id: JobId, x: Source, version: nat, j: Job)
    requires j.source == x && j.sourceVersion == version
    ensures Nobody(jobs, x, version) ==> !Blocked(jobs, id, j)
  {
    if Nobody(jobs, x, version) {
      NobodyMeansFree(jobs, id, j);
    }
  }

  /** handleByTenant: the tenant's groups, then its roles. */
  method HandleByTenant(t: SyncTables, tenant: Tenant, groups: seq<Source>, roles: seq<Source>, failing: set<Source>, freshId: nat,
                        ghost before: Tables, ghost done: set<Source>)
    returns (jobsEnqueued: nat, nextId: nat)
    requires t.Valid() && Distinct(groups) && Distinct(roles) && Elements(groups) !! Elements(roles) && Below(t.jobs, freshId)
    requires forall x :: x in groups || x in roles ==> x in t.sources && t.sources[x].tenant == tenant
    requires Requested(t.sources, before, Tables(t.jobs, t.outbox), done, t.now)
    modifies t`jobs, t`outbox
    ensures t.Valid() && Below(t.jobs, nextId)
    ensures Requested(t.sources, before, Tables(t.jobs, t.outbox), done + ((Elements(groups) + Elements(roles)) - failing), t.now)
    ensures jobsEnqueued == |(Elements(groups) + Elements(roles)) - failing|
  {
    hide Requested, UniqueInFlight;
    jobsEnqueued, nextId := RequestAll(t, tenant, groups, failing, freshId, before, done);
    var more;
    more, nextId := RequestAll(t, tenant, roles, failing, nextId, before, done + (Elements(groups) - failing));
    jobsEnqueued := jobsEnqueued + more;
    assert (Elements(groups) + Elements(roles)) - failing == (Elements(groups) - failing) + (Elements(roles) - failing);
    assert (done + (Elements(groups) - failing)) + (Elements(roles) - failing)
      == done + ((Elements(groups) + Elements(roles)) - failing);
  }

  function OfTenants(sources: map<Source, Versions>, xs: set<Source>, tenants: set<Tenant>): set<Source> {
    set x | x in xs && x in sources && sources[x].tenant in tenants
  }

  /** Every source whose version its projection has not reached, and whose call did not fail, has a job waiting
      or running for that version. */
  ghost predicate EveryDirtyInFlight(sources: map<Source, Versions>, jobs: Jobs, failing: set<Source>) {
    forall x :: x in sources && sources[x].version != sources[x].projectionVersion && x !in failing ==>
      exists id :: id in jobs && HasJobFor(jobs[id], x, sources[x].version)
  }

  predicate HasJobFor(j: Job, x: Source, version: nat) {
    j.source == x && j.sourceVersion == version && (j.status == Pending || j.status == Processing)
  }

  /** What was there stays, and the rows added are waiting jobs of the schedule, each for the tenant and the
      version of a dirty source that had none. */
  ghost predicate OnlyDirtyAdded(sources: map<Source, Versions>, before: Jobs, after: Jobs, failing: set<Source>) {
    && (forall id :: id in before ==> id in after && after[id] == before[id])
    && (forall id :: id in after && id !in before ==> AddedForDirty(sources, before, after[id], failing))
  }

  ghost predicate AddedForDirty(sources: map<Source, Versions>, before: Jobs, j: Job, failing: set<Source>) {
    && j.source in sources && j.source !in failing && sources[j.source].version != sources[j.source].projectionVersion
    && j.tenant == sources[j.source].tenant && j.sourceVersion == sources[j.source].version
    && j.triggerType == Scheduled && j.priority == Standard && j.status == Pending
    && forall id :: id in before ==> !HasJobFor(before[id], j.source, j.sourceVersion)
  }

  lemma CronSweepMeans(sources: map<Source, Versions>, before: Tables, after: Tables, failing: set<Source>, now: nat)
    requires Requested(sources, before, after, Dirty(sources) - failing, now)
    ensures EveryDirtyInFlight(sources, after.jobs, failing) && OnlyDirtyAdded(sources, before.jobs, after.jobs, failing)
  {
    forall x | x in sources && sources[x].version != sources[x].projectionVersion && x !in failing
      ensures exists id :: id in after.jobs && HasJobFor(after.jobs[id], x, sources[x].version) {
      assert x.kind == UserGroup || x.kind == Role;
      assert x in Dirty(sources) - failing;
      var id :| id in after.jobs && HoldsKey(after.jobs, id, x, sources[x].version);
      assert HasJobFor(after.jobs[id], x, sources[x].version);
    }
    forall id | id in after.jobs && id !in before.jobs ensures AddedForDirty(sources, before.jobs, after.jobs[id], failing) {
      assert id in Added(before, after);
      assert AddedFor(sources, before, after.jobs[id], Dirty(sources) - failing, now);
      var j := after.jobs[id];
      forall k | k in before.jobs ensures !HasJobFor(before.jobs[k], j.source, j.sourceVersion) {
        assert !HoldsKey(before.jobs, k, j.source, j.sourceVersion);
      }
    }
  }

  datatype Sweep = Sweep(tenantsScanned: nat, dirtyGroupsFound: nat, dirtyRolesFound: nat, jobsEnqueued: nat)

  /** handleCron. Every dirty entity is handled exactly once, whatever its tenant and whatever other
      calls fail: afterwards each one whose own call did not fail has a job in flight for its version. */
  method HandleCron(t: SyncTables, failing: set<Source>, freshId: nat) returns (sweep: Sweep, nextId: nat)
    requires t.Valid() && Below(t.jobs, freshId)
    modifies t`jobs, t`outbox
    ensures t.Valid() && Below(t.jobs, nextId)
    ensures Requested(t.sources, old(Tables(t.jobs, t.outbox)), Tables(t.jobs, t.outbox), Dirty(t.sources) - failing, t.now)
    ensures EveryDirtyInFlight(t.sources, t.jobs, failing) && OnlyDirtyAdded(t.sources, old(t.jobs), t.jobs, failing)
    ensures sweep.jobsEnqueued == |Dirty(t.sources) - failing|
    ensures sweep.dirtyGroupsFound == |DirtyOf(t.sources, UserGroup)| && sweep.dirtyRolesFound == |DirtyOf(t.sources, Role)|
    ensures sweep.tenantsScanned == |set x | x in Dirty(t.sources) :: t.sources[x].tenant|
  {
    hide Requested, UniqueInFlight, DirtyOf, OfTenants, OfTenant, Distinct, Elements;
    ghost var before := Tables(t.jobs, t.outbox);
    var dirtyGroups := RowsOf(DirtyOf(t.sources, UserGroup));
    var dirtyRoles := RowsOf(DirtyOf(t.sources, Role));
    DistinctCount(dirtyGroups);
    DistinctCount(dirtyRoles);
    ghost var dirty := Dirty(t.sources);
    DirtyAreSources(t.sources);
    var tenantSet := TenantsOf(dirtyGroups + dirtyRoles, t.sources);
    var jobsEnqueued := 0;
    nextId := freshId;
    var todo := tenantSet;
    RequestedNothing(t.sources, before, t.now);
    TenantsFromNoneToAll(t.sources, failing);
    assert tenantSet - todo == {};
    while todo != {}
      invariant todo <= tenantSet && t.Valid() && Below(t.jobs, nextId)
      invariant Requested(t.sources, before, Tables(t.jobs, t.outbox), OfTenants(t.sources, dirty, tenantSet - todo) - failing, t.now)
      invariant jobsEnqueued == |OfTenants(t.sources, dirty, tenantSet - todo) - failing|
    {
      var tenant :| tenant in todo;
      ghost var seen := tenantSet - todo;
      todo := todo - {tenant};
      assert tenantSet - todo == seen + {tenant};
      var tenantGroups := OfTenant(dirtyGroups, t.sources, tenant);
      var tenantRoles := OfTenant(dirtyRoles, t.sources, tenant);
      OwnRows(t.sources, dirtyGroups, dirtyRoles, tenant);
      TenantAdds(t.sources, dirty, seen, tenant, failing, Elements(tenantGroups) + Elements(tenantRoles));
      var enqueued;
      enqueued, nextId := HandleByTenant(t, tenant, tenantGroups, tenantRoles, failing, nextId, before,
                                         OfTenants(t.sources, dirty, seen) - failing);
      jobsEnqueued := jobsEnqueued + enqueued;
    }
    assert tenantSet - {} == tenantSet;
    CronSweepMeans(t.sources, before, Tables(t.jobs, t.outbox), failing, t.now);
    sweep := Sweep(|tenantSet|, |dirtyGroups|, |dirtyRoles|, jobsEnqueued);
  }

  /** The tenants of a list of rows. */
  function TenantsOf(list: seq<Source>, sources: map<Source, Versions>): (tenants: set<Tenant>)
    requires Elements(list) <= sources.Keys
    ensures tenants == TenantsOfSet(Elements(list), sources)
  {
    assert forall x :: x in list ==> x in Elements(list);
    set x | x in list :: sources[x].tenant
  }

  function TenantsOfSet(xs: set<Source>, sources: map<Source, Versions>): set<Tenant>
    requires xs <= sources.Keys
  {
    set x | x in xs :: sources[x].tenant
  }

  lemma DirtyAreSources(sources: map<Source, Versions>)
    ensures DirtyOf(sources, UserGroup) <= sources.Keys && DirtyOf(sources, Role) <= sources.Keys && Dirty(sources) <= sources.Keys
    ensures forall gs: seq<Source>, rs: seq<Source> ::
      Elements(gs) == DirtyOf(sources, UserGroup) && Elements(rs) == DirtyOf(sources, Role) ==> Elements(gs + rs) == Dirty(sources)
  {
  }

  lemma TenantsFromNoneToAll(sources: map<Source, Versions>, failing: set<Source>)
    ensures OfTenants(sources, Dirty(sources), {}) - failing == {}
    ensures Dirty(sources) <= sources.Keys
    ensures OfTenants(sources, Dirty(sources), TenantsOfSet(Dirty(sources), sources)) == Dirty(sources)
  {
  }

  lemma OwnRows(sources: map<Source, Versions>, groups: seq<Source>, roles: seq<Source>, tenant: Tenant)
    requires Elements(groups) == DirtyOf(sources, UserGroup) && Elements(roles) == DirtyOf(sources, Role)
    requires Elements(groups) <= sources.Keys && Elements(roles) <= sources.Keys
    ensures var gs, rs := OfTenant(groups, sources, tenant), OfTenant(roles, sources, tenant);
      && Elements(gs) !! Elements(rs) && Elements(gs) + Elements(rs) == OfTenants(sources, Dirty(sources), {tenant})
      && forall x :: x in gs || x in rs ==> x in sources && sources[x].tenant == tenant
  {
    hide OfTenant;
    assert forall x :: x in groups <==> x in Elements(groups);
    assert forall x :: x in roles <==> x in Elements(roles);
  }

  lemma {:induction false} DistinctCount<T>(xs: seq<T>)
    requires Distinct(xs)
    ensures |Elements(xs)| == |xs|
  {
    if xs == [] {
      assert Elements(xs) == {};
    } else {
      var front, last := xs[..|xs| - 1], xs[|xs| - 1];
      DistinctCount(front);
      assert Elements(xs) == Elements(front) + {last} && last !in Elements(front);
    }
  }

  lemma TenantAdds(sources: map<Source, Versions>, dirty: set<Source>, seen: set<Tenant>, tenant: Tenant, failing: set<Source>,
                   own: set<Source>)
    requires tenant !in seen && own == OfTenants(sources, dirty, {tenant})
    ensures OfTenants(sources, dirty, seen + {tenant}) - failing == (OfTenants(sources, dirty, seen) - failing) + (own - failing)
    ensures |OfTenants(sources, dirty, seen + {tenant}) - failing| == |OfTenants(sources, dirty, seen) - failing| + |own - failing|
  {
    assert OfTenants(sources, dirty, seen + {tenant}) == OfTenants(sources, dirty, seen) + own;
    assert (OfTenants(sources, dirty, seen) - failing) !! (own - failing);
  }

  // --- what a sweep guarantees ---

  ghost predicate IsTheOnlyHolder(jobs: Jobs, id: JobId, x: Source, version: nat) {
    HoldsKey(jobs, id, x, version) && forall other :: HoldsKey(jobs, other, x, version) ==> other == id
  }

  /** After a sweep no call of which failed, every dirty entity has exactly one job in flight at its
      current version. */
  lemma SweepCoversEveryDirtyEntity(sources: map<Source, Versions>, before: Tables, after: Tables, now: nat, x: Source)
    requires Requested(sources, before, after, Dirty(sources), now) && UniqueInFlight(after.jobs) && x in Dirty(sources)
    requires forall id :: id in after.jobs && after.jobs[id].source == x ==> after.jobs[id].tenant == sources[x].tenant
    ensures exists id :: IsTheOnlyHolder(after.jobs, id, x, sources[x].version)
  {
    var id :| id in after.jobs && HoldsKey(after.jobs, id, x, sources[x].version);
    forall other | HoldsKey(after.jobs, other, x, sources[x].version) ensures other == id {
      assert SameKey(after.jobs[other], after.jobs[id]);
    }
    assert IsTheOnlyHolder(after.jobs, id, x, sources[x].version);
  }

  /** A second sweep right after the first changes neither the jobs nor the outbox. */
  lemma SecondSweepChangesNothing(sources: map<Source, Versions>, before: Tables, after: Tables, again: Tables, now: nat, later: nat)
    requires Requested(sources, before, after, Dirty(sources), now)
    requires Requested(sources, after, again, Dirty(sources), later)
    ensures again == after
  {
    hide Nobody, Dirty;
    if id :| id in Added(after, again) {
      assert false;
    }
    assert Added(after, again) == {};
    assert (set id | id in Added(after, again) :: SyncRequested(id)) == {};
    assert |multiset(again.outbox)| == |again.outbox|;
  }
}
