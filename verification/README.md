# Authorization core: model and proofs

This project models the authorization core of the access service in Dafny and proves properties of
the model. Four connected parts are covered, and two smaller ones that belong to them.

1. **Permission catalog** (`PermissionCatalog`, `PermissionCatalogValidator`, `PermissionDependency`):
   building the dependency graph, rejecting bad catalogs with a depth-first search that produces a witness
   cycle, and accepting only closed permission sets.
2. **Matching rules** (`MatchingRules`, `RuleEvaluation`, `Sql`, `RuleTranslation`): the validator, the
   in-memory evaluator and the translator to parameterised SQL, whose conditions are given a three-valued
   meaning with NULL and placeholders.
3. **Memberships and effective roles** (`EffectiveRoles`, `EffectiveRoleTable`, `AuthorizationStore`,
   `MembershipReconciler`, `EmployeePropagation`, `EffectiveRoleProjection`, `AccessEvaluation`,
   `ReconciliationWorker`, `PopulationPreview`): event handlers and batch jobs maintain the same two
   derived tables. Both are measured against one definition, `AuthorizationStore.Derive`: the grants of a
   user's memberships in active groups.
4. **The synchronisation protocol** (`SyncJobs`, `SyncProtocol`, `SyncGuarantees`, `SyncJobStore`,
   `ReconciliationScanner`, `SyncStatusProjection`, `LockHash`, `DistributedLock`): enqueuers, workers, the
   watchdog and administrators as a transition system, the services that perform its steps, and the
   advisory lock.
5. **Employee lifecycle and roles** (`EmployeeLifecycle`, `RoleStore`, `RoleApplication`): out-of-order
   events, and interleaved role updates under a version check.

`JavaScript` holds the parts of the language runtime the code leans on. Code that changes state step by step
is modelled by classes and methods with loops; pure code by functions. Methods are proved against
specification functions and predicates, and the lemmas are about those.

Assumptions: tables are finite maps from row ids to rows; one `Database` holds the rows of one tenant, and
the base library's tenant scoping is taken as given. `runInTransaction` is atomic and leaves no trace when it
throws. A version column changes only where this code writes it. Users and employees share one type of opaque
id. Paging is arbitrary, except where a lemma asks for a stable order. Iteration over a JavaScript `Set`, and
the order of rows in a query without `ORDER BY`, is arbitrary. Time is a natural number. What other
connections commit between two statements of a method is a parameter of that method.

Where `schema.sql`, the migrations and the entity classes disagree, the model follows the entity classes for
tables and constraints, and `schema.sql` for the attribute columns of employees (text; the entity says UUID).
Foreign keys and check constraints of `schema.sql` are used where a statement below names them.

What the proofs show about the code as it is:

- `hasReportees` with `equals` emits no SQL condition, so the query selects rows that the evaluator rejects
  (`RuleTranslation.HasReporteesEqualsIsNotTranslated`). `RuleTranslation.FragmentIsExact` says for every accepted clause
  whether the two halves agree.
- An upsert that writes an empty string changes a column without announcing it, so memberships are not
  re-evaluated. `EmployeePropagation.UpsertIsSafeExactly` gives the exact condition on the event, and
  `EmployeePropagation.UnannouncedWriteBreaksMemberships` a store that each failing event breaks. A creation is safe
  whatever it writes, because the foreign key from users to employees leaves the new employee without a user.
- Two rows of one stale key survive an effective-role synchronisation as one row
  (`EffectiveRoles.StaleDuplicateSurvives`). The unique constraint of the entity and of the migration admits such rows, since
  a NULL reference never conflicts; the primary key of `schema.sql` does not
  (`EffectiveRoles.PrimaryKeyMeansOneRowPerKey`).
- A scope reference that is the word `null` has the key of no reference (`EffectiveRoles.NullWordSharesTheKey`). Where the check
  constraint on scopes of `schema.sql` holds, keys identify grants (`EffectiveRoles.CheckedScopesAreIdentified`).
- The finalising transaction sets the projection version to the job's, whatever it was. So an older job that
  an urgent one has overtaken makes a clean source dirty again (`SyncGuarantees.LateJobMakesDirtyAgain`);
  `SyncGuarantees.FinishCleansExactly` says when a source is clean afterwards.
- The batch path stores employee ids in the entity's user-id column, where the event path stores user ids.
  `ReconciliationWorker.BatchAgreesWithEventsExactly` says when that makes no difference, and
  `ReconciliationWorker.BatchBreaksMembershipsOfRenamedUsers` is a store where it does.
- `updatePermissions` commits, once its checks passed, exactly when the role's template protects nothing and no code is
  listed twice (`RoleStore.UpdatePermissionsCommitsExactly`). So it never succeeds on a seeded system role
  (`RoleStore.ProtectedRoleUpdateFails`): the protected rows are kept and then inserted again. A repeated code, which
  the request classes allow, fails on any role (`RoleStore.RepeatedCodeUpdateFails`), and likewise in `createCustom` and
  `updateCustom` (`RoleStore.CustomWritesCommitExactly`).
- A reactivation of a user who has a sent, unrevoked invitation is rolled back every time it is delivered, because
  only pending invitations are revoked while the unique index covers sent ones too
  (`EmployeeLifecycle.SentInvitationBlocksReactivation`). No code of this repository writes the status `sent`, it only reads
  it, so such a row has to come from another writer; without one no delivery is rolled back
  (`EmployeeLifecycle.WithoutSentNewestAlwaysWins`).

## Model

| member | source | states |
|---|---|---|
| PermissionCatalog.BuildGraph | src/modules/permissions/loaders/permission-graph-builder.ts:8-48 | For any definitions: forward and reverse edges are exactly the declared prerequisites, and each node carries the last definition of its id with the edges of both directions |
| PermissionCatalog.AdjacencyMapsAreTransposes | src/modules/permissions/loaders/permission-graph-builder.ts:17-45 | The two adjacency maps are transposes, read through the nodes as well as directly |
| PermissionCatalog.UniqueIdsMakeNodesExact | src/modules/permissions/loaders/permission-graph-builder.ts:31-41 | With unique ids every node carries its own definition, its declared prerequisites, and exactly the ids that require it |
| PermissionCatalogValidator.CycleDetector.Dfs | src/modules/permissions/services/permission-catalog-validator.service.ts:54-72 | A search that returns leaves the path as it was, has finished its node, and keeps all finished nodes ranked below their dependents; a search that throws carries a real cycle |
| PermissionCatalogValidator.CycleDetector.ClosingPath | src/modules/permissions/services/permission-catalog-validator.service.ts:63-67 | The witness follows edges, begins and ends with the same node, repeats no other node, and lies on a walk from a node of the catalog |
| PermissionCatalogValidator.CycleDetector.DetectCycles | src/modules/permissions/services/permission-catalog-validator.service.ts:49-79 | Terminates on every graph; returns iff no cycle is reachable from any node, and then a topological order exists; otherwise throws a real cycle |
| PermissionCatalogValidator.RankDecreasesAlongWalk | src/modules/permissions/services/permission-catalog-validator.service.ts:49-79 | Along every walk the rank in a topological order goes down |
| PermissionCatalogValidator.OrderedGraphHasNoCycle | src/modules/permissions/services/permission-catalog-validator.service.ts:49-79 | A graph with a topological order has no reachable cycle, so the two outcomes of the search exclude each other |
| PermissionCatalogValidator.ValidateReferentialIntegrity | src/modules/permissions/services/permission-catalog-validator.service.ts:25-47 | Passes iff every prerequisite of every definition exists and no live definition requires a deprecated one; otherwise names the first offence |
| PermissionCatalogValidator.Initialize | src/modules/permissions/services/permission-catalog-validator.service.ts:14-23 | A catalog is accepted iff its references are sound and it has no reachable cycle |
| PermissionCatalogValidator.EveryCycleIsReachable | src/modules/permissions/services/permission-catalog-validator.service.ts:49-79 | In a built graph every cycle at all is one the search can reach, so none escapes it |
| PermissionDependency.ValidatePermissionSet | src/modules/permissions/services/permission-dependency.service.ts:13-75 | Accepts iff every code is well formed, known and not deprecated and the set is closed under direct prerequisites; otherwise lists exactly the faulty codes, each with its own fault, or exactly the missing prerequisites |
| PermissionDependency.EachCodeHasItsFault | src/modules/permissions/services/permission-dependency.service.ts:13-50 | A code is listed with a fault iff it was asked for and has that fault: ill formed, unknown, or deprecated |
| PermissionDependency.CodeSyntax | src/modules/permissions/constants/permission-catalog.constants.ts:1 | Codes that are well formed and codes that are not: one dot, two segments, each beginning with a lower-case letter |
| PermissionDependency.ValidSetHoldsEverythingReachable | src/modules/permissions/services/permission-dependency.service.ts:44-66 | An accepted set contains everything reachable through prerequisites |
| PermissionDependency.RemovalStaysValid | src/modules/permissions/services/permission-dependency.service.ts:44-66 | A permission can be taken out of an accepted set iff no member of the set is among its dependents |
| PermissionDependency.ClosureIsLeastValidSet | src/modules/permissions/services/permission-dependency.service.ts:13-75 | The prerequisite closure of a grantable permission is accepted and is the least accepted set that holds it |
| MatchingRules.Validate | src/modules/user-groups/domain/validators/matching-rule.validator.ts:40-134 | Accepts iff combinator, clause list and every clause are in order, returning each attribute key once; otherwise reports the first faulty clause |
| MatchingRules.AcceptedClauses | src/modules/user-groups/domain/validators/matching-rule.validator.ts:5-134 | A clause is accepted iff its attribute is one of eight, its operator one of seventeen in any case, and it has the list or the value the operator needs |
| RuleEvaluation.EvaluateReadsOnlyItsKeys | src/modules/user-groups/services/user-group-matching.engine.ts:11-119 | The verdict of a rule depends only on the attributes named by its clauses |
| RuleEvaluation.CountClauseMeans | src/modules/user-groups/services/user-group-matching.engine.ts:20-119 | A clause on the number of reportees compares the two numbers as its operator word says |
| RuleEvaluation.TextClauseMeans | src/modules/user-groups/services/user-group-matching.engine.ts:20-119 | A clause on a text column compares the stored word with the clause's word or list; an empty column reads as the word null, is in no list and does not exist |
| RuleEvaluation.TextOrdersAsNumbers | src/modules/user-groups/services/user-group-matching.engine.ts:63-86 | An ordering clause on a text column that holds a printed number compares the numbers |
| RuleEvaluation.ToNumberReadsNumberToString | src/modules/user-groups/services/user-group-matching.engine.ts:63-86 | Number reads every printed whole number back as itself |
| RuleEvaluation.HasReporteesClauseMeans | src/modules/user-groups/services/user-group-matching.engine.ts:25-43 | A clause on hasReportees asks whether there are any reportees, or none when a falsy value is given or the operator is is_false |
| Sql.EvalIgnoresLaterParams | src/modules/user-groups/services/user-group-matching.engine.ts:121-198 | Parameters pushed later do not change a condition already built |
| RuleTranslation.BuildMatchingQuery | src/modules/user-groups/services/user-group-matching.engine.ts:121-198 | The loop that pushes conditions and parameters builds the query defined clause by clause |
| RuleTranslation.PlaceholderPointsAtOwnParam | src/modules/user-groups/services/user-group-matching.engine.ts:141-193 | A clause's condition means the same whatever parameters were pushed before and after it |
| RuleTranslation.QueryMeaning | src/modules/user-groups/services/user-group-matching.engine.ts:121-198 | The query means the conjunction, in three-valued logic, of the tenant test and each clause's own condition |
| RuleTranslation.AgreementIsClauseWise | src/modules/user-groups/services/user-group-matching.engine.ts:11-198 | If evaluator and query agree on each clause for a row, they agree on the whole rule within the tenant, and the database does not reject the query |
| RuleTranslation.FragmentIsExact | src/modules/user-groups/services/user-group-matching.engine.ts:20-198 | For every accepted, typed clause: the two halves agree on every row iff the clause is in the fragment |
| RuleTranslation.TranslationPreservesMeaning | src/modules/user-groups/services/user-group-matching.engine.ts:11-198 | The query of an accepted rule inside the fragment selects exactly the tenant's employees for which the rule holds |
| RuleTranslation.HasReporteesEqualsIsNotTranslated | src/modules/user-groups/services/user-group-matching.engine.ts:130-139 | A concrete rule and row on which the two halves differ |
| EffectiveRoles.KeysCollideExactly | src/constants/keys.ts:1-8 | For entries without colons in the first three parts: two keys are equal iff the entries are the same grant, or differ only in that one has no scope reference and the other the word null |
| EffectiveRoles.ColonsBreakTheKey | src/constants/keys.ts:1-8 | Two different entries with colons that have the same key |
| EffectiveRoles.NullWordSharesTheKey | src/constants/keys.ts:1-8 | Two different grants, one with the word null, that have the same key |
| EffectiveRoles.CheckedScopesAreIdentified | schema.sql:440-457 | Where the scope type says whether there is a (non-empty) reference, two keys are equal iff the grants are |
| EffectiveRoles.SyncReachesTarget | src/modules/authorization/repositories/user-effective-role.repository.ts:39-102 | After a synchronisation the user's keys are exactly the target's iff no stale key was held by two rows; one row per key is enough, and is kept |
| EffectiveRoles.StaleDuplicateSurvives | src/modules/authorization/repositories/user-effective-role.repository.ts:39-102 | Two concrete rows of which a synchronisation with nothing leaves one behind |
| EffectiveRoles.PrimaryKeyMeansOneRowPerKey | schema.sql:580 | Under one row per user, role and group there is one row per key, so no duplicate can go stale |
| EffectiveRoles.SyncKeepsOneRowPerKey | src/modules/authorization/repositories/user-effective-role.repository.ts:39-102 | One row per key before gives one row per key after |
| EffectiveRoles.SyncReportsTruly | src/modules/authorization/repositories/user-effective-role.repository.ts:86-102 | With one row per key, the two counts are the numbers of keys gained and lost, and both are zero iff no row of the table moved |
| EffectiveRoles.SecondSyncChangesNothing | src/modules/authorization/repositories/user-effective-role.repository.ts:39-102 | Synchronising again with the same target changes no row and reports zero for both counts |
| EffectiveRoles.SyncReachesGrants | src/modules/authorization/repositories/user-effective-role.repository.ts:39-102 | With UUID ids the grants stored for the user are exactly the target grants |
| EffectiveRoleTable.EffectiveRoleRepository.SyncUserEffectiveRoles | src/modules/authorization/repositories/user-effective-role.repository.ts:39-102 | The map-diff loops delete exactly the unwanted rows, insert exactly the missing keys, touch no other user and count both |
| EffectiveRoleTable.EffectiveRoleRepository.SyncEffectiveRolesForUser | src/modules/user-groups/repositories/user-effective-role.repository.ts:56-107 | The twin implementation meets the same specification |
| EffectiveRoleTable.EffectiveRoleRepository.DeleteByUserId | src/modules/authorization/repositories/user-effective-role.repository.ts:22-28 | Removes exactly the user's rows and returns their number |
| EffectiveRoleTable.EffectiveRoleRepository.DeleteByIds | src/modules/authorization/repositories/user-effective-role.repository.ts:30-37 | A user with one row per key loses exactly the keys of the named rows and keeps one row per key; a user none of whose rows is named keeps every key |
| EffectiveRoleTable.TwinsAgree | src/modules/user-groups/repositories/user-effective-role.repository.ts:56-107 | The twins report the same counts and leave every user the same keys and, with UUID ids, the same grants |
| EffectiveRoleTable.DeletingAllIsSyncWithNothing | src/modules/authorization/services/effective-role-projection.service.ts:59-66 | Deleting all rows of a user is what synchronising with an empty target does |
| MembershipReconciler.ReconcileSingleUser | src/modules/user-groups/services/membership-reconciler.service.ts:42-127 | Memberships become the target set, added and removed lists are the two differences, the user's rows are recomputed unless both lists are empty, when nothing changes; a change of rows is reported iff there was one, and each change of memberships leaves one audit event with the true numbers |
| MembershipReconciler.SyncLeavesCurrent | src/modules/user-groups/services/membership-reconciler.service.ts:86-119 | Synchronising a user with the grants of its memberships leaves its rows equal to the derived grants |
| MembershipReconciler.ReconcileGroupPopulation | src/modules/user-groups/services/membership-reconciler.service.ts:132-200 | The group's members become the matched set; the listed differences are exact; every affected user's rows are recomputed and nobody else's move; the projection version advances iff the group exists |
| MembershipReconciler.RecomputedGrows | src/modules/user-groups/services/membership-reconciler.service.ts:170-189 | Recomputing one more user keeps those recomputed before it current |
| EmployeePropagation.SkipIsSafe | src/modules/user-groups/services/employee-attribute-propagation.service.ts:108-140 | When no active rule is indexed under a changed key, no active rule changes its verdict on the changed row: skipping loses nothing |
| EmployeePropagation.ChangeKeepsMembershipsCurrent | src/modules/user-groups/services/employee-attribute-propagation.service.ts:108-140 | If the announced keys cover the change, memberships are right afterwards on the skipping and on the evaluating path |
| EmployeePropagation.UpsertKeepsMembershipsCurrent | src/modules/user-groups/services/employee-attribute-propagation.service.ts:42-81 | An upsert keeps every membership right: of a new employee always, of a known one when it announces every column it writes |
| EmployeePropagation.UpsertIsSafeExactly | src/modules/user-groups/services/employee-attribute-propagation.service.ts:42-81 | Memberships survive an upsert in every store, known employee or new, iff every written column is announced: none of the five id fields is the empty string, and an empty employmentStatus comes with a status |
| EmployeePropagation.CreationDisturbsNothing | src/modules/user-groups/services/employee-attribute-propagation.service.ts:42-60 | A creation leaves every membership right and adds none, as no user can refer to the new employee yet |
| EmployeePropagation.UnannouncedWriteBreaksMemberships | src/modules/user-groups/services/employee-attribute-propagation.service.ts:51-80 | For every event with an unannounced write, a concrete store whose memberships it breaks |
| EmployeePropagation.ReportingLineKeepsMembershipsCurrent | src/modules/user-groups/services/employee-attribute-propagation.service.ts:83-106 | A reporting-line event keeps every membership right |
| EmployeePropagation.OneUserKeepsAllCurrent | src/modules/user-groups/services/employee-attribute-propagation.service.ts:108-140 | Reconciling one user keeps the rows of all users equal to their derived grants |
| EmployeePropagation.HandleEmployeeAttributeChange | src/modules/user-groups/services/employee-attribute-propagation.service.ts:108-140 | The handler, with its skip test and loops, does what the specification says and keeps all users' rows current |
| EmployeePropagation.HandleEmployeeUpsert | src/modules/user-groups/services/employee-attribute-propagation.service.ts:42-81 | Each field the event carries arrives in its column and an absent one leaves it; a new row has the event's fields, is active and has no reportees; memberships stay right under the stated condition and all users' rows current |
| EmployeePropagation.UpsertStoresTheEvent | src/modules/user-groups/services/employee-attribute-propagation.service.ts:42-81 | Column by column: the event's value when given, the old value otherwise, on creation the event's fields |
| EmployeePropagation.HandleEmployeeReportingLineChanged | src/modules/user-groups/services/employee-attribute-propagation.service.ts:83-106 | The former manager has one reportee less, never below zero, the new one has one more, nobody else's row moves; both are re-evaluated and all rows stay current |
| EmployeePropagation.ReportingLineMovesCounts | src/modules/user-groups/services/employee-attribute-propagation.service.ts:83-106 | Exactly the two managers' counters move, by one each, with floor zero |
| EffectiveRoleProjection.CollectEntries | src/modules/authorization/services/effective-role-projection.service.ts:33-58 | The nested loops collect exactly the derived grants of the user |
| EffectiveRoleProjection.RecomputeUserEffectiveRoles | src/modules/authorization/services/effective-role-projection.service.ts:33-88 | The user's rows become the derived grants, the counts are true, no other user's rows or cache entries move, and a cache that is up holds the same grants |
| EffectiveRoleProjection.UserAuthorizationCache.SyncUserCache | src/modules/authorization/services/user-authorization-cache.service.ts:26-71 | The profile holds the given roles, or those read back from the rows; versions and entries change only as far as the store answers |
| EffectiveRoleProjection.UserAuthorizationCache.GetUserAuthorizationProfile | src/modules/authorization/services/user-authorization-cache.service.ts:73-98 | A hit returns the entry unchanged; a miss returns a profile that stands for the stored grants |
| AccessEvaluation.AccessDependsOnGrantSet | src/modules/authorization/services/cumulative-access-evaluator.service.ts:10-44 | The decision depends only on the set of grants: not on order or duplicates |
| AccessEvaluation.AccessIsMembershipAccess | src/modules/authorization/services/cumulative-access-evaluator.service.ts:10-87 | Access is granted iff some membership in a group whose status is active has a role with the permission and a scope covering the resource |
| AccessEvaluation.AccessIsDecidedByAttributes | src/modules/authorization/services/cumulative-access-evaluator.service.ts:10-87 | For any roles: access iff some role with the permission is tenant-wide, or is for oneself and the record is the caller's, or for reportees and the caller is the manager, or refers up to ASCII case to the record's company, location or department |
| AccessEvaluation.SelfReachesOneself | src/modules/authorization/services/cumulative-access-evaluator.service.ts:57-58 | A SELF role reaches exactly the caller's own record |
| AccessEvaluation.DirectReporteesReachesReports | src/modules/authorization/services/cumulative-access-evaluator.service.ts:46-87 | A DIRECT_REPORTEES role reaches exactly the records the caller manages |
| AccessEvaluation.ReferencedScopesReachTheirOwn | src/modules/authorization/services/cumulative-access-evaluator.service.ts:46-87 | A company, location or department role reaches exactly the records of the one it refers to, and none without a reference |
| AccessEvaluation.OtherScopesReachAllOrNothing | src/modules/authorization/services/cumulative-access-evaluator.service.ts:46-87 | Tenant-wide roles reach every record, and roles of any unknown kind none |
| AccessEvaluation.AccessIsMonotone | src/modules/authorization/services/cumulative-access-evaluator.service.ts:10-87 | More memberships never take access away |
| AccessEvaluation.DecideAfterRecompute | src/modules/authorization/services/user-authorization-cache.service.ts:73-98 | After a recompute the decision is that of the memberships, on a hit and on a miss; the one exception is a stale entry that could not be overwritten |
| ReconciliationWorker.StablePagingVisitsEveryoneOnce | src/modules/authorization/services/authorization-reconciliation-worker.service.ts:98-116 | With a stable order the batch loop visits the active users in order, each exactly once |
| ReconciliationWorker.StopsEarlyOnlyOnEmptyPage | src/modules/authorization/services/authorization-reconciliation-worker.service.ts:98-116 | Whatever the pages hold, the loop reaches the total or stops at an empty page |
| ReconciliationWorker.GetMatchedEmployeeIds | src/modules/employee/repositories/employee-reference.repository.ts:75-85 | The ids are those of the rows the query selects, unless the database rejects the query |
| ReconciliationWorker.SelectedAreTheMatching | src/modules/authorization/services/authorization-reconciliation-worker.service.ts:80-96 | For a translatable rule the query is not rejected and selects the employees the evaluator accepts |
| ReconciliationWorker.AuthorizationReconciliationWorker.ExecuteJob | src/modules/authorization/services/authorization-reconciliation-worker.service.ts:71-161 | A job that gets through is completed with its total and true count, and announced; its source's projection, also as seen on the group's row, is at the job's version and no other source moved; the group holds the selected population; every visited user has derived rows and a current cache. A job that throws has moved no row of the job table but its own progress |
| ReconciliationWorker.AuthorizationReconciliationWorker.ProcessNextJob | src/modules/authorization/services/authorization-reconciliation-worker.service.ts:41-69 | The lock is free again on every path; the job claimed is the least pending one, and ends completed, with its source projected to the job's version, or failed with its event, or processing when the failure could not be recorded |
| ReconciliationWorker.AuthorizationReconciliationWorker.HandleJobFailure | src/modules/authorization/services/authorization-reconciliation-worker.service.ts:163-196 | Failure and event are written together or not at all |
| ReconciliationWorker.MembersAreTheSelected | src/modules/authorization/services/authorization-reconciliation-worker.service.ts:80-96 | After a job the members of its group are exactly the employees its query selects |
| ReconciliationWorker.CompletedJobReachesDefinition | src/modules/authorization/services/authorization-reconciliation-worker.service.ts:71-161 | Under stable paging a completed job has visited every active user once and left each with its derived rows, and its group with exactly the matching employees |
| ReconciliationWorker.BatchAgreesWithEventsExactly | src/modules/user-groups/services/membership-reconciler.service.ts:132-165 | A batch leaves the memberships the event handlers maintain iff each employee's user id, read as an employee id, gets the same verdict |
| ReconciliationWorker.BatchBreaksMembershipsOfRenamedUsers | src/modules/user-groups/services/membership-reconciler.service.ts:132-165 | A concrete store with right memberships that a batch job leaves wrong |
| ReconciliationWorker.CompletedJobIsARunOfTheProtocol | src/modules/authorization/services/authorization-reconciliation-worker.service.ts:71-161 | A job that goes through, of a user group or of a role, is a run of the worker's protocol steps: same final job row, event, projection, and lock released |
| PopulationPreview.CountMissing | src/modules/user-groups/services/user-group-population-query.service.ts:94-107 | A counting loop returns the size of the set difference |
| PopulationPreview.EstimateCriteriaDiff | src/modules/user-groups/services/user-group-population-query.service.ts:74-115 | Gains and losses are the sizes of the two differences; the three errors occur exactly for a missing group, an invalid rule and a rejected query |
| PopulationPreview.PreviewThenReconcile | src/modules/user-groups/services/user-group-population-query.service.ts:74-115 | On the same population the preview's numbers are the lengths of the reconciler's lists, add up to its total, and give the new member count |
| LockHash.StepWrapsPolynomial | src/modules/authorization/services/distributed-lock.adapter.ts:20-24 | One round of the loop takes the 32-bit wrap of a polynomial to the wrap of the next (ToInt32, section 7.1.6 of ECMA-262) |
| LockHash.RoundStaysExact | src/modules/authorization/services/distributed-lock.adapter.ts:20-26 | No intermediate number of any round exceeds 2^53, from any reachable hash and for any character |
| LockHash.HashRange | src/modules/authorization/services/distributed-lock.adapter.ts:18-27 | The lock id lies between 0 and 2^31 |
| LockHash.HashKeyToInt64 | src/modules/authorization/services/distributed-lock.adapter.ts:18-27 | For every string the loop computes the absolute value of the wrapped base-31 polynomial |
| DistributedLock.DistributedLockAdapter.AcquireLock | src/modules/authorization/services/distributed-lock.adapter.ts:33-54 | Fails iff another session holds the lock, under this key or one with the same hash; taking it again in one session is counted |
| DistributedLock.DistributedLockAdapter.ReleaseLock | src/modules/authorization/services/distributed-lock.adapter.ts:60-82 | Frees one taking of the lock, only for the session that holds it, and reports whether it did |
| DistributedLock.ReleaseUndoesAcquire | src/modules/authorization/services/distributed-lock.adapter.ts:33-82 | Between taking and releasing no other session can take the lock; afterwards every lock is as it was |
| SyncProtocol.StepHasEffect | src/modules/authorization/services/authorization-sync.service.ts:90-185 | Every step of every actor does one of seven things to the job table, the outbox and the history |
| SyncProtocol.VersionsOrderedStep | src/modules/authorization/services/authorization-reconciliation-worker.service.ts:118-129 | No step lets a projection version or a job's source version get ahead of its source |
| SyncProtocol.LocksOwnedStep | src/modules/authorization/services/authorization-reconciliation-worker.service.ts:41-69 | Every worker with a live session keeps owning its tenant's lock |
| SyncProtocol.ClaimsPaidStep | src/modules/authorization/services/sync-job-watchdog.service.ts:28-67 | Every step keeps each claim paid for by the job's creation or a recorded retry |
| SyncProtocol.EventsMatchJobsStep | src/modules/authorization/services/authorization-sync.service.ts:125-156 | Every step keeps one REQUESTED event per job and a closing event per closed job |
| SyncProtocol.UniqueInFlightStep | src/migrations/1724900000000-create-authorization-sync-jobs.ts:28-30 | Every step keeps in-flight jobs unique per tenant, source and version |
| SyncProtocol.InvStep | src/modules/authorization/services/authorization-reconciliation-worker.service.ts:41-161 | Every step keeps all invariants together |
| SyncProtocol.ReachableStatesSatisfyInv | src/modules/authorization/services/authorization-sync.service.ts:50-185 | All invariants hold after every run of any steps |
| SyncGuarantees.OneJobInFlightPerVersion | src/modules/authorization/services/authorization-sync.service.ts:90-185 | However enqueuers interleave, at most one job per source and version is in flight |
| SyncGuarantees.LoserReturnsWinner | src/modules/authorization/services/authorization-sync.service.ts:159-185 | An enqueuer that lost the race returns the winner's job while that is in flight |
| SyncGuarantees.NoJobRunsMoreThanFourTimes | src/modules/authorization/services/sync-job-watchdog.service.ts:19-70 | Over every run, slow workers included, no job is claimed more than four times, nor more often than its recorded retries plus one, and no job has more than three retries |
| SyncGuarantees.OneWorkerPerTenant | src/modules/authorization/services/authorization-reconciliation-worker.service.ts:41-69 | Two workers with live sessions never work under the same lock, even when keys collide |
| SyncGuarantees.LocksAreReleased | src/modules/authorization/services/authorization-reconciliation-worker.service.ts:41-69 | After every run the locks held are those of workers at work with a live session, each for its own tenant: no ending leaks one |
| SyncGuarantees.AcquireSucceedsExactly | src/modules/authorization/services/authorization-reconciliation-worker.service.ts:41-69 | In every reachable state a worker can start for a tenant iff no worker with a live session is at work under the same lock |
| SyncGuarantees.DirtyTestsAgree | src/modules/user-groups/repositories/user-group.repository.ts:84-97 | In every reachable state the three ways of testing for dirty sources agree |
| SyncGuarantees.UpdatesMakeDirty | src/modules/user-groups/repositories/user-group.repository.ts:84-97 | In every reachable state a creation or an update leaves its source dirty, an update one version on, and no other source moved |
| SyncGuarantees.FinishCleansExactly | src/modules/authorization/services/authorization-reconciliation-worker.service.ts:118-129 | A finished job leaves its source clean iff no update has moved the version past the job's; no other source moves |
| SyncGuarantees.LateJobMakesDirtyAgain | src/modules/authorization/services/authorization-reconciliation-worker.service.ts:118-129 | A concrete run whose last job, of an older version, makes a clean source dirty |
| SyncGuarantees.RequestsAreForDirtySources | src/modules/authorization/services/authorization-sync.service.ts:50-100 | A request that asks for validation is refused iff its source is clean; any other is for the current version, with the trigger and priority asked for |
| SyncGuarantees.RequestedEventsAreTheJobs | src/modules/authorization/services/authorization-sync.service.ts:116-157 | REQUESTED events and created jobs correspond one to one |
| SyncGuarantees.SelectedIsAhead | src/modules/authorization/repositories/authorization-sync-job.repository.ts:82-99 | The job selected for a tenant is urgent where another waiting job is standard, or of the same priority and older |
| SyncGuarantees.WhatGetsAhead | src/modules/authorization/repositories/authorization-sync-job.repository.ts:82-99 | A new job gets ahead of a waiting one only when it is urgent and the other standard; a reclaimed one also when it has the same priority and is older |
| SyncGuarantees.OvertakingStep | src/modules/authorization/repositories/authorization-sync-job.repository.ts:82-112 | Each claim of another job uses up a job that was ahead; a new job gets ahead only if it is urgent and the waiting one standard |
| SyncGuarantees.OvertakingIsBounded | src/modules/authorization/repositories/authorization-sync-job.repository.ts:82-112 | Over every run, while a job waits, its tenant's other claims are at most the jobs ahead of it plus those put ahead meanwhile |
| SyncJobStore.SyncTables.FindInFlightJob | src/modules/authorization/repositories/authorization-sync-job.repository.ts:17-29 | Finds a job in flight for source and version iff there is one |
| SyncJobStore.SyncTables.ClaimNextPendingJob | src/modules/authorization/repositories/authorization-sync-job.repository.ts:82-112 | Claims an urgent job if the tenant has one pending, and the oldest of that priority; the row is processing and started now, no other row changes, and nothing is claimed iff none is pending |
| SyncJobStore.SyncTables.UpdateProgress | src/modules/authorization/repositories/authorization-sync-job.repository.ts:114-121 | Writes the progress columns of one row, leaving the total alone when none is given; status and retries stay, the job is not stuck for the watchdog then, and no job enters or leaves the queue |
| SyncJobStore.SyncTables.MarkCompleted | src/modules/authorization/repositories/authorization-sync-job.repository.ts:123-131 | Completes one row, and the index then has room for a new job of its key |
| SyncJobStore.SyncTables.MarkFailed | src/modules/authorization/repositories/authorization-sync-job.repository.ts:133-146 | Fails one row, and the index then has room for a new job of its key |
| SyncJobStore.SyncTables.FindStuckProcessingJobs | src/modules/authorization/repositories/authorization-sync-job.repository.ts:148-159 | Exactly the processing jobs older than the cutoff, each once, longest stuck first |
| SyncJobStore.SyncTables.ReclaimStuckJob | src/modules/authorization/repositories/authorization-sync-job.repository.ts:161-167 | Returns one row to the queue with the given retry count and no start time, still holding its key |
| SyncJobStore.SyncTables.CreateSyncJob | src/modules/authorization/services/authorization-sync.service.ts:116-157 | Job and event are written together, and iff the index has room |
| SyncJobStore.EnqueueSyncJob | src/modules/authorization/services/authorization-sync.service.ts:50-185 | Whatever others commit in between: the answer names a waiting or running job for the source's version, or the version taken on trust, or the source is unknown or clean; a row with the requested priority and trigger and an event are added in one case only, and the violation is rethrown only when nobody holds the key any more |
| SyncJobStore.RetryFailedSync | src/modules/authorization/services/authorization-sync.service.ts:192-227 | Refuses exactly unknown and clean sources; otherwise answers with a job in flight, or queues a manual one of standard priority |
| SyncJobStore.CheckAndReclaimStuckJobs | src/modules/authorization/services/sync-job-watchdog.service.ts:19-70 | Every job processing for ten minutes without an update waits again with one more retry or, after three, has failed with an event; no other job moves and the count is exact |
| SyncJobStore.SweepIsARunOfTheProtocol | src/modules/authorization/services/sync-job-watchdog.service.ts:19-70 | A watchdog sweep is a run of protocol steps, so the protocol's invariants cover it |
| SyncJobStore.ClaimIsARunOfTheProtocol | src/modules/authorization/repositories/authorization-sync-job.repository.ts:82-112 | Claiming is the protocol's selection and claim, under an unchanged lock |
| SyncJobStore.EnqueueIsARunOfTheProtocol | src/modules/authorization/services/authorization-sync.service.ts:50-157 | An undisturbed call is a run of the enqueuer's three protocol steps and ends with the same job and event |
| SyncJobStore.InterferedEnqueueFollowsTheProtocol | src/modules/authorization/services/authorization-sync.service.ts:90-185 | A call others interfere with, at the look-up, the insert and the second look, answers each time as the enqueuer's protocol step does |
| ReconciliationScanner.HandleByTenant | src/modules/authorization/services/scheduled-reconciliation-scanner.service.ts:78-136 | A failing call affects only its own entity; the count is the number of calls that did not fail |
| ReconciliationScanner.HandleCron | src/modules/authorization/services/scheduled-reconciliation-scanner.service.ts:22-72 | Across tenants every source whose version differs from its projection, and whose call did not fail, ends with a job in flight for that version; the rows added are waiting, scheduled and standard, for dirty sources that had none; every addition is announced and all four counts are exact |
| ReconciliationScanner.SweepCoversEveryDirtyEntity | src/modules/authorization/services/scheduled-reconciliation-scanner.service.ts:22-136 | After a sweep without failures every dirty entity has exactly one job in flight at its version |
| ReconciliationScanner.SecondSweepChangesNothing | src/modules/authorization/services/authorization-sync.service.ts:90-100 | A second sweep changes neither jobs nor outbox |
| SyncStatusProjection.FindLatestJobBySource | src/modules/authorization/repositories/authorization-sync-job.repository.ts:31-45 | The newest job of the source, if it has any |
| SyncStatusProjection.StatusIsExact | src/modules/authorization/services/sync-status-projection.service.ts:135-222 | In every reachable state: in sync iff clean and the latest job is not in flight; a failure is shown iff the source is dirty and its latest job failed, and only then is the job retryable; a shown job is the latest one with its own progress; a manual synchronisation is expected iff the latest job is manual and in flight |
| SyncStatusProjection.LatestJobIsUnique | src/modules/authorization/repositories/authorization-sync-job.repository.ts:31-45 | In every reachable state the latest job of a source is determined |
| SyncStatusProjection.GetTenantSummary | src/modules/authorization/services/sync-status-projection.service.ts:68-133 | Each counter counts the entities of its status, and the four add up to the total |
| EmployeeLifecycle.ProvisioningApplicationService.SynchronizeEmployeeStatus | src/modules/provisioning/services/provisioning.application.service.ts:90-265 | A newer event that is not rolled back leaves employee and user suspended and disabled, terminated and archived, or reactivated and inactive, with its version stored; after a termination no invitation is pending, after a reactivation exactly the new one; every other employee is left alone, and only a reactivation the invitation index forbids is rolled back |
| EmployeeLifecycle.ProvisioningApplicationService.RevokePending | src/modules/provisioning/services/provisioning.application.service.ts:192-203 | Revokes exactly the user's pending invitations |
| EmployeeLifecycle.StillOneOpenEach | src/modules/provisioning/services/provisioning.application.service.ts:234-256 | The new invitation is the user's only open one, given that none was sent |
| EmployeeLifecycle.DeliveryIsDecidedByWinner | src/modules/provisioning/services/provisioning.application.service.ts:96-112 | After any deliveries the employee is as the first delivered event of the highest version left it, through the version's round trip as text |
| EmployeeLifecycle.ConvergenceIsExact | src/modules/provisioning/services/provisioning.application.service.ts:90-265 | All orders, with any redeliveries, end in the same state iff the effective events of the highest version are of one kind |
| EmployeeLifecycle.NewestEventDecides | src/modules/provisioning/services/provisioning.application.service.ts:90-265 | When a version determines its event, the end state is that of the newest event iff that event can commit |
| EmployeeLifecycle.NewestCommittingEventLeavesItsStatus | src/modules/provisioning/services/provisioning.application.service.ts:90-265 | After any order of deliveries the newest event that can commit has left employee and user as its kind does: archived after a termination, however late older events came |
| EmployeeLifecycle.NewerMeansGreater | src/modules/provisioning/services/provisioning.application.service.ts:103-112 | An event is newer than a stored number iff its version is greater, than no stored version iff it is positive, and than unreadable text always |
| EmployeeLifecycle.PendingAfter | src/modules/provisioning/services/provisioning.application.service.ts:192-256 | A suspension leaves invitations alone, a termination leaves none pending, a reactivation exactly the new one |
| EmployeeLifecycle.WithoutSentNewestAlwaysWins | src/modules/provisioning/services/provisioning.application.service.ts:90-265 | Without a sent invitation every delivery order ends in the state of the newest event, whatever its kind |
| EmployeeLifecycle.SentInvitationBlocksReactivation | src/modules/provisioning/services/provisioning.application.service.ts:234-256 | A concrete employee that no redelivery of a reactivation moves |
| JavaScript.ParseIntReadsNumberToString | src/modules/provisioning/services/provisioning.application.service.ts:105-112 | A version written with toString is read back by parseInt as the same number, for every whole number |
| RoleStore.TransactKeepsSound | src/modules/roles/services/role.application.service.ts:96-173 | A transaction whose checks passed, at whatever earlier moment, keeps every role on an accepted code set and its template's protected rows |
| RoleStore.ReplacementCommitsExactly | src/modules/roles/services/role.application.service.ts:485-527 | Whatever others committed since the checks, a replacement that finds its role at the expected version commits iff the template protects nothing and no code is listed twice |
| RoleStore.UpdatePermissionsCommitsExactly | src/modules/roles/services/role.application.service.ts:433-527 | An undisturbed updatePermissions whose checks passed commits iff the template protects nothing and no code is listed twice; otherwise it meets the unique constraint |
| RoleStore.CustomWritesCommitExactly | src/modules/roles/services/role.application.service.ts:96-265 | Creating and updating a custom role commit, once checked, iff no code is listed twice |
| RoleStore.CommittedReplacementStoresRequest | src/modules/roles/services/role.application.service.ts:231-268 | A checked replacement that commits leaves the role with exactly the requested codes, none protected, the requested name and description, and the next version; every other role is as it was |
| RoleStore.CommittedTransactionStoresRequest | src/modules/roles/services/role.application.service.ts:96-431 | Each other committed transaction stores what was asked: the new role with its codes, the status, the name; or the custom role is gone with its rows |
| RoleStore.ProtectedRoleUpdateFails | src/modules/roles/services/role.application.service.ts:448-510 | The seeded employee role and a request listing just its codes, which passes every check and never commits |
| RoleStore.RepeatedCodeUpdateFails | src/modules/roles/dto/update-role-permissions.dto.ts:10-12 | A concrete custom role and request with a repeated code that passes every check and never commits |
| RoleStore.RunsKeepInv | src/modules/roles/services/role.application.service.ts:184-531 | Over every interleaving of checks and transactions all invariants hold |
| RoleStore.NoLostUpdate | src/modules/roles/services/role.application.service.ts:231-247 | For each role and version at most one committed call carried that version, and it moved the role to the next |
| RoleStore.StoredRolesStaySound | src/modules/roles/repositories/role-permission.repository.ts:17-19 | Over every interleaving custom roles hold no protected row, every role an accepted set, and each version counts the role's commits |
| RoleStore.NamesAndSystemRolesStay | src/modules/roles/services/role.application.service.ts:279-293 | Over every interleaving no two roles share a name, no seeded system role disappears, and an active administrator role stays active |
| RoleApplication.RoleTables.DeleteByRoleId | src/modules/roles/repositories/role-permission.repository.ts:17-19 | Leaves exactly the protected rows |
| RoleApplication.RoleTables.BulkSave | src/modules/roles/repositories/role-permission.repository.ts:12-15 | Succeeds iff no code is repeated or already there, and then adds exactly the listed rows |
| RoleApplication.CreateCustomRole | src/modules/roles/services/role.application.service.ts:83-127 | Refuses an invalid set first, then a taken name, and otherwise inserts an active custom role at version 1 that holds exactly the codes asked for, none protected, or nothing at all |
| RoleApplication.CopyRole | src/modules/roles/services/role.application.service.ts:129-173 | The copy is an active custom role under the given name, with the source's codes as they were read, none protected, and the source's description when none is given |
| RoleApplication.UpdateCustomRole | src/modules/roles/services/role.application.service.ts:184-277 | Never a system role; confirmed when a hundred users or more are affected; once done the role holds the listed codes under the requested name and description at the next version and no other role has moved; a stale version under the lock changes nothing |
| RoleApplication.UpdateRolePermissions | src/modules/roles/services/role.application.service.ts:433-543 | As for updates of custom roles, with name and description kept, and refused when a protected code of a system role's template is missing |
| RoleApplication.DeactivateRole | src/modules/roles/services/role.application.service.ts:279-350 | Never touches the administrator role, asks for confirmation exactly when groups are assigned, re-checks the version under the lock, and leaves the role inactive at the next version with its codes |
| RoleApplication.ReactivateRole | src/modules/roles/services/role.application.service.ts:352-392 | Leaves the role active and moves its version even without an expected one; its codes stay |
| RoleApplication.RenameRole | src/modules/roles/services/role.application.service.ts:394-431 | Once done the role bears the requested name and keeps its codes; a changed name must be free, and the old name moves no version |
| RoleApplication.RemoveRole | src/modules/roles/services/role.application.service.ts:545-566 | Removes exactly the role and all its rows, and never a system role |

## Left out

- Controllers, DTO decoration, logging, metrics, health checks and module wiring: they have no state of their own.
- Identity providers, session, password, multi-factor, lockout and address-filter code: short flows over foreign calls.
- Rule JSON that is not an object, and non-string attribute or operator values: the model starts from a rule of the declared types.
- RuleTranslation.FragmentIsExact: leaves out text ordering by collation and integers passed as text, whose SQL meaning depends on the database's settings.
- Number(v) on fractions and on strings in hexadecimal, octal, binary or exponent form (`0x10`, `1e3`), which JavaScript.ToNumber reads as NaN, and case folding beyond ASCII: values are whole numbers and operators are ASCII words.
- The four-byte limit of the reportees_count column: the model's counter is unbounded.
- MembershipReconciler.ReconcileSingleUser: does not refresh the Redis profile, because the code does not; a cached profile can be stale after an incremental event.
- ReconciliationWorker.AuthorizationReconciliationWorker.ExecuteJob: a failed job may already have advanced its group's projection version, so freshness is stated for completed jobs only.
- A role's projection write that fails is swallowed by the worker; the statements after it in the same database transaction then fail, so the model has the finalising transaction fail as a whole.
- Loss of a database session by a worker is a protocol step (Detach); connection pooling of advisory locks and a release that fails are not modelled.
- SyncProtocol: a watchdog's read of a stuck job and its write are one step, as are an administrator's edit and its version increment.
- securityVersion and session revocation in the lifecycle handler, and the auto-incremented version column of the ORM: no uniform claim can be made about them.
- Version writes of user groups below the level of one administrator update: the expected-version check there is not under a lock.
- The Redis copy of roles that every role operation refreshes after its transaction.
- The creation of a user account for an employee: the user's memberships are first evaluated by the next event or batch.
- Timestamps, durations, error texts and event payloads: time is an ordered number and events are tagged with their job.
- YAML loading, catalog hierarchy listing and the contract generator: input and regrouping only.
