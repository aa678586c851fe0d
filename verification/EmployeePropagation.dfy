/** EmployeeAttributePropagationService: keeping memberships right as employee rows change. */
module EmployeePropagation {
  import opened JavaScript
  import opened MatchingRules
  import opened RuleEvaluation
  import opened EffectiveRoles
  import opened EffectiveRoleTable
  import opened AuthorizationStore
  import opened MembershipReconciler

  /** An upsert event; an absent field is undefined or null. */
  datatype UpsertInput = UpsertInput(
    id: Id,
    tenantCode: string,
    employeeCode: string,
    companyId: Option<string>,
    locationId: Option<string>,
    departmentId: Option<string>,
    gradeId: Option<string>,
    jobTitleId: Option<string>,
    employmentStatus: Option<string>,
    status: Option<string>)

  predicate Given(field: Option<string>) {
    field.Some? && field.value != ""
  }

  /** TypeORM skips columns whose new value is undefined. */
  function Written(current: Option<string>, field: Option<string>): Option<string> {
    if field.Some? then field else current
  }

  function UpdatedEmployee(e: Employee, data: UpsertInput): Employee {
    e.(companyId := Written(e.companyId, data.companyId),
       locationId := Written(e.locationId, data.locationId),
       departmentId := Written(e.departmentId, data.departmentId),
       gradeId := Written(e.gradeId, data.gradeId),
       jobTitleId := Written(e.jobTitleId, data.jobTitleId),
       employmentStatus := Written(e.employmentStatus, data.employmentStatus))
  }

  /** EmployeeStatus.ACTIVE. */
  const ACTIVE_STATUS := "active"

  function NewEmployee(data: UpsertInput): Employee {
    Employee(data.id, data.tenantCode, Some(ACTIVE_STATUS), data.companyId, data.locationId, data.departmentId,
             data.gradeId, data.jobTitleId, 0,
             map["employeeCode" := Str(data.employeeCode), "status" := Str(ACTIVE_STATUS)])
  }

  function KeyOf(column: TextColumn): string {
    match column
    case EmploymentStatus => "employmentStatus"
    case CompanyId => "companyId"
    case LocationId => "locationId"
    case DepartmentId => "departmentId"
    case GradeId => "gradeId"
    case JobTitleId => "jobTitleId"
  }

  /** The event's value for a column. */
  function FieldFor(data: UpsertInput, column: TextColumn): Option<string> {
    match column
    case EmploymentStatus => data.employmentStatus
    case CompanyId => data.companyId
    case LocationId => data.locationId
    case DepartmentId => data.departmentId
    case GradeId => data.gradeId
    case JobTitleId => data.jobTitleId
  }

  /** The event pushes this column's key onto changedKeys. */
  predicate Announced(data: UpsertInput, column: TextColumn) {
    Given(FieldFor(data, column)) || (column.EmploymentStatus? && Given(data.status))
  }

  /** changedKeys, as the sequence of if statements builds it. */
  method ChangedKeys(data: UpsertInput) returns (changedKeys: seq<string>)
    ensures ToSet(changedKeys) == ChangedKeySet(data)
  {
    changedKeys := [];
    if Given(data.departmentId) { changedKeys := changedKeys + ["departmentId"]; }
    if Given(data.locationId) { changedKeys := changedKeys + ["locationId"]; }
    if Given(data.companyId) { changedKeys := changedKeys + ["companyId"]; }
    if Given(data.gradeId) { changedKeys := changedKeys + ["gradeId"]; }
    if Given(data.jobTitleId) { changedKeys := changedKeys + ["jobTitleId"]; }
    if Given(data.employmentStatus) || Given(data.status) { changedKeys := changedKeys + ["employmentStatus"]; }
  }

  function ChangedKeySet(data: UpsertInput): set<string> {
    (if Announced(data, DepartmentId) then {"departmentId"} else {})
    + (if Announced(data, LocationId) then {"locationId"} else {})
    + (if Announced(data, CompanyId) then {"companyId"} else {})
    + (if Announced(data, GradeId) then {"gradeId"} else {})
    + (if Announced(data, JobTitleId) then {"jobTitleId"} else {})
    + (if Announced(data, EmploymentStatus) then {"employmentStatus"} else {})
  }

  /** findByAttributeKeys finds nothing. */
  predicate NoCandidates(db: Db, keys: set<string>) {
    keys == {} || forall g :: g in db.groups && ActiveGroup(db, g) ==> keys !! ToSet(db.groups[g].ruleAttributeKeys)
  }

  function Matching(db: Db, e: Employee): set<Id> {
    set g | g in db.groups && ActiveGroup(db, g) && Evaluate(db.groups[g].matchingRule, e)
  }

  /** What handleEmployeeAttributeChange does to the memberships. */
  function AttributeChange(db: Db, employeeId: Id, keys: set<string>): Db {
    if employeeId !in db.employees || NoCandidates(db, keys) || employeeId !in db.userOf then db
    else db.(memberships := Replaced(db.memberships, db.userOf[employeeId], Matching(db, db.employees[employeeId])))
  }

  function Upsert(db: Db, data: UpsertInput): Db {
    if data.id !in db.employees then db.(employees := db.employees[data.id := NewEmployee(data)])
    else
      var written := db.(employees := db.employees[data.id := UpdatedEmployee(db.employees[data.id], data)]);
      if ChangedKeySet(data) == {} then written else AttributeChange(written, data.id, ChangedKeySet(data))
  }

  /** GREATEST(0, reportees_count + delta). */
  function Bumped(count: nat, delta: int): nat {
    if count + delta < 0 then 0 else count + delta
  }

  function ManagerChange(db: Db, manager: Id, delta: int): Db {
    var bumped := if manager !in db.employees then db
                  else db.(employees := db.employees[manager := db.employees[manager].(
                    reporteesCount := Bumped(db.employees[manager].reporteesCount, delta))]);
    AttributeChange(bumped, manager, {"reporteesCount", "hasReportees"})
  }

  function ReportingLine(db: Db, oldManager: Option<Id>, newManager: Option<Id>): Db {
    var one := if Given(oldManager) then ManagerChange(db, oldManager.value, -1) else db;
    if Given(newManager) then ManagerChange(one, newManager.value, 1) else one
  }

  /** The row and the event change nothing that goes unannounced. */
  predicate OnlyKeysChange(e: Employee, f: Employee, keys: set<string>) {
    (forall column: TextColumn :: KeyOf(column) !in keys ==> TextOf(e, column) == TextOf(f, column))
    && ("reporteesCount" !in keys || "hasReportees" !in keys ==> e.reporteesCount == f.reporteesCount)
    && e.properties == f.properties
  }

  lemma KeysNameColumns(key: string)
    ensures AttributeOf(key).Text? ==> key == KeyOf(AttributeOf(key).column)
    ensures AttributeOf(key).ReporteesCount? ==> key == "reporteesCount"
    ensures AttributeOf(key).HasReportees? ==> key == "hasReportees"
  {
  }

  /** Skipping is safe: when no active rule is indexed under a changed key, no active rule changes its answer. */
  lemma SkipIsSafe(db: Db, e: Employee, f: Employee, keys: set<string>, g: Id)
    requires Indexed(db) && NoCandidates(db, keys) && OnlyKeysChange(e, f, keys) && ActiveGroup(db, g)
    ensures Evaluate(db.groups[g].matchingRule, e) == Evaluate(db.groups[g].matchingRule, f)
  {
    hide AttributeOf, KeyOf;
    var group := db.groups[g];
    assert SavedGroup(group);
    forall key | key in AttributeKeys(group.matchingRule.clauses) ensures SameAttribute(key, e, f) {
      assert key in ToSet(group.ruleAttributeKeys) && key !in keys;
      var i :| 0 <= i < |group.matchingRule.clauses| && group.matchingRule.clauses[i].attribute == key;
      assert ClauseOk(group.matchingRule.clauses[i]);
      KeysNameColumns(key);
    }
    EvaluateReadsOnlyItsKeys(group.matchingRule, e, f);
  }

  /** One changed row followed by handleEmployeeAttributeChange keeps every membership right. */
  lemma ChangeKeepsMembershipsCurrent(db: Db, id: Id, f: Employee, keys: set<string>)
    requires Indexed(db) && MembershipsCurrent(db) && id in db.employees
    requires OnlyKeysChange(db.employees[id], f, keys)
    ensures MembershipsCurrent(AttributeChange(db.(employees := db.employees[id := f]), id, keys))
  {
    hide Evaluate, OnlyKeysChange;
    var changed := db.(employees := db.employees[id := f]);
    var after := AttributeChange(changed, id, keys);
    assert NoCandidates(changed, keys) == NoCandidates(db, keys);
    forall x | x in after.employees && x in after.userOf ensures EmployeeCurrent(after, x) {
      assert EmployeeCurrent(db, x);
      forall g | ActiveGroup(after, g)
        ensures (db.userOf[x], g) in after.memberships <==> Evaluate(db.groups[g].matchingRule, after.employees[x]) {
        assert ActiveGroup(db, g);
        if NoCandidates(db, keys) {
          SkipIsSafe(db, db.employees[id], f, keys, g);
        }
      }
    }
  }

  /** Every column the event writes has its key announced. */
  predicate EveryWriteAnnounced(data: UpsertInput) {
    forall column: TextColumn :: FieldFor(data, column).Some? ==> Announced(data, column)
  }

  lemma UpdateChangesOnlyAnnounced(e: Employee, data: UpsertInput)
    requires EveryWriteAnnounced(data)
    ensures OnlyKeysChange(e, UpdatedEmployee(e, data), ChangedKeySet(data))
  {
    var f := UpdatedEmployee(e, data);
    forall column: TextColumn | KeyOf(column) !in ChangedKeySet(data) ensures TextOf(e, column) == TextOf(f, column) {
      assert !Announced(data, column);
      assert FieldFor(data, column).None?;
    }
  }

  /** A creation disturbs nothing: no user can refer to the employee yet, so every membership that was
      right is right, and the new employee's row is in place for the first event after its user exists. */
  lemma CreationDisturbsNothing(db: Db, data: UpsertInput)
    requires Indexed(db) && MembershipsCurrent(db) && data.id !in db.employees
    ensures var after := Upsert(db, data);
      && MembershipsCurrent(after) && Indexed(after) && after.memberships == db.memberships
      && data.id !in after.userOf && after.employees == db.employees[data.id := NewEmployee(data)]
  {
    hide Evaluate, NewEmployee, SavedGroup;
    var after := Upsert(db, data);
    forall x | x in after.employees && x in after.userOf ensures EmployeeCurrent(after, x) {
      assert x in db.employees && EmployeeCurrent(db, x);
    }
  }

  /** An upsert keeps every membership right: that of a new employee always, that of a known one when
      it announces what it writes. */
  lemma UpsertKeepsMembershipsCurrent(db: Db, data: UpsertInput)
    requires Indexed(db) && MembershipsCurrent(db) && (data.id in db.employees ==> EveryWriteAnnounced(data))
    ensures MembershipsCurrent(Upsert(db, data)) && Indexed(Upsert(db, data))
  {
    hide ChangedKeySet, UpdatedEmployee, OnlyKeysChange, MembershipsCurrent, EveryWriteAnnounced;
    if data.id !in db.employees {
      CreationDisturbsNothing(db, data);
    } else {
      var f := UpdatedEmployee(db.employees[data.id], data);
      UpdateChangesOnlyAnnounced(db.employees[data.id], data);
      ChangeKeepsMembershipsCurrent(db, data.id, f, ChangedKeySet(data));
    }
  }

  /** A store where one group requires the column to exist and the employee is its member. */
  function WitnessStore(id: Id, column: TextColumn): Db {
    var x := Some("x");
    var rule := Rule("all", [Clause(KeyOf(column), "exists", Undefined, None)]);
    Db(map[id := Employee(id, "", x, x, x, x, x, x, 0, map[])],
       map[id := "user"],
       map["group" := Group(Active, "SELF", None, rule, [KeyOf(column)], 1, 0)],
       map[],
       {("user", "group")})
  }

  lemma WitnessRule(column: TextColumn, e: Employee)
    ensures var rule := WitnessStore("", column).groups["group"].matchingRule;
      && RuleOk(rule) && AttributeKeys(rule.clauses) == {KeyOf(column)}
      && (Evaluate(rule, e) <==> Given(TextOf(e, column)))
  {
    var rule := WitnessStore("", column).groups["group"].matchingRule;
    var c := rule.clauses[0];
    assert ToLower("exists") == "exists" && ToLower("all") == "all";
    assert OperatorIn(c) == Exists;
    assert AttributeIn(c) == Text(column);
    assert AttributeKeys(rule.clauses) == {KeyOf(column)} by {
      assert rule.clauses[0].attribute == KeyOf(column);
    }
    assert EvaluateClause(c, e) <==> Given(TextOf(e, column));
  }

  lemma WitnessIsCurrent(id: Id, column: TextColumn)
    ensures var db := WitnessStore(id, column); Indexed(db) && MembershipsCurrent(db) && id in db.employees
  {
    hide Evaluate, AttributeOf, OperatorOf, RuleOk;
    var db := WitnessStore(id, column);
    var e := db.employees[id];
    WitnessRule(column, e);
    assert Indexed(db);
    forall g | ActiveGroup(db, g) ensures (("user", g) in db.memberships <==> Evaluate(db.groups[g].matchingRule, e)) {
      assert g == "group";
    }
    assert EmployeeCurrent(db, id);
  }

  lemma UnannouncedIsEmpty(e: Employee, data: UpsertInput, column: TextColumn)
    requires FieldFor(data, column).Some? && !Announced(data, column)
    ensures TextOf(UpdatedEmployee(e, data), column) == Some("") && KeyOf(column) !in ChangedKeySet(data)
  {
  }

  /** A write that is not announced can leave a stale membership behind. */
  lemma UnannouncedWriteBreaksMemberships(data: UpsertInput, column: TextColumn)
    requires FieldFor(data, column).Some? && !Announced(data, column)
    ensures var db := WitnessStore(data.id, column);
      Indexed(db) && MembershipsCurrent(db) && data.id in db.employees && !MembershipsCurrent(Upsert(db, data))
  {
    hide Evaluate, AttributeOf, OperatorOf, RuleOk;
    var db := WitnessStore(data.id, column);
    var e := db.employees[data.id];
    WitnessIsCurrent(data.id, column);
    hide Indexed, UpdatedEmployee, ChangedKeySet;
    var after := Upsert(db, data);
    var f := UpdatedEmployee(e, data);
    WitnessRule(column, f);
    UnannouncedIsEmpty(e, data, column);
    assert NoCandidates(db.(employees := db.employees[data.id := f]), ChangedKeySet(data));
    assert after == db.(employees := db.employees[data.id := f]);
    assert ActiveGroup(after, "group") && !Evaluate(after.groups["group"].matchingRule, after.employees[data.id]);
    assert !EmployeeCurrent(after, data.id);
  }

  lemma UnannouncedColumn(data: UpsertInput) returns (column: TextColumn)
    requires !EveryWriteAnnounced(data)
    ensures FieldFor(data, column).Some? && !Announced(data, column)
  {
    column :| FieldFor(data, column).Some? && !Announced(data, column);
  }

  lemma AnnouncedInFields(data: UpsertInput)
    ensures EveryWriteAnnounced(data) <==>
      && data.companyId != Some("") && data.locationId != Some("") && data.departmentId != Some("")
      && data.gradeId != Some("") && data.jobTitleId != Some("")
      && (data.employmentStatus == Some("") ==> data.status.Some? && data.status.value != "")
  {
    if EveryWriteAnnounced(data) {
      assert forall column :: FieldFor(data, column).Some? ==> Announced(data, column);
      assert FieldFor(data, CompanyId) == data.companyId && FieldFor(data, LocationId) == data.locationId;
      assert FieldFor(data, DepartmentId) == data.departmentId && FieldFor(data, GradeId) == data.gradeId;
      assert FieldFor(data, JobTitleId) == data.jobTitleId && FieldFor(data, EmploymentStatus) == data.employmentStatus;
    }
  }

  /** The event's values have arrived: in a known row each given field, the empty string included, has
      replaced its column and an absent one has left it; a new row has the event's fields, is active and has
      no reportees; no other row has moved. */
  predicate StoresTheEvent(before: map<Id, Employee>, after: map<Id, Employee>, data: UpsertInput) {
    && data.id in after && after - {data.id} == before - {data.id}
    && var row := after[data.id];
       if data.id in before then
         var was := before[data.id];
         && row.companyId == (if data.companyId.Some? then data.companyId else was.companyId)
         && row.locationId == (if data.locationId.Some? then data.locationId else was.locationId)
         && row.departmentId == (if data.departmentId.Some? then data.departmentId else was.departmentId)
         && row.gradeId == (if data.gradeId.Some? then data.gradeId else was.gradeId)
         && row.jobTitleId == (if data.jobTitleId.Some? then data.jobTitleId else was.jobTitleId)
         && row.employmentStatus == (if data.employmentStatus.Some? then data.employmentStatus else was.employmentStatus)
         && row.reporteesCount == was.reporteesCount && row.tenantCode == was.tenantCode && row.id == was.id
         && row.properties == was.properties
       else
         && row.companyId == data.companyId && row.locationId == data.locationId && row.departmentId == data.departmentId
         && row.gradeId == data.gradeId && row.jobTitleId == data.jobTitleId
         && row.employmentStatus == Some("active") && row.reporteesCount == 0
         && row.id == data.id && row.tenantCode == data.tenantCode
  }

  lemma UpsertStoresTheEvent(db: Db, data: UpsertInput)
    ensures StoresTheEvent(db.employees, Upsert(db, data).employees, data)
  {
    hide ChangedKeySet, NoCandidates, Matching, Replaced;
  }

  /** Memberships survive an upsert, in every store, exactly when the event announces every column it
      writes: none of the five id fields is the empty string, and an empty employmentStatus comes with a
      status. */
  lemma UpsertIsSafeExactly(data: UpsertInput)
    ensures (forall db: Db :: Indexed(db) && MembershipsCurrent(db) ==> MembershipsCurrent(Upsert(db, data)))
      <==> EveryWriteAnnounced(data)
    ensures EveryWriteAnnounced(data) <==>
      && data.companyId != Some("") && data.locationId != Some("") && data.departmentId != Some("")
      && data.gradeId != Some("") && data.jobTitleId != Some("")
      && (data.employmentStatus == Some("") ==> data.status.Some? && data.status.value != "")
  {
    hide MembershipsCurrent, Indexed, Upsert;
    AnnouncedInFields(data);
    hide EveryWriteAnnounced;
    if EveryWriteAnnounced(data) {
      forall db: Db | Indexed(db) && MembershipsCurrent(db) ensures MembershipsCurrent(Upsert(db, data)) {
        UpsertKeepsMembershipsCurrent(db, data);
      }
    } else {
      var column := UnannouncedColumn(data);
      UnannouncedWriteBreaksMemberships(data, column);
    }
  }

  lemma ManagerChangeKeepsMembershipsCurrent(db: Db, manager: Id, delta: int)
    requires Indexed(db) && MembershipsCurrent(db)
    ensures var after := ManagerChange(db, manager, delta); MembershipsCurrent(after) && Indexed(after)
  {
    hide MembershipsCurrent;
    if manager in db.employees {
      var e := db.employees[manager];
      var f := e.(reporteesCount := Bumped(e.reporteesCount, delta));
      ChangeKeepsMembershipsCurrent(db, manager, f, {"reporteesCount", "hasReportees"});
    }
  }

  /** A reporting-line event keeps every membership right. */
  lemma ReportingLineKeepsMembershipsCurrent(db: Db, oldManager: Option<Id>, newManager: Option<Id>)
    requires Indexed(db) && MembershipsCurrent(db)
    ensures var after := ReportingLine(db, oldManager, newManager); MembershipsCurrent(after) && Indexed(after)
  {
    hide MembershipsCurrent, ManagerChange;
    if Given(oldManager) { ManagerChangeKeepsMembershipsCurrent(db, oldManager.value, -1); }
    var one := if Given(oldManager) then ManagerChange(db, oldManager.value, -1) else db;
    if Given(newManager) { ManagerChangeKeepsMembershipsCurrent(one, newManager.value, 1); }
  }

  /** Every user's effective-role rows are the derived grants. */
  ghost predicate RolesAllCurrent(db: Db, rows: Rows) {
    SoundRows(rows) && SoundIds(db) && forall userId: Id :: RolesCurrent(db, rows, userId)
  }

  /** Replacing one user's memberships and synchronising that user keeps all rows current. */
  lemma OneUserKeepsAllCurrent(db: Db, before: Rows, after: Rows, userId: Id, groupIds: set<Id>)
    requires RolesAllCurrent(db, before)
    requires OthersUntouched(before, after, userId)
    requires LeavesCurrent(db.(memberships := Replaced(db.memberships, userId, groupIds)), before, after, userId)
    ensures RolesAllCurrent(db.(memberships := Replaced(db.memberships, userId, groupIds)), after)
  {
    hide Sound, Replaced, OneRowPerKey, GrantsOf, OthersUntouched;
    var next := db.(memberships := Replaced(db.memberships, userId, groupIds));
    assert forall g, role :: g in db.groups && role in RolesOf(db, g) ==> Grant(next, g, role) == Grant(db, g, role);
    assert RolesCurrent(db, before, userId);
    forall other: Id ensures RolesCurrent(next, after, other) {
      assert RolesCurrent(db, before, other);
      if other != userId {
        ReplacedGroups(db, userId, groupIds, other);
        OthersKeepRows(before, after, userId, other);
        assert Derive(next, other) == Derive(db, other) by {
          SameGroupsSameGrants(db, next, GroupsOfUser(db, other));
        }
      }
    }
  }

  /** findByAttributeKeys: active groups whose key array overlaps. */
  method FindByAttributeKeys(db: Database, attributeKeys: seq<string>) returns (found: set<Id>)
    ensures found == {} <==> NoCandidates(db.View(), ToSet(attributeKeys))
  {
    hide Evaluate;
    if |attributeKeys| == 0 {
      return {};
    }
    found := set g | g in db.groups && db.groups[g].status == Active
      && exists k :: k in db.groups[g].ruleAttributeKeys && k in attributeKeys;
    assert attributeKeys[0] in ToSet(attributeKeys);
    if found == {} {
      forall g | g in db.groups && ActiveGroup(db.View(), g) ensures ToSet(attributeKeys) !! ToSet(db.groups[g].ruleAttributeKeys) {
        assert g !in found;
      }
    } else {
      var g :| g in found;
      var k :| k in db.groups[g].ruleAttributeKeys && k in attributeKeys;
      assert k in ToSet(attributeKeys) * ToSet(db.groups[g].ruleAttributeKeys);
    }
  }

  /** handleEmployeeAttributeChange. */
  method HandleEmployeeAttributeChange(db: Database, roles: EffectiveRoleRepository, employeeId: Id, changedAttributeKeys: seq<string>)
    requires roles.Valid()
    modifies db`memberships, db`audit, roles
    ensures roles.Valid()
    ensures db.View() == AttributeChange(old(db.View()), employeeId, ToSet(changedAttributeKeys))
    ensures RolesAllCurrent(old(db.View()), old(roles.rows)) ==> RolesAllCurrent(db.View(), roles.rows)
  {
    if employeeId !in db.employees {
      return;
    }
    var employee := db.employees[employeeId];
    var candidateGroups := FindByAttributeKeys(db, changedAttributeKeys);
    if candidateGroups == {} {
      return;
    }
    var matchingGroupIds := MatchActiveGroups(db, employee);
    if employeeId !in db.userOf {
      return;
    }
    ghost var before, rows := db.View(), roles.rows;
    var userId := db.userOf[employeeId];
    var result := ReconcileSingleUser(db, roles, userId, matchingGroupIds);
    ghost var matching := Matching(before, employee);
    assert db.View() == before.(memberships := Replaced(before.memberships, userId, matching));
    if RolesAllCurrent(before, rows) {
      if result.addedGroupIds == [] && result.removedGroupIds == [] {
        assert db.View() == before;
      } else {
        OneUserKeepsAllCurrent(before, rows, roles.rows, userId, matching);
      }
    }
  }

  /** Evaluating every active group. */
  method MatchActiveGroups(db: Database, employee: Employee) returns (matchingGroupIds: seq<Id>)
    ensures ToSet(matchingGroupIds) == Matching(db.View(), employee)
  {
    matchingGroupIds := [];
    var allActiveGroups := set g | g in db.groups && db.groups[g].status == Active;
    var todo := allActiveGroups;
    while todo != {}
      invariant todo <= allActiveGroups
      invariant forall g :: g in matchingGroupIds <==>
        (g in allActiveGroups - todo && Evaluate(db.groups[g].matchingRule, employee))
    {
      var g :| g in todo;
      todo := todo - {g};
      if Evaluate(db.groups[g].matchingRule, employee) {
        matchingGroupIds := matchingGroupIds + [g];
      }
    }
  }

  /** handleEmployeeUpsert. */
  method HandleEmployeeUpsert(db: Database, roles: EffectiveRoleRepository, data: UpsertInput)
    requires roles.Valid()
    modifies db`memberships, db`employees, db`audit, roles
    ensures roles.Valid()
    ensures db.View() == Upsert(old(db.View()), data)
    ensures StoresTheEvent(old(db.employees), db.employees, data)
    ensures (data.id in old(db.employees) ==> EveryWriteAnnounced(data))
            && Indexed(old(db.View())) && MembershipsCurrent(old(db.View())) ==>
      MembershipsCurrent(db.View()) && Indexed(db.View())
    ensures RolesAllCurrent(old(db.View()), old(roles.rows)) ==> RolesAllCurrent(db.View(), roles.rows)
  {
    hide StoresTheEvent, MembershipsCurrent, Indexed, UpdatedEmployee, NewEmployee, RolesAllCurrent, ChangedKeySet, EveryWriteAnnounced;
    ghost var before, rows := db.View(), roles.rows;
    if Indexed(before) && MembershipsCurrent(before) && (data.id in before.employees ==> EveryWriteAnnounced(data)) {
      UpsertKeepsMembershipsCurrent(before, data);
    }
    UpsertStoresTheEvent(before, data);
    if data.id !in db.employees {
      db.employees := db.employees[data.id := NewEmployee(data)];
      EmployeesDoNotMatterToRoles(before, db.View(), rows);
      return;
    }
    db.employees := db.employees[data.id := UpdatedEmployee(db.employees[data.id], data)];
    EmployeesDoNotMatterToRoles(before, db.View(), rows);
    var changedKeys := ChangedKeys(data);
    if |changedKeys| > 0 {
      assert changedKeys[0] in ChangedKeySet(data);
      HandleEmployeeAttributeChange(db, roles, data.id, changedKeys);
    }
  }

  lemma EmployeesDoNotMatterToRoles(db: Db, next: Db, rows: Rows)
    requires next.(employees := db.employees) == db
    ensures RolesAllCurrent(db, rows) <==> RolesAllCurrent(next, rows)
  {
    hide Sound, OneRowPerKey, GrantsOf;
    assert forall g, role :: g in db.groups && role in RolesOf(db, g) ==> Grant(next, g, role) == Grant(db, g, role);
    forall userId: Id ensures Derive(db, userId) == Derive(next, userId) {
      assert GroupsOfUser(db, userId) == GroupsOfUser(next, userId);
      SameGroupsSameGrants(db, next, GroupsOfUser(db, userId));
    }
    assert forall userId: Id :: RolesCurrent(db, rows, userId) <==> RolesCurrent(next, rows, userId);
  }

  /** One side of handleEmployeeReportingLineChanged. */
  method HandleManagerChange(db: Database, roles: EffectiveRoleRepository, manager: Id, delta: int)
    requires roles.Valid()
    modifies db`memberships, db`employees, db`audit, roles
    ensures roles.Valid()
    ensures db.View() == ManagerChange(old(db.View()), manager, delta)
    ensures RolesAllCurrent(old(db.View()), old(roles.rows)) ==> RolesAllCurrent(db.View(), roles.rows)
  {
    hide RolesAllCurrent;
    ghost var before := db.View();
    if manager in db.employees {
      db.employees := db.employees[manager := db.employees[manager].(
        reporteesCount := Bumped(db.employees[manager].reporteesCount, delta))];
    }
    EmployeesDoNotMatterToRoles(before, db.View(), roles.rows);
    HandleEmployeeAttributeChange(db, roles, manager, ["reporteesCount", "hasReportees"]);
    assert ToSet(["reporteesCount", "hasReportees"]) == {"reporteesCount", "hasReportees"};
  }

  /** The former manager has one reportee less, but never less than none, and the new manager one more; a
      manager who is both has first the one and then the other; nothing else has moved. */
  predicate CountsMoved(before: map<Id, Employee>, after: map<Id, Employee>, former: Option<Id>, next: Option<Id>) {
    && after.Keys == before.Keys
    && forall e :: e in before ==>
      var count := before[e].reporteesCount;
      var less := if former == Some(e) && e != "" && count > 0 then count - 1 else count;
      after[e] == before[e].(reporteesCount := if next == Some(e) && e != "" then less + 1 else less)
  }

  lemma ManagerChangeMovesCount(db: Db, manager: Id, delta: int)
    ensures ManagerChange(db, manager, delta).employees
      == if manager !in db.employees then db.employees
         else db.employees[manager := db.employees[manager].(reporteesCount := Bumped(db.employees[manager].reporteesCount, delta))]
  {
    hide NoCandidates, Matching, Replaced, Bumped;
  }

  lemma ReportingLineMovesCounts(db: Db, former: Option<Id>, next: Option<Id>)
    ensures CountsMoved(db.employees, ReportingLine(db, former, next).employees, former, next)
  {
    hide ManagerChange;
    var one := if Given(former) then ManagerChange(db, former.value, -1) else db;
    if Given(former) { ManagerChangeMovesCount(db, former.value, -1); }
    if Given(next) { ManagerChangeMovesCount(one, next.value, 1); }
  }

  /** handleEmployeeReportingLineChanged. */
  method HandleEmployeeReportingLineChanged(db: Database, roles: EffectiveRoleRepository,
                                            oldManagerEmployeeId: Option<Id>, newManagerEmployeeId: Option<Id>)
    requires roles.Valid()
    modifies db`memberships, db`employees, db`audit, roles
    ensures roles.Valid()
    ensures db.View() == ReportingLine(old(db.View()), oldManagerEmployeeId, newManagerEmployeeId)
    ensures CountsMoved(old(db.employees), db.employees, oldManagerEmployeeId, newManagerEmployeeId)
    ensures Indexed(old(db.View())) && MembershipsCurrent(old(db.View())) ==>
      MembershipsCurrent(db.View()) && Indexed(db.View())
    ensures RolesAllCurrent(old(db.View()), old(roles.rows)) ==> RolesAllCurrent(db.View(), roles.rows)
  {
    hide MembershipsCurrent, Indexed, RolesAllCurrent, ManagerChange;
    ghost var before := db.View();
    ReportingLineMovesCounts(before, oldManagerEmployeeId, newManagerEmployeeId);
    if Indexed(before) && MembershipsCurrent(before) {
      ReportingLineKeepsMembershipsCurrent(before, oldManagerEmployeeId, newManagerEmployeeId);
    }
    if Given(oldManagerEmployeeId) {
      HandleManagerChange(db, roles, oldManagerEmployeeId.value, -1);
    }
    if Given(newManagerEmployeeId) {
      HandleManagerChange(db, roles, newManagerEmployeeId.value, 1);
    }
  }
}
