/** The rows of one tenant that membership and effective roles are computed from. */
module AuthorizationStore {
  import opened JavaScript
  import opened MatchingRules
  import opened RuleEvaluation
  import opened EffectiveRoles

  datatype GroupStatus = Active | Inactive

  datatype Group = Group(
    status: GroupStatus,
    scopeType: string,
    scopeRefId: Option<string>,
    matchingRule: Rule,
    ruleAttributeKeys: seq<string>,
    version: nat,
    projectionVersion: nat)

  /** userOf maps an employee to the one user that refers to it; memberships are (user, group) pairs. */
  datatype Db = Db(
    employees: map<Id, Employee>,
    userOf: map<Id, Id>,
    groups: map<Id, Group>,
    groupRoles: map<Id, seq<Id>>,
    memberships: set<(Id, Id)>)

  predicate ActiveGroup(db: Db, g: Id) {
    g in db.groups && db.groups[g].status.Active?
  }

  function RolesOf(db: Db, g: Id): seq<Id> {
    if g in db.groupRoles then db.groupRoles[g] else []
  }

  function GroupsOfUser(db: Db, userId: Id): set<Id> {
    set m | m in db.memberships && m.0 == userId :: m.1
  }

  function MembersOf(db: Db, groupId: Id): set<Id> {
    set m | m in db.memberships && m.1 == groupId :: m.0
  }

  /** What one role of one group grants. */
  function Grant(db: Db, g: Id, role: Id): Entry
    requires g in db.groups
  {
    Entry(role, g, db.groups[g].scopeType, OrNull(db.groups[g].scopeRefId))
  }

  function DeriveFrom(db: Db, groupIds: set<Id>): set<Entry> {
    set g, role | g in groupIds && ActiveGroup(db, g) && role in RolesOf(db, g) :: Grant(db, g, role)
  }

  /** The definition the incremental and the batch code both have to reach: the grants of the
      user's memberships in active groups. */
  function Derive(db: Db, userId: Id): set<Entry> {
    DeriveFrom(db, GroupsOfUser(db, userId))
  }

  /** Ids are UUIDs and scope references are not the word null, so keys identify grants. */
  ghost predicate SoundIds(db: Db) {
    forall g, role :: g in db.groups && role in RolesOf(db, g) ==> Sound(Grant(db, g, role))
  }

  /** The user's rows are exactly the derived grants, one row for each. */
  ghost predicate RolesCurrent(db: Db, rows: Rows, userId: Id) {
    OneRowPerKey(rows, userId) && GrantsOf(rows, userId) == Derive(db, userId)
  }

  predicate SavedGroup(g: Group) {
    RuleOk(g.matchingRule) && (set k | k in g.ruleAttributeKeys) == AttributeKeys(g.matchingRule.clauses)
  }

  /** Groups are saved with the keys the validator returned; every user refers to a stored employee (the
      foreign key fk_users_employee_reference), and no two employees share a user. */
  ghost predicate Indexed(db: Db) {
    && (forall g :: g in db.groups ==> SavedGroup(db.groups[g]))
    && db.userOf.Keys <= db.employees.Keys
    && (forall e, f :: e in db.userOf && f in db.userOf && db.userOf[e] == db.userOf[f] ==> e == f)
  }

  /** The employee's user is in exactly the active groups whose rule matches. */
  ghost predicate EmployeeCurrent(db: Db, e: Id)
    requires e in db.employees && e in db.userOf
  {
    forall g :: g in db.groups && db.groups[g].status == Active ==>
      ((db.userOf[e], g) in db.memberships <==> Evaluate(db.groups[g].matchingRule, db.employees[e]))
  }

  ghost predicate MembershipsCurrent(db: Db) {
    forall e :: e in db.employees && e in db.userOf ==> EmployeeCurrent(db, e)
  }

  /** The audit event of one changed membership set. */
  datatype AuditEvent = MembershipReconciled(
    userId: Id, addedGroupIds: seq<Id>, removedGroupIds: seq<Id>, rolesInserted: nat, rolesDeleted: nat)

  class Database {
    var employees: map<Id, Employee>
    var userOf: map<Id, Id>
    var groups: map<Id, Group>
    var groupRoles: map<Id, seq<Id>>
    var memberships: set<(Id, Id)>
    var audit: seq<AuditEvent>

    function View(): Db reads this {
      Db(employees, userOf, groups, groupRoles, memberships)
    }

    constructor (db: Db)
      ensures View() == db && audit == []
    {
      audit := [];
      employees, userOf, groups, groupRoles, memberships :=
        db.employees, db.userOf, db.groups, db.groupRoles, db.memberships;
    }
  }
}
