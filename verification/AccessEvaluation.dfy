/** CumulativeAccessEvaluator: access is the union of what every held role grants in its scope. */
module AccessEvaluation {
  import opened JavaScript
  import opened EffectiveRoles
  import opened EffectiveRoleTable
  import opened AuthorizationStore
  import opened EffectiveRoleProjection
  import opened MembershipReconciler

  /** The attributes of the record being accessed; an absent one is undefined. */
  datatype Resource = Resource(
    employeeId: Option<string>,
    managerId: Option<string>,
    companyId: Option<string>,
    locationId: Option<string>,
    departmentId: Option<string>)

  predicate Present(s: Option<string>) {
    s.Some? && s.value != ""
  }

  predicate SameIgnoringCase(ref: Option<string>, value: Option<string>) {
    Present(ref) && Present(value) && ToLower(value.value) == ToLower(ref.value)
  }

  /** evaluateScope. */
  predicate EvaluateScope(scopeType: string, refId: Option<string>, r: Resource, currentEmployeeId: Id) {
    if scopeType == "TENANT" || scopeType == "TENANT_WIDE" then true
    else if scopeType == "SELF" then Present(r.employeeId) && r.employeeId.value == currentEmployeeId
    else if scopeType == "DIRECT_REPORTEES" then Present(r.managerId) && r.managerId.value == currentEmployeeId
    else if scopeType == "COMPANY" then SameIgnoringCase(refId, r.companyId)
    else if scopeType == "LOCATION" then SameIgnoringCase(refId, r.locationId)
    else if scopeType == "DEPARTMENT" then SameIgnoringCase(refId, r.departmentId)
    else false
  }

  predicate Grants(rolePermissions: map<Id, seq<string>>, roleId: Id, permission: string) {
    roleId in rolePermissions && permission in rolePermissions[roleId]
  }

  /** The roles that grant the permission, in order. */
  function GrantingRoles(permission: string, userRoles: seq<PersistEntry>, rolePermissions: map<Id, seq<string>>): (granting: seq<PersistEntry>)
    ensures forall g :: g in granting <==> g in userRoles && Grants(rolePermissions, g.roleId, permission)
  {
    if userRoles == [] then []
    else
      var rest := GrantingRoles(permission, userRoles[1..], rolePermissions);
      if Grants(rolePermissions, userRoles[0].roleId, permission) then [userRoles[0]] + rest else rest
  }

  /** The early-return loop over the granting roles. */
  predicate AnyScopeCovers(granting: seq<PersistEntry>, r: Resource, currentEmployeeId: Id)
    ensures AnyScopeCovers(granting, r, currentEmployeeId) <==>
      exists g :: g in granting && EvaluateScope(g.scope.kind, g.scope.refId, r, currentEmployeeId)
  {
    granting != [] &&
    (EvaluateScope(granting[0].scope.kind, granting[0].scope.refId, r, currentEmployeeId)
     || AnyScopeCovers(granting[1..], r, currentEmployeeId))
  }

  /** evaluateAccess. */
  predicate EvaluateAccess(permission: string, userRoles: seq<PersistEntry>, rolePermissions: map<Id, seq<string>>,
                           r: Resource, currentEmployeeId: Id)
  {
    userRoles != [] && AnyScopeCovers(GrantingRoles(permission, userRoles, rolePermissions), r, currentEmployeeId)
  }

  /** One grant gives the permission on the resource. */
  predicate EntryAllows(e: Entry, permission: string, rolePermissions: map<Id, seq<string>>, r: Resource, currentEmployeeId: Id) {
    Grants(rolePermissions, e.roleId, permission) && EvaluateScope(e.scopeType, e.scopeEntityId, r, currentEmployeeId)
  }

  /** Which attribute of the resource decides, for every list of roles: some role with the permission has a
      tenant-wide scope, or is a SELF or DIRECT_REPORTEES role and the resource's employee or manager is the
      caller, or refers, up to ASCII case, to the resource's own company, location or department. */
  lemma AccessIsDecidedByAttributes(permission: string, userRoles: seq<PersistEntry>, rolePermissions: map<Id, seq<string>>,
                                    r: Resource, me: Id)
    ensures EvaluateAccess(permission, userRoles, rolePermissions, r, me) <==>
      exists g :: g in userRoles && g.roleId in rolePermissions && permission in rolePermissions[g.roleId] && (
        || g.scope.kind in {"TENANT", "TENANT_WIDE"}
        || (g.scope.kind == "SELF" && me != "" && r.employeeId == Some(me))
        || (g.scope.kind == "DIRECT_REPORTEES" && me != "" && r.managerId == Some(me))
        || (g.scope.kind == "COMPANY" && RefersTo(g.scope.refId, r.companyId))
        || (g.scope.kind == "LOCATION" && RefersTo(g.scope.refId, r.locationId))
        || (g.scope.kind == "DEPARTMENT" && RefersTo(g.scope.refId, r.departmentId)))
  {
    hide SameIgnoringCase, RefersTo;
    forall g: PersistEntry
      ensures SameIgnoringCase(g.scope.refId, r.companyId) == RefersTo(g.scope.refId, r.companyId)
      ensures SameIgnoringCase(g.scope.refId, r.locationId) == RefersTo(g.scope.refId, r.locationId)
      ensures SameIgnoringCase(g.scope.refId, r.departmentId) == RefersTo(g.scope.refId, r.departmentId)
    {
      SameIgnoringCaseMeans(g.scope.refId, r.companyId);
      SameIgnoringCaseMeans(g.scope.refId, r.locationId);
      SameIgnoringCaseMeans(g.scope.refId, r.departmentId);
    }
  }

  /** Both are there, neither is empty, and they are one word up to the case of ASCII letters. */
  predicate RefersTo(ref: Option<string>, attribute: Option<string>) {
    && ref.Some? && attribute.Some? && ref.value != "" && |attribute.value| == |ref.value|
    && forall i :: 0 <= i < |ref.value| ==>
         attribute.value[i] == ref.value[i]
         || ('A' <= ref.value[i] <= 'Z' && attribute.value[i] as int == ref.value[i] as int + 32)
         || ('A' <= attribute.value[i] <= 'Z' && ref.value[i] as int == attribute.value[i] as int + 32)
  }

  lemma SameIgnoringCaseMeans(ref: Option<string>, attribute: Option<string>)
    ensures SameIgnoringCase(ref, attribute) <==> RefersTo(ref, attribute)
  {
    if ref.Some? && attribute.Some? {
      var a, b := ToLower(attribute.value), ToLower(ref.value);
      if a == b {
        forall i | 0 <= i < |ref.value| ensures LowerChar(attribute.value[i]) == LowerChar(ref.value[i]) {
          assert a[i] == b[i];
        }
      }
    }
  }

  /** One role that grants the permission, in one group and scope. */
  predicate HoldsOne(userRoles: seq<PersistEntry>, rolePermissions: map<Id, seq<string>>, permission: string, kind: string,
                     refId: Option<string>)
  {
    && |userRoles| == 1 && userRoles[0].roleId in rolePermissions && permission in rolePermissions[userRoles[0].roleId]
    && userRoles[0].scope == Scope(kind, refId)
  }

  /** A SELF role reaches the caller's own record, and nothing else. */
  lemma SelfReachesOneself(permission: string, userRoles: seq<PersistEntry>, rolePermissions: map<Id, seq<string>>,
                           refId: Option<string>, r: Resource, me: Id)
    requires HoldsOne(userRoles, rolePermissions, permission, "SELF", refId) && me != ""
    ensures EvaluateAccess(permission, userRoles, rolePermissions, r, me) <==> r.employeeId == Some(me)
  {
    hide EvaluateAccess;
    AccessIsDecidedByAttributes(permission, userRoles, rolePermissions, r, me);
    assert userRoles[0] in userRoles;
  }

  /** A DIRECT_REPORTEES role reaches the records whose manager the caller is, and nothing else. */
  lemma DirectReporteesReachesReports(permission: string, userRoles: seq<PersistEntry>, rolePermissions: map<Id, seq<string>>,
                                      refId: Option<string>, r: Resource, me: Id)
    requires HoldsOne(userRoles, rolePermissions, permission, "DIRECT_REPORTEES", refId) && me != ""
    ensures EvaluateAccess(permission, userRoles, rolePermissions, r, me) <==> r.managerId == Some(me)
  {
    hide EvaluateAccess;
    AccessIsDecidedByAttributes(permission, userRoles, rolePermissions, r, me);
    assert userRoles[0] in userRoles;
  }

  /** A role for a company, location or department reaches the records of the one it refers to, up to ASCII
      case, whoever the caller is; without a reference it reaches nothing. */
  lemma ReferencedScopesReachTheirOwn(permission: string, userRoles: seq<PersistEntry>, rolePermissions: map<Id, seq<string>>,
                                      refId: Option<string>, r: Resource, me: Id)
    ensures HoldsOne(userRoles, rolePermissions, permission, "COMPANY", refId) ==>
      (EvaluateAccess(permission, userRoles, rolePermissions, r, me) <==> RefersTo(refId, r.companyId))
    ensures HoldsOne(userRoles, rolePermissions, permission, "LOCATION", refId) ==>
      (EvaluateAccess(permission, userRoles, rolePermissions, r, me) <==> RefersTo(refId, r.locationId))
    ensures HoldsOne(userRoles, rolePermissions, permission, "DEPARTMENT", refId) ==>
      (EvaluateAccess(permission, userRoles, rolePermissions, r, me) <==> RefersTo(refId, r.departmentId))
    ensures refId.None? || refId == Some("") ==> !RefersTo(refId, r.companyId)
  {
    hide EvaluateAccess;
    AccessIsDecidedByAttributes(permission, userRoles, rolePermissions, r, me);
    assert |userRoles| == 1 ==> userRoles[0] in userRoles;
  }

  /** A tenant-wide role reaches every record, and a role of any other kind none. */
  lemma OtherScopesReachAllOrNothing(permission: string, userRoles: seq<PersistEntry>, rolePermissions: map<Id, seq<string>>,
                                     kind: string, refId: Option<string>, r: Resource, me: Id)
    requires HoldsOne(userRoles, rolePermissions, permission, kind, refId)
    ensures kind in {"TENANT", "TENANT_WIDE"} ==> EvaluateAccess(permission, userRoles, rolePermissions, r, me)
    ensures kind !in {"TENANT", "TENANT_WIDE", "SELF", "DIRECT_REPORTEES", "COMPANY", "LOCATION", "DEPARTMENT"} ==>
      !EvaluateAccess(permission, userRoles, rolePermissions, r, me)
  {
    hide EvaluateAccess;
    AccessIsDecidedByAttributes(permission, userRoles, rolePermissions, r, me);
    assert userRoles[0] in userRoles;
  }

  /** The answer depends only on which grants are held: not on order, and not on repetitions. */
  lemma AccessDependsOnGrantSet(permission: string, userRoles: seq<PersistEntry>, rolePermissions: map<Id, seq<string>>,
                                r: Resource, currentEmployeeId: Id)
    ensures EvaluateAccess(permission, userRoles, rolePermissions, r, currentEmployeeId) <==>
      exists e :: e in RoleSet(userRoles) && EntryAllows(e, permission, rolePermissions, r, currentEmployeeId)
  {
    hide EvaluateScope;
    forall u: PersistEntry ensures EvaluateScope(u.scope.kind, OrNull(u.scope.refId), r, currentEmployeeId)
      == EvaluateScope(u.scope.kind, u.scope.refId, r, currentEmployeeId) {
      EmptyRefIsNoRef(u.scope.kind, u.scope.refId, r, currentEmployeeId);
    }
    if EvaluateAccess(permission, userRoles, rolePermissions, r, currentEmployeeId) {
      var g :| g in userRoles && Grants(rolePermissions, g.roleId, permission)
        && EvaluateScope(g.scope.kind, g.scope.refId, r, currentEmployeeId);
      assert Normalize(Flatten(g)) in RoleSet(userRoles);
    }
    forall e | e in RoleSet(userRoles) && EntryAllows(e, permission, rolePermissions, r, currentEmployeeId)
      ensures EvaluateAccess(permission, userRoles, rolePermissions, r, currentEmployeeId) {
      var i :| 0 <= i < |userRoles| && Normalize(Flatten(userRoles[i])) == e;
      assert userRoles[i] in GrantingRoles(permission, userRoles, rolePermissions);
    }
  }

  lemma EmptyRefIsNoRef(scopeType: string, refId: Option<string>, r: Resource, currentEmployeeId: Id)
    ensures EvaluateScope(scopeType, OrNull(refId), r, currentEmployeeId) == EvaluateScope(scopeType, refId, r, currentEmployeeId)
  {
  }

  /** Some membership in an active group has a role that grants the permission, and the group's
      scope covers the resource. */
  ghost predicate MembershipAllows(db: Db, userId: Id, permission: string, rolePermissions: map<Id, seq<string>>,
                                   r: Resource, currentEmployeeId: Id)
  {
    exists g, role :: (userId, g) in db.memberships
      && g in db.groups && db.groups[g].status == Active && g in db.groupRoles && role in db.groupRoles[g]
      && role in rolePermissions && permission in rolePermissions[role]
      && EvaluateScope(db.groups[g].scopeType, db.groups[g].scopeRefId, r, currentEmployeeId)
  }

  /** Evaluating the roles that stand for the derived grants decides access by membership. */
  lemma AccessIsMembershipAccess(db: Db, userId: Id, userRoles: seq<PersistEntry>, permission: string,
                                 rolePermissions: map<Id, seq<string>>, r: Resource, currentEmployeeId: Id)
    requires RoleSet(userRoles) == Derive(db, userId)
    ensures EvaluateAccess(permission, userRoles, rolePermissions, r, currentEmployeeId) <==>
      MembershipAllows(db, userId, permission, rolePermissions, r, currentEmployeeId)
  {
    hide EvaluateScope, EvaluateAccess;
    AccessDependsOnGrantSet(permission, userRoles, rolePermissions, r, currentEmployeeId);
    forall e | e in Derive(db, userId) && EntryAllows(e, permission, rolePermissions, r, currentEmployeeId)
      ensures MembershipAllows(db, userId, permission, rolePermissions, r, currentEmployeeId) {
      var g, role :| g in GroupsOfUser(db, userId) && ActiveGroup(db, g) && role in RolesOf(db, g) && Grant(db, g, role) == e;
      var m :| m in db.memberships && m.0 == userId && m.1 == g;
      assert m == (userId, g);
      EmptyRefIsNoRef(db.groups[g].scopeType, db.groups[g].scopeRefId, r, currentEmployeeId);
    }
    if MembershipAllows(db, userId, permission, rolePermissions, r, currentEmployeeId) {
      var g, role :| (userId, g) in db.memberships
        && g in db.groups && db.groups[g].status == Active && g in db.groupRoles && role in db.groupRoles[g]
        && role in rolePermissions && permission in rolePermissions[role]
        && EvaluateScope(db.groups[g].scopeType, db.groups[g].scopeRefId, r, currentEmployeeId);
      EmptyRefIsNoRef(db.groups[g].scopeType, db.groups[g].scopeRefId, r, currentEmployeeId);
      assert g in GroupsOfUser(db, userId);
      assert Grant(db, g, role) in Derive(db, userId);
    }
  }

  /** Access never shrinks when memberships are added. */
  lemma AccessIsMonotone(db: Db, more: set<(Id, Id)>, userId: Id, few: seq<PersistEntry>, many: seq<PersistEntry>,
                         permission: string, rolePermissions: map<Id, seq<string>>, r: Resource, currentEmployeeId: Id)
    requires db.memberships <= more
    requires RoleSet(few) == Derive(db, userId) && RoleSet(many) == Derive(db.(memberships := more), userId)
    requires EvaluateAccess(permission, few, rolePermissions, r, currentEmployeeId)
    ensures EvaluateAccess(permission, many, rolePermissions, r, currentEmployeeId)
  {
    hide EvaluateScope, EvaluateAccess, Grants, RoleSet, Derive;
    AccessIsMembershipAccess(db, userId, few, permission, rolePermissions, r, currentEmployeeId);
    AccessIsMembershipAccess(db.(memberships := more), userId, many, permission, rolePermissions, r, currentEmployeeId);
  }

  /** Recompute, then read the profile through the cache, then decide. The answer is that of the
      memberships, whether the profile is cached or recovered from the rows; only when the write
      to the store failed and an old profile is still readable does the old profile decide. */
  method DecideAfterRecompute(db: Database, roles: EffectiveRoleRepository, cache: UserAuthorizationCache, userId: Id,
                              permission: string, rolePermissions: map<Id, seq<string>>, r: Resource, currentEmployeeId: Id,
                              evicted: bool, readUp: bool, counterUp: bool, storeUp: bool)
    returns (allowed: bool)
    requires roles.Valid() && WellKept(roles.rows) && SoundIds(db.View())
    modifies roles, cache
    ensures storeUp || evicted || !readUp || userId !in old(cache.entries) ==>
      (allowed <==> MembershipAllows(db.View(), userId, permission, rolePermissions, r, currentEmployeeId))
    ensures !storeUp && !evicted && readUp && userId in old(cache.entries) ==>
      (allowed <==> EvaluateAccess(permission, old(cache.entries)[userId].roles, rolePermissions, r, currentEmployeeId))
  {
    hide SoundIds, SoundRows, EvaluateAccess, MembershipAllows, Derive, RoleSet, GrantsOf;
    var result := EffectiveRoleProjection.RecomputeUserEffectiveRoles(db, roles, cache, userId, counterUp, storeUp);
    if evicted {
      cache.entries := cache.entries - {userId};
    }
    var profile := cache.GetUserAuthorizationProfile(roles, userId, readUp, counterUp, storeUp);
    if RoleSet(profile.roles) == Derive(db.View(), userId) {
      AccessIsMembershipAccess(db.View(), userId, profile.roles, permission, rolePermissions, r, currentEmployeeId);
    }
    allowed := EvaluateAccess(permission, profile.roles, rolePermissions, r, currentEmployeeId);
  }
}
