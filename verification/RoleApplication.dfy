/** RoleApplicationService: each operation's checks, then its transaction under the row lock. */
module RoleApplication {
  import opened JavaScript
  import opened PermissionCatalog
  import opened RoleStore
  import PermissionDependency

  datatype Reply = Done | NeedsConfirmation | Error(error: RoleError)

  /** What a call must come to: its checks see the tables as it found them, its transaction sees them as
      other calls have left them by then, and a transaction that fails leaves no trace. */
  ghost predicate Served(cfg: Catalog, before: Store, others: Store, groups: nat, users: nat, r: Request, reply: Reply, after: Store) {
    match Check(cfg, before, groups, users, r)
    case Refused(e) => reply == Error(e) && after == before
    case ConfirmationRequired => reply == NeedsConfirmation && after == before
    case Proceed(txn) =>
      match Transact(cfg, others, txn)
      case Committed(store) => reply == Done && after == store
      case RolledBack(e) => reply == Error(e) && after == others
  }

  /** The role's rows are the listed codes, beside protected rows that were kept, and nobody else's rows moved. */
  ghost predicate HoldsListed(before: Store, after: Store, id: Id, codes: seq<Code>) {
    && id in after.permissions && after.permissions - {id} == before.permissions - {id}
    && (forall c :: c in after.permissions[id] <==> c in codes || (id in before.permissions && c in before.permissions[id] && before.permissions[id][c]))
  }

  /** The role holds these codes as ordinary rows. */
  ghost predicate Unprotected(s: Store, id: Id, codes: seq<Code>) {
    id in s.permissions && forall c :: c in codes ==> c in s.permissions[id] && !s.permissions[id][c]
  }

  class RoleTables {
    var roles: map<Id, RoleRow>
    var permissions: map<Id, Rows>

    function View(): Store reads this { Store(roles, permissions) }

    constructor (s: Store)
      ensures View() == s
    {
      roles, permissions := s.roles, s.permissions;
    }

    method Restore(s: Store)
      modifies this
      ensures View() == s
    {
      roles, permissions := s.roles, s.permissions;
    }

    /** deleteByRoleId: only rows that are not protected. */
    method DeleteByRoleId(id: Id)
      modifies this`permissions
      ensures permissions == old(permissions)[id := KeptRows(RowsOf(old(View()), id))]
    {
      var rows := if id in permissions then permissions[id] else map[];
      var kept := map c | c in rows && rows[c] :: rows[c];
      assert kept == KeptRows(rows);
      permissions := permissions[id := kept];
    }

    /** bulkSave of new rows; false when a row violates the unique constraint. */
    method BulkSave(id: Id, codes: seq<Code>, protectedSet: set<Code>) returns (ok: bool)
      modifies this`permissions
      ensures ok == Insertable(RowsOf(old(View()), id), codes)
      ensures ok ==> permissions == old(permissions)[id := WithRows(RowsOf(old(View()), id), codes, protectedSet)]
    {
      hide Insertable, WithRows;
      var before := if id in permissions then permissions[id] else map[];
      var rows := before;
      NoRowsYet(before, protectedSet);
      assert codes[..0] == [];
      for i := 0 to |codes|
        invariant permissions == old(permissions) && Insertable(before, codes[..i]) && rows == WithRows(before, codes[..i], protectedSet)
      {
        OneMoreRow(before, codes, i, protectedSet);
        if codes[i] in rows {
          return false;
        }
        rows := rows[codes[i] := codes[i] in protectedSet];
      }
      assert codes[..|codes|] == codes && before == RowsOf(old(View()), id);
      permissions := permissions[id := rows];
      return true;
    }
  }

  lemma NoRowsYet(rows: Rows, protectedSet: set<Code>)
    ensures Insertable(rows, []) && WithRows(rows, [], protectedSet) == rows
  {
  }

  lemma OneMoreInsertable(rows: Rows, front: seq<Code>, c: Code)
    requires Insertable(rows, front)
    ensures Insertable(rows, front + [c]) <==> c !in rows && c !in front
  {
    var longer := front + [c];
    assert longer[|front|] == c;
    if c in front {
      var k :| 0 <= k < |front| && front[k] == c;
      assert longer[k] == longer[|front|];
    }
    assert c in longer;
    assert forall x :: x in longer <==> x in front || x == c;
  }

  lemma ConflictStays(rows: Rows, codes: seq<Code>, i: nat)
    requires i <= |codes| && !Insertable(rows, codes[..i])
    ensures !Insertable(rows, codes)
  {
    assert forall k :: 0 <= k < i ==> codes[..i][k] == codes[k];
    assert forall c :: c in codes[..i] ==> c in codes;
  }

  lemma OneMoreRow(rows: Rows, codes: seq<Code>, i: nat, protectedSet: set<Code>)
    requires i < |codes| && Insertable(rows, codes[..i])
    ensures if codes[i] in WithRows(rows, codes[..i], protectedSet) then !Insertable(rows, codes) else Insertable(rows, codes[..i + 1])
    ensures WithRows(rows, codes[..i + 1], protectedSet)
      == WithRows(rows, codes[..i], protectedSet)[codes[i] := codes[i] in protectedSet]
  {
    assert codes[..i + 1] == codes[..i] + [codes[i]];
    WithRowsAppend(rows, codes[..i], codes[i], protectedSet);
    OneMoreInsertable(rows, codes[..i], codes[i]);
    hide Insertable;
    if codes[i] in WithRows(rows, codes[..i], protectedSet) {
      ConflictStays(rows, codes, i + 1);
    }
  }

  lemma WithRowsAppend(rows: Rows, front: seq<Code>, c: Code, protectedSet: set<Code>)
    ensures WithRows(rows, front + [c], protectedSet) == WithRows(rows, front, protectedSet)[c := c in protectedSet]
  {
    assert forall x :: x in front + [c] <==> x in front || x == c;
  }

  /** The inserting transaction shared by createCustom and copy. */
  method InsertCustom(cfg: Catalog, t: RoleTables, id: Id, details: Details, codes: seq<Code>, others: Store) returns (reply: Reply)
    requires id !in others.roles && id !in others.permissions
    modifies t
    ensures match Transact(cfg, others, InsertRole(id, details, codes))
      case Committed(store) => reply == Done && t.View() == store
      case RolledBack(e) => reply == Error(e) && t.View() == others
    ensures reply.Done? ==>
      && t.roles == others.roles[id := RoleRow(details.name, details.description, Custom, RoleActive, 1)]
      && HoldsListed(others, t.View(), id, codes) && Unprotected(t.View(), id, codes)
    ensures !reply.Done? ==> reply == Error(UniqueViolation)
  {
    t.Restore(others);
    if NameTaken(others, details.name) {
      return Error(UniqueViolation);
    }
    t.roles := t.roles[id := RoleRow(details.name, details.description, Custom, RoleActive, 1)];
    var ok := t.BulkSave(id, codes, {});
    if !ok {
      t.Restore(others);
      return Error(UniqueViolation);
    }
    return Done;
  }

  method CreateCustomRole(cfg: Catalog, t: RoleTables, id: Id, details: Details, codes: seq<Code>, others: Store) returns (reply: Reply)
    requires id !in others.roles && id !in others.permissions
    modifies t
    ensures Served(cfg, old(t.View()), others, 0, 0, CreateCustom(id, details, codes), reply, t.View())
    ensures reply == Error(InvalidPermissionSet) <==> !PermissionDependency.Valid(cfg.graph, set c | c in codes)
    ensures reply == Error(DuplicateName) <==>
      PermissionDependency.Valid(cfg.graph, set c | c in codes) && exists other :: other in old(t.roles) && old(t.roles)[other].name == details.name
    ensures reply.Done? ==>
      && t.roles == others.roles[id := RoleRow(details.name, details.description, Custom, RoleActive, 1)]
      && HoldsListed(others, t.View(), id, codes) && Unprotected(t.View(), id, codes)
  {
    hide Transact, HoldsListed, Unprotected, PermissionDependency.Valid;
    var isValid, errors := PermissionDependency.ValidatePermissionSet(cfg.graph, codes);
    if !isValid {
      return Error(InvalidPermissionSet);
    }
    if NameTaken(t.View(), details.name) {
      return Error(DuplicateName);
    }
    reply := InsertCustom(cfg, t, id, details, codes, others);
  }

  /** order lists the source role's codes as the database returns them. */
  method CopyRole(cfg: Catalog, t: RoleTables, id: Id, sourceId: Id, details: Details, order: seq<Code>, others: Store)
    returns (reply: Reply)
    requires WellRead(t.View(), Copy(id, sourceId, details, order))
    requires id !in others.roles && id !in others.permissions
    modifies t
    ensures Served(cfg, old(t.View()), others, 0, 0, Copy(id, sourceId, details, order), reply, t.View())
    ensures reply.Done? ==> sourceId in old(t.roles) && id in t.roles && t.roles - {id} == others.roles - {id}
    ensures reply.Done? ==>
      && t.roles[id].name == details.name && t.roles[id].roleType.Custom? && t.roles[id].status.RoleActive?
      && t.roles[id].description == (if details.description.Some? then details.description else old(t.roles)[sourceId].description)
      && HoldsListed(others, t.View(), id, order) && Unprotected(t.View(), id, order)
  {
    hide Transact, HoldsListed, Unprotected;
    if sourceId !in t.roles {
      return Error(RoleNotFound);
    }
    var sourceRole := t.roles[sourceId];
    if NameTaken(t.View(), details.name) {
      return Error(DuplicateName);
    }
    var description := if details.description.Some? then details.description else sourceRole.description;
    reply := InsertCustom(cfg, t, id, Details(details.name, description), order, others);
  }

  lemma RowsAreListed(before: Store, after: Store, id: Id, codes: seq<Code>, protectedSet: set<Code>)
    requires after.permissions == before.permissions[id := WithRows(KeptRows(RowsOf(before, id)), codes, protectedSet)]
    ensures HoldsListed(before, after, id, codes)
  {
  }

  /** The replacing transaction shared by updateCustom and updatePermissions. */
  method ReplaceUnderLock(cfg: Catalog, t: RoleTables, id: Id, version: Option<nat>, details: Option<Details>, codes: seq<Code>, others: Store)
    returns (reply: Reply)
    modifies t
    ensures match Transact(cfg, others, Replace(id, version, details, codes))
      case Committed(store) => reply == Done && t.View() == store
      case RolledBack(e) => reply == Error(e) && t.View() == others
    ensures reply.Done? ==>
      && HoldsListed(others, t.View(), id, codes) && id in others.roles && id in t.roles && t.roles - {id} == others.roles - {id}
      && (version.Some? ==> others.roles[id].version == version.value) && t.roles[id].version == others.roles[id].version + 1
    ensures reply.Done? ==> t.roles[id].name == if details.Some? then details.value.name else others.roles[id].name
    ensures reply.Done? ==>
      t.roles[id].description
        == (if details.Some? && details.value.description.Some? then details.value.description else others.roles[id].description)
    ensures reply.Error? ==> reply.error in {RoleNotFound, VersionConflict, UniqueViolation}
  {
    hide Insertable, WithRows, KeptRows, NameTakenByOther, ProtectedCodes;
    t.Restore(others);
    if id !in t.roles {
      return Error(RoleNotFound);
    }
    var lockedRole := t.roles[id];
    if version.Some? && lockedRole.version != version.value {
      return Error(VersionConflict);
    }
    var protectedSet := if details.Some? then {} else ProtectedCodes(cfg, lockedRole.roleType);
    t.DeleteByRoleId(id);
    assert RowsOf(t.View(), id) == KeptRows(RowsOf(others, id));
    var ok := t.BulkSave(id, codes, protectedSet);
    if !ok || (details.Some? && NameTakenByOther(others, details.value.name, id)) {
      t.Restore(others);
      return Error(UniqueViolation);
    }
    lockedRole := lockedRole.(version := lockedRole.version + 1);
    if details.Some? {
      lockedRole := lockedRole.(name := details.value.name);
      if details.value.description.Some? {
        lockedRole := lockedRole.(description := details.value.description);
      }
    }
    t.roles := t.roles[id := lockedRole];
    assert t.permissions == others.permissions[id := t.permissions[id]];
    RowsAreListed(others, t.View(), id, codes, protectedSet);
    return Done;
  }

  method UpdateCustomRole(cfg: Catalog, t: RoleTables, id: Id, version: Option<nat>, details: Details, codes: seq<Code>, confirmed: bool,
                          users: nat, others: Store)
    returns (reply: Reply)
    modifies t
    ensures Served(cfg, old(t.View()), others, 0, users, UpdateCustom(id, version, details, codes, confirmed), reply, t.View())
    ensures reply == Error(CannotMutateSystemRole) <==> id in old(t.roles) && old(t.roles)[id].roleType.System?
    ensures reply.NeedsConfirmation? ==> users >= 100 && !confirmed && t.View() == old(t.View())
    ensures reply.Done? ==> users < 100 || confirmed
    ensures reply.Done? ==>
      && PermissionDependency.Valid(cfg.graph, set c | c in codes) && HoldsListed(others, t.View(), id, codes)
      && id in others.roles && id in t.roles && t.roles - {id} == others.roles - {id}
      && (version.Some? ==> others.roles[id].version == version.value) && t.roles[id].version == others.roles[id].version + 1
    ensures reply.Done? ==> t.roles[id].name == details.name && (details.description.Some? ==> t.roles[id].description == details.description)
  {
    hide Transact, HoldsListed, PermissionDependency.Valid, NameTakenByOther;
    if id !in t.roles {
      return Error(RoleNotFound);
    }
    var role := t.roles[id];
    if role.roleType.System? {
      return Error(CannotMutateSystemRole);
    }
    if version.Some? && role.version != version.value {
      return Error(VersionConflict);
    }
    if role.name != details.name {
      if NameTakenByOther(t.View(), details.name, id) {
        return Error(DuplicateName);
      }
    }
    var isValid, errors := PermissionDependency.ValidatePermissionSet(cfg.graph, codes);
    if !isValid {
      return Error(InvalidPermissionSet);
    }
    if users >= HIGH_IMPACT_THRESHOLD && !confirmed {
      return NeedsConfirmation;
    }
    reply := ReplaceUnderLock(cfg, t, id, version, Some(details), codes, others);
  }

  method UpdateRolePermissions(cfg: Catalog, t: RoleTables, id: Id, version: Option<nat>, codes: seq<Code>, confirmed: bool,
                               users: nat, others: Store)
    returns (reply: Reply)
    modifies t
    ensures Served(cfg, old(t.View()), others, 0, users, UpdatePermissions(id, version, codes, confirmed), reply, t.View())
    ensures reply == Error(ProtectedCapabilityRemoval) ==> id in old(t.roles) && old(t.roles)[id].roleType.System?
    ensures reply.NeedsConfirmation? ==> users >= 100 && !confirmed && t.View() == old(t.View())
    ensures reply.Done? ==> users < 100 || confirmed
    ensures reply.Done? ==>
      && PermissionDependency.Valid(cfg.graph, set c | c in codes) && HoldsListed(others, t.View(), id, codes)
      && id in others.roles && id in t.roles && t.roles - {id} == others.roles - {id}
      && (version.Some? ==> others.roles[id].version == version.value) && t.roles[id].version == others.roles[id].version + 1
    ensures reply.Done? ==> t.roles[id].name == others.roles[id].name && t.roles[id].description == others.roles[id].description
  {
    hide Transact, HoldsListed, PermissionDependency.Valid, NameTakenByOther;
    if id !in t.roles {
      return Error(RoleNotFound);
    }
    var role := t.roles[id];
    if version.Some? && role.version != version.value {
      return Error(VersionConflict);
    }
    if role.roleType.System? && role.roleType.key in cfg.templates {
      var template := cfg.templates[role.roleType.key];
      var omittedProtected := set c | c in template && template[c] && c !in codes;
      if omittedProtected != {} {
        var c :| c in omittedProtected;
        assert c in ProtectedCodes(cfg, role.roleType) && c !in ToSet(codes);
        return Error(ProtectedCapabilityRemoval);
      }
      assert forall c :: c in ProtectedCodes(cfg, role.roleType) && c !in codes ==> c in omittedProtected;
    }
    assert ProtectedCodes(cfg, role.roleType) <= ToSet(codes);
    var isValid, errors := PermissionDependency.ValidatePermissionSet(cfg.graph, codes);
    if !isValid {
      return Error(InvalidPermissionSet);
    }
    if users >= HIGH_IMPACT_THRESHOLD && !confirmed {
      return NeedsConfirmation;
    }
    reply := ReplaceUnderLock(cfg, t, id, version, None, codes, others);
  }

  /** The status transaction shared by deactivate and reactivate. */
  method SetStatusUnderLock(cfg: Catalog, t: RoleTables, id: Id, version: Option<nat>, status: RoleStatus, others: Store)
    returns (reply: Reply)
    modifies t
    ensures match Transact(cfg, others, SetStatus(id, version, status))
      case Committed(store) => reply == Done && t.View() == store
      case RolledBack(e) => reply == Error(e) && t.View() == others
  {
    t.Restore(others);
    if id !in t.roles {
      return Error(RoleNotFound);
    }
    var lockedRole := t.roles[id];
    if version.Some? && lockedRole.version != version.value {
      return Error(VersionConflict);
    }
    t.roles := t.roles[id := lockedRole.(status := status, version := lockedRole.version + 1)];
    return Done;
  }

  method DeactivateRole(cfg: Catalog, t: RoleTables, id: Id, version: Option<nat>, confirmed: bool, groups: nat, others: Store)
    returns (reply: Reply)
    modifies t
    ensures Served(cfg, old(t.View()), others, groups, 0, Deactivate(id, version, confirmed), reply, t.View())
    ensures reply == Error(CriticalRoleDeactivation) <==> id in old(t.roles) && old(t.roles)[id].roleType == System("ADMINISTRATOR")
    ensures reply.NeedsConfirmation? ==> groups > 0 && !confirmed && t.View() == old(t.View())
    ensures reply.Done? ==>
      && (groups == 0 || confirmed) && id in others.roles && t.permissions == others.permissions
      && t.roles == others.roles[id := others.roles[id].(status := RoleInactive, version := others.roles[id].version + 1)]
  {
    if id !in t.roles {
      return Error(RoleNotFound);
    }
    var role := t.roles[id];
    if role.roleType == System(ADMINISTRATOR) {
      return Error(CriticalRoleDeactivation);
    }
    if version.Some? && role.version != version.value {
      return Error(VersionConflict);
    }
    if groups > 0 && !confirmed {
      return NeedsConfirmation;
    }
    reply := SetStatusUnderLock(cfg, t, id, version, RoleInactive, others);
  }

  method ReactivateRole(cfg: Catalog, t: RoleTables, id: Id, others: Store) returns (reply: Reply)
    modifies t
    ensures Served(cfg, old(t.View()), others, 0, 0, Reactivate(id), reply, t.View())
    ensures reply.Done? ==>
      && id in others.roles && t.permissions == others.permissions
      && t.roles == others.roles[id := others.roles[id].(status := RoleActive, version := others.roles[id].version + 1)]
  {
    if id !in t.roles {
      return Error(RoleNotFound);
    }
    reply := SetStatusUnderLock(cfg, t, id, None, RoleActive, others);
  }

  /** rename, all of it in one transaction; a name that does not change is left alone. */
  method RenameRole(cfg: Catalog, t: RoleTables, id: Id, details: Details) returns (reply: Reply)
    modifies t
    ensures Served(cfg, old(t.View()), old(t.View()), 0, 0, Rename(id, details), reply, t.View())
    ensures reply.Done? ==> id in t.roles && t.roles[id].name == details.name && t.permissions == old(t.permissions)
    ensures reply == Error(DuplicateName) <==>
      (id in old(t.roles) && old(t.roles)[id].name != details.name
       && exists other :: other in old(t.roles) && old(t.roles)[other].name == details.name)
  {
    if id !in t.roles {
      return Error(RoleNotFound);
    }
    var role := t.roles[id];
    if role.name == details.name {
      return Done;
    }
    if NameTaken(t.View(), details.name) {
      return Error(DuplicateName);
    }
    role := role.(name := details.name, version := role.version + 1);
    if details.description.Some? {
      role := role.(description := details.description);
    }
    t.roles := t.roles[id := role];
    return Done;
  }

  /** delete: the unprotected rows, then the role, and with it whatever rows are left. */
  method RemoveRole(cfg: Catalog, t: RoleTables, id: Id) returns (reply: Reply)
    modifies t
    ensures Served(cfg, old(t.View()), old(t.View()), 0, 0, Delete(id), reply, t.View())
    ensures reply.Done? ==> t.roles == old(t.roles) - {id} && t.permissions == old(t.permissions) - {id}
    ensures reply == Error(CannotDeleteSystemRole) <==> id in old(t.roles) && old(t.roles)[id].roleType.System?
  {
    if id !in t.roles {
      return Error(RoleNotFound);
    }
    if t.roles[id].roleType.System? {
      return Error(CannotDeleteSystemRole);
    }
    t.DeleteByRoleId(id);
    t.roles, t.permissions := t.roles - {id}, t.permissions - {id};
    return Done;
  }
}
