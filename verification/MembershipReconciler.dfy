/** MembershipReconciler and the services that feed it. */
module MembershipReconciler {
  import opened JavaScript
  import opened MatchingRules
  import opened RuleEvaluation
  import opened EffectiveRoles
  import opened EffectiveRoleTable
  import opened AuthorizationStore

  function ToSet(ids: seq<Id>): set<Id> {
    set x | x in ids
  }

  function Replaced(memberships: set<(Id, Id)>, userId: Id, groupIds: set<Id>): set<(Id, Id)> {
    (set m | m in memberships && m.0 != userId) + (set g | g in groupIds :: (userId, g))
  }

  /** A list of the set's elements without repeats. */
  ghost predicate Lists(ids: seq<Id>, s: set<Id>) {
    ToSet(ids) == s && |ids| == |s|
  }

  lemma ListsOneMore(ids: seq<Id>, s: set<Id>, id: Id)
    requires Lists(ids, s) && id !in s
    ensures Lists(ids + [id], s + {id})
  {
  }

  /** Listing what is in one set and not in the other, as the difference loops do. */
  method Difference(from: set<Id>, other: set<Id>) returns (ids: seq<Id>)
    ensures ToSet(ids) == from - other && |ids| == |from - other|
  {
    ids := [];
    var todo := from;
    assert Lists(ids, (from - todo) - other);
    hide Lists, ToSet;
    while todo != {}
      invariant todo <= from && Lists(ids, (from - todo) - other)
    {
      var id :| id in todo;
      CheckedOneMore(from, todo, other, id);
      if id !in other {
        ListsOneMore(ids, (from - todo) - other, id);
        ids := ids + [id];
      }
      todo := todo - {id};
    }
    assert (from - {}) - other == from - other;
    ListsMeans(ids, from - other);
  }

  lemma ListsMeans(ids: seq<Id>, s: set<Id>)
    requires Lists(ids, s)
    ensures ToSet(ids) == s && |ids| == |s|
  {
  }

  /** The nested loops that build the target role list from a list of groups. */
  method CollectTargets(db: Database, groupIds: seq<Id>) returns (targets: seq<Entry>)
    ensures forall t :: t in targets <==> t in DeriveFrom(db.View(), ToSet(groupIds))
  {
    targets := [];
    for i := 0 to |groupIds|
      invariant forall t :: t in targets <==> t in DeriveFrom(db.View(), ToSet(groupIds[..i]))
    {
      var gid := groupIds[i];
      ghost var before := targets;
      assert ToSet(groupIds[..i + 1]) == ToSet(groupIds[..i]) + {gid};
      if gid !in db.groups || db.groups[gid].status != Active {
        assert DeriveFrom(db.View(), ToSet(groupIds[..i + 1])) == DeriveFrom(db.View(), ToSet(groupIds[..i]));
        continue;
      }
      var group := db.groups[gid];
      var roles := if gid in db.groupRoles then db.groupRoles[gid] else [];
      for j := 0 to |roles|
        invariant forall t :: t in targets <==> t in before || exists k :: 0 <= k < j && t == Grant(db.View(), gid, roles[k])
      {
        targets := targets + [Entry(roles[j], gid, group.scopeType, OrNull(group.scopeRefId))];
      }
      forall t ensures t in targets <==> t in DeriveFrom(db.View(), ToSet(groupIds[..i + 1])) {
        DeriveFromAdd(db.View(), ToSet(groupIds[..i]), gid, t);
      }
    }
    assert groupIds[..|groupIds|] == groupIds;
  }

  lemma DeriveFromAdd(db: Db, groupIds: set<Id>, g: Id, t: Entry)
    requires ActiveGroup(db, g)
    ensures t in DeriveFrom(db, groupIds + {g}) <==>
      t in DeriveFrom(db, groupIds) || exists k :: 0 <= k < |RolesOf(db, g)| && t == Grant(db, g, RolesOf(db, g)[k])
  {
    if t in DeriveFrom(db, groupIds + {g}) && t !in DeriveFrom(db, groupIds) {
      var h, role :| h in groupIds + {g} && ActiveGroup(db, h) && role in RolesOf(db, h) && Grant(db, h, role) == t;
      assert h == g;
    }
  }

  datatype SingleUserResult = SingleUserResult(addedGroupIds: seq<Id>, removedGroupIds: seq<Id>, effectiveRolesChanged: bool)

  /** Grants of a user after its membership set is replaced come from the new set alone. */
  lemma ReplacedGroups(db: Db, userId: Id, groupIds: set<Id>, other: Id)
    ensures var after := db.(memberships := Replaced(db.memberships, userId, groupIds));
      && GroupsOfUser(after, userId) == groupIds
      && (other != userId ==> GroupsOfUser(after, other) == GroupsOfUser(db, other))
  {
    var after := db.(memberships := Replaced(db.memberships, userId, groupIds));
    forall g | g in groupIds ensures g in GroupsOfUser(after, userId) {
      assert (userId, g) in after.memberships;
    }
    if other != userId {
      forall m | m in db.memberships && m.0 == other ensures m in after.memberships {
      }
      forall m | m in after.memberships && m.0 == other ensures m in db.memberships {
      }
    }
  }

  lemma DerivedTargetsAreSound(db: Db, groupIds: set<Id>, targets: seq<Entry>)
    requires SoundIds(db) && forall t :: t in targets <==> t in DeriveFrom(db, groupIds)
    ensures forall i :: 0 <= i < |targets| ==> Sound(targets[i])
    ensures GrantSet(targets) == DeriveFrom(db, groupIds)
  {
    hide Sound;
    forall t | t in DeriveFrom(db, groupIds) ensures Normalize(t) == t && Sound(t) {
      var g, role :| g in groupIds && ActiveGroup(db, g) && role in RolesOf(db, g) && Grant(db, g, role) == t;
    }
    forall i | 0 <= i < |targets| ensures Sound(targets[i]) && Normalize(targets[i]) == targets[i] {
      assert targets[i] in targets;
    }
    forall t | t in DeriveFrom(db, groupIds) ensures t in GrantSet(targets) {
      var i :| 0 <= i < |targets| && targets[i] == t;
    }
  }

  lemma NothingToReplace(db: Db, userId: Id, groupIds: set<Id>)
    requires GroupsOfUser(db, userId) == groupIds
    ensures Replaced(db.memberships, userId, groupIds) == db.memberships
  {
    forall m | m in Replaced(db.memberships, userId, groupIds) ensures m in db.memberships {
      if m.0 == userId {
        assert m.1 in GroupsOfUser(db, userId);
        var n :| n in db.memberships && n.0 == userId && n.1 == m.1;
        assert n == m;
      }
    }
    forall m | m in db.memberships ensures m in Replaced(db.memberships, userId, groupIds) {
      if m.0 == userId {
        assert m.1 in GroupsOfUser(db, userId) && m == (userId, m.1);
      }
    }
  }

  /** Inserting the added and deleting the removed memberships. */
  method ApplyMembershipDiff(db: Database, userId: Id, addedGroupIds: seq<Id>, removedGroupIds: seq<Id>)
    modifies db`memberships
    ensures db.memberships == (old(db.memberships) + set g | g in addedGroupIds :: (userId, g))
                              - set g | g in removedGroupIds :: (userId, g)
  {
    for i := 0 to |addedGroupIds|
      invariant db.memberships == old(db.memberships) + set g | g in addedGroupIds[..i] :: (userId, g)
    {
      db.memberships := db.memberships + {(userId, addedGroupIds[i])};
    }
    assert addedGroupIds[..|addedGroupIds|] == addedGroupIds;
    ghost var grown := db.memberships;
    for i := 0 to |removedGroupIds|
      invariant db.memberships == grown - set g | g in removedGroupIds[..i] :: (userId, g)
    {
      db.memberships := db.memberships - {(userId, removedGroupIds[i])};
    }
    assert removedGroupIds[..|removedGroupIds|] == removedGroupIds;
  }

  lemma ReplacedIsDiff(db: Db, userId: Id, groupIds: set<Id>, added: seq<Id>, removed: seq<Id>)
    requires ToSet(added) == groupIds - GroupsOfUser(db, userId)
    requires ToSet(removed) == GroupsOfUser(db, userId) - groupIds
    ensures (db.memberships + set g | g in added :: (userId, g)) - (set g | g in removed :: (userId, g))
      == Replaced(db.memberships, userId, groupIds)
  {
    var diff := (db.memberships + set g | g in added :: (userId, g)) - (set g | g in removed :: (userId, g));
    forall m ensures m in diff <==> m in Replaced(db.memberships, userId, groupIds) {
      if m.0 == userId {
        assert m == (userId, m.1);
        assert m in db.memberships <==> m.1 in GroupsOfUser(db, userId);
        assert m.1 in added <==> m.1 in ToSet(added);
        assert m.1 in removed <==> m.1 in ToSet(removed);
      }
    }
  }

  /** A reconciler call leaves a user's rows current, given that it started from sound rows. */
  ghost predicate LeavesCurrent(db: Db, before: Rows, after: Rows, userId: Id) {
    OneRowPerKey(before, userId) && SoundRows(before) && SoundIds(db) ==> RolesCurrent(db, after, userId) && SoundRows(after)
  }

  /** The event tells what the call returned, with the true numbers of grants gained and lost. */
  ghost predicate Audits(event: AuditEvent, userId: Id, result: SingleUserResult, before: Rows, after: Rows) {
    && event.userId == userId && event.addedGroupIds == result.addedGroupIds && event.removedGroupIds == result.removedGroupIds
    && CountsTrue(before, after, userId, event.rolesInserted, event.rolesDeleted)
    && result.effectiveRolesChanged == (event.rolesInserted > 0 || event.rolesDeleted > 0)
  }

  /** reconcileSingleUser. Roles are recomputed only when the membership set changes. */
  method ReconcileSingleUser(db: Database, roles: EffectiveRoleRepository, userId: Id, targetMatchingGroupIds: seq<Id>)
    returns (result: SingleUserResult)
    requires roles.Valid()
    modifies db`memberships, db`audit, roles
    ensures roles.Valid() && OthersUntouched(old(roles.rows), roles.rows, userId)
    ensures if result.addedGroupIds == [] && result.removedGroupIds == [] then db.audit == old(db.audit)
      else |db.audit| == |old(db.audit)| + 1 && db.audit[..|old(db.audit)|] == old(db.audit)
           && Audits(db.audit[|old(db.audit)|], userId, result, old(roles.rows), roles.rows)
    ensures db.memberships == Replaced(old(db.memberships), userId, ToSet(targetMatchingGroupIds))
    ensures ToSet(result.addedGroupIds) == ToSet(targetMatchingGroupIds) - GroupsOfUser(old(db.View()), userId)
    ensures ToSet(result.removedGroupIds) == GroupsOfUser(old(db.View()), userId) - ToSet(targetMatchingGroupIds)
    ensures if result.addedGroupIds == [] && result.removedGroupIds == []
      then roles.rows == old(roles.rows) && db.memberships == old(db.memberships)
      else LeavesCurrent(db.View(), old(roles.rows), roles.rows, userId)
    ensures OneRowPerKey(old(roles.rows), userId) ==> (result.effectiveRolesChanged <==> roles.rows != old(roles.rows))
  {
    hide OneRowPerKey, SoundRows, SoundIds, GrantsOf, Synced, LeavesCurrent, CountsTrue;
    var currentGroupIds := set m | m in db.memberships && m.0 == userId :: m.1;
    var targetGroupIdSet := ToSet(targetMatchingGroupIds);
    assert currentGroupIds == GroupsOfUser(db.View(), userId);
    var addedGroupIds := Difference(targetGroupIdSet, currentGroupIds);
    var removedGroupIds := Difference(currentGroupIds, targetGroupIdSet);
    ghost var before := db.View();
    if |addedGroupIds| == 0 && |removedGroupIds| == 0 {
      assert currentGroupIds - targetGroupIdSet == {} == targetGroupIdSet - currentGroupIds;
      NothingToReplace(before, userId, targetGroupIdSet);
      return SingleUserResult([], [], false);
    }
    ApplyMembershipDiff(db, userId, addedGroupIds, removedGroupIds);
    ReplacedIsDiff(before, userId, targetGroupIdSet, addedGroupIds, removedGroupIds);
    ReplacedGroups(before, userId, targetGroupIdSet, userId);
    assert db.View() == before.(memberships := Replaced(before.memberships, userId, targetGroupIdSet));
    var targetRoles := CollectTargets(db, targetMatchingGroupIds);
    var inserted, deleted := roles.SyncEffectiveRolesForUser(userId, targetRoles);
    SyncLeavesCurrent(db.View(), old(roles.rows), roles.rows, userId, targetRoles, inserted, deleted);
    SyncReportsTruly(old(roles.rows), roles.rows, userId, targetRoles, inserted, deleted);
    db.audit := db.audit + [MembershipReconciled(userId, addedGroupIds, removedGroupIds, inserted, deleted)];
    return SingleUserResult(addedGroupIds, removedGroupIds, inserted > 0 || deleted > 0);
  }

  /** Synchronising a user with the grants derived from its memberships makes its rows current. */
  lemma SyncLeavesCurrent(db: Db, before: Rows, after: Rows, userId: Id, targets: seq<Entry>, inserted: nat, deleted: nat)
    requires Synced(before, after, userId, targets, inserted, deleted)
    requires forall t :: t in targets <==> t in Derive(db, userId)
    ensures OthersUntouched(before, after, userId) && LeavesCurrent(db, before, after, userId)
  {
    if OneRowPerKey(before, userId) && SoundRows(before) && SoundIds(db) {
      DerivedTargetsAreSound(db, GroupsOfUser(db, userId), targets);
      SyncReachesTarget(before, after, userId, targets, inserted, deleted);
      SyncReachesGrants(before, after, userId, targets, inserted, deleted);
    }
  }

  function WithMembers(memberships: set<(Id, Id)>, groupId: Id, userIds: set<Id>): set<(Id, Id)> {
    (set m | m in memberships && m.1 != groupId) + (set u | u in userIds :: (u, groupId))
  }

  /** No row of any user outside the set has moved. */
  ghost predicate UntouchedExcept(before: Rows, after: Rows, users: set<Id>) {
    && (forall id :: id in before && before[id].userId !in users ==> id in after && after[id] == before[id])
    && (forall id :: id in after && after[id].userId !in users ==> id in before && after[id] == before[id])
  }

  ghost predicate WellKept(rows: Rows) {
    SoundRows(rows) && forall userId: Id :: OneRowPerKey(rows, userId)
  }

  /** The users in done have been recomputed, and nobody else's rows have moved. */
  ghost predicate Recomputed(db: Db, before: Rows, after: Rows, done: set<Id>) {
    && UntouchedExcept(before, after, done)
    && (WellKept(before) && SoundIds(db) ==> WellKept(after) && forall userId :: userId in done ==> RolesCurrent(db, after, userId))
  }

  lemma NothingRecomputed(db: Db, rows: Rows)
    ensures Recomputed(db, rows, rows, {})
  {
    hide WellKept;
  }

  lemma UntouchedGrows(before: Rows, rows: Rows, next: Rows, done: set<Id>, userId: Id)
    requires UntouchedExcept(before, rows, done) && OthersUntouched(rows, next, userId)
    ensures UntouchedExcept(before, next, done + {userId})
  {
  }

  /** One more user recomputed. */
  lemma RecomputedGrows(db: Db, before: Rows, rows: Rows, next: Rows, done: set<Id>, userId: Id)
    requires Recomputed(db, before, rows, done)
    requires OthersUntouched(rows, next, userId) && LeavesCurrent(db, rows, next, userId)
    ensures Recomputed(db, before, next, done + {userId})
  {
    hide SoundRows, SoundIds, OneRowPerKey, GrantsOf, Derive, UntouchedExcept, OthersUntouched;
    UntouchedGrows(before, rows, next, done, userId);
    if WellKept(before) && SoundIds(db) {
      assert OneRowPerKey(rows, userId);
      forall other: Id ensures OneRowPerKey(next, other) && (other in done + {userId} ==> RolesCurrent(db, next, other)) {
        if other != userId {
          OthersKeepRows(rows, next, userId, other);
        }
      }
    }
  }

  datatype GroupResult = GroupResult(addedEmployeeIds: seq<Id>, removedEmployeeIds: seq<Id>, totalAffected: nat)

  function WithProjection(groups: map<Id, Group>, groupId: Id, version: nat): map<Id, Group> {
    if groupId in groups then groups[groupId := groups[groupId].(projectionVersion := version)] else groups
  }

  /** The rows of one user's memberships, in the order the database returns them. */
  method GroupIdsOf(db: Database, userId: Id) returns (ids: seq<Id>)
    ensures ToSet(ids) == GroupsOfUser(db.View(), userId)
  {
    var groupIds := set m | m in db.memberships && m.0 == userId :: m.1;
    ids := Difference(groupIds, {});
    assert groupIds - {} == groupIds;
  }

  /** reconcileGroupPopulation. The projection version is advanced only when the group exists. */
  method ReconcileGroupPopulation(db: Database, roles: EffectiveRoleRepository, groupId: Id, matchedEmployeeIds: seq<Id>, groupVersion: nat)
    returns (result: GroupResult)
    requires roles.Valid()
    modifies db`memberships, db`groups, roles
    ensures roles.Valid()
    ensures db.memberships == WithMembers(old(db.memberships), groupId, ToSet(matchedEmployeeIds))
    ensures db.groups == WithProjection(old(db.groups), groupId, groupVersion)
    ensures ToSet(result.addedEmployeeIds) == ToSet(matchedEmployeeIds) - MembersOf(old(db.View()), groupId)
    ensures ToSet(result.removedEmployeeIds) == MembersOf(old(db.View()), groupId) - ToSet(matchedEmployeeIds)
    ensures |result.addedEmployeeIds| == |ToSet(result.addedEmployeeIds)|
    ensures |result.removedEmployeeIds| == |ToSet(result.removedEmployeeIds)|
    ensures result.totalAffected == |result.addedEmployeeIds| + |result.removedEmployeeIds|
    ensures groupId in old(db.groups) ==>
      Recomputed(db.View(), old(roles.rows), roles.rows, ToSet(result.addedEmployeeIds) + ToSet(result.removedEmployeeIds))
    ensures groupId !in old(db.groups) ==> roles.rows == old(roles.rows)
  {
    hide Recomputed, WithMembers, MembersOf;
    ghost var before := db.View();
    var addedEmployeeIds, removedEmployeeIds := DiffMembers(db, groupId, ToSet(matchedEmployeeIds));
    WriteGroupDiff(db, groupId, ToSet(matchedEmployeeIds), addedEmployeeIds, removedEmployeeIds);
    if groupId in db.groups {
      var affectedEmployeeIds := addedEmployeeIds + removedEmployeeIds;
      RecomputeAll(db, roles, affectedEmployeeIds);
      assert ToSet(affectedEmployeeIds) == ToSet(addedEmployeeIds) + ToSet(removedEmployeeIds);
      ghost var view := db.View();
      db.groups := WithProjection(db.groups, groupId, groupVersion);
      ProjectionDoesNotMatterToRoles(view, groupId, groupVersion, old(roles.rows), roles.rows, ToSet(affectedEmployeeIds));
    }
    return GroupResult(addedEmployeeIds, removedEmployeeIds, |addedEmployeeIds| + |removedEmployeeIds|);
  }

  /** batchInsert and batchDelete of a group's differences. */
  method WriteGroupDiff(db: Database, groupId: Id, ghost matched: set<Id>, addedEmployeeIds: seq<Id>, removedEmployeeIds: seq<Id>)
    requires ToSet(addedEmployeeIds) == matched - MembersOf(db.View(), groupId)
    requires ToSet(removedEmployeeIds) == MembersOf(db.View(), groupId) - matched
    modifies db`memberships
    ensures db.memberships == WithMembers(old(db.memberships), groupId, matched)
  {
    hide WithMembers, MembersOf, ToSet;
    ghost var before := db.View();
    if |addedEmployeeIds| > 0 {
      db.memberships := db.memberships + set u | u in addedEmployeeIds :: (u, groupId);
    }
    if |removedEmployeeIds| > 0 {
      db.memberships := set m | m in db.memberships && !(m.1 == groupId && m.0 in removedEmployeeIds);
    }
    GroupDiffReplaces(before, groupId, matched, addedEmployeeIds, removedEmployeeIds, db.memberships);
  }

  /** The two difference loops over the group's members. */
  method DiffMembers(db: Database, groupId: Id, matched: set<Id>) returns (added: seq<Id>, removed: seq<Id>)
    ensures ToSet(added) == matched - MembersOf(db.View(), groupId) && |added| == |ToSet(added)|
    ensures ToSet(removed) == MembersOf(db.View(), groupId) - matched && |removed| == |ToSet(removed)|
  {
    var current := set m | m in db.memberships && m.1 == groupId :: m.0;
    assert current == MembersOf(db.View(), groupId);
    added := Difference(matched, current);
    removed := Difference(current, matched);
  }

  lemma GroupDiffReplaces(db: Db, groupId: Id, matched: set<Id>, added: seq<Id>, removed: seq<Id>, memberships: set<(Id, Id)>)
    requires ToSet(added) == matched - MembersOf(db, groupId) && ToSet(removed) == MembersOf(db, groupId) - matched
    requires forall m :: m in memberships <==>
      ((m in db.memberships || (m.1 == groupId && m.0 in added)) && !(m.1 == groupId && m.0 in removed))
    ensures memberships == WithMembers(db.memberships, groupId, matched)
  {
    forall m ensures m in memberships <==> m in WithMembers(db.memberships, groupId, matched) {
      if m.1 == groupId {
        assert m == (m.0, groupId);
        assert m in db.memberships <==> m.0 in MembersOf(db, groupId);
        assert m.0 in added <==> m.0 in ToSet(added);
        assert m.0 in removed <==> m.0 in ToSet(removed);
      }
    }
  }

  /** The loop over the affected employees. */
  method RecomputeAll(db: Database, roles: EffectiveRoleRepository, userIds: seq<Id>)
    requires roles.Valid()
    modifies roles
    ensures roles.Valid() && Recomputed(db.View(), old(roles.rows), roles.rows, ToSet(userIds))
  {
    hide LeavesCurrent, OthersUntouched, Synced, Recomputed, GroupsOfUser, DeriveFrom;
    NothingRecomputed(db.View(), roles.rows);
    assert ToSet(userIds[..0]) == {};
    for i := 0 to |userIds|
      invariant roles.Valid() && Recomputed(db.View(), old(roles.rows), roles.rows, ToSet(userIds[..i]))
    {
      ghost var rows := roles.rows;
      var groupIds := GroupIdsOf(db, userIds[i]);
      var targetRoles := CollectTargets(db, groupIds);
      var inserted, deleted := roles.SyncEffectiveRolesForUser(userIds[i], targetRoles);
      SyncLeavesCurrent(db.View(), rows, roles.rows, userIds[i], targetRoles, inserted, deleted);
      RecomputedGrows(db.View(), old(roles.rows), rows, roles.rows, ToSet(userIds[..i]), userIds[i]);
      assert ToSet(userIds[..i + 1]) == ToSet(userIds[..i]) + {userIds[i]};
    }
    assert userIds[..|userIds|] == userIds;
  }

  lemma SameGroupsSameGrants(db: Db, next: Db, groupIds: set<Id>)
    requires next.groupRoles == db.groupRoles && next.groups.Keys == db.groups.Keys
    requires forall g :: g in db.groups ==>
      && db.groups[g].status == next.groups[g].status
      && db.groups[g].scopeType == next.groups[g].scopeType && db.groups[g].scopeRefId == next.groups[g].scopeRefId
    ensures DeriveFrom(next, groupIds) == DeriveFrom(db, groupIds)
  {
    forall t ensures t in DeriveFrom(next, groupIds) <==> t in DeriveFrom(db, groupIds) {
      if t in DeriveFrom(next, groupIds) {
        var g, role :| g in groupIds && ActiveGroup(next, g) && role in RolesOf(next, g) && Grant(next, g, role) == t;
        assert ActiveGroup(db, g) && role in RolesOf(db, g) && Grant(db, g, role) == t;
      }
      if t in DeriveFrom(db, groupIds) {
        var g, role :| g in groupIds && ActiveGroup(db, g) && role in RolesOf(db, g) && Grant(db, g, role) == t;
        assert ActiveGroup(next, g) && role in RolesOf(next, g) && Grant(next, g, role) == t;
      }
    }
  }

  lemma ProjectionKeepsGrants(db: Db, groupId: Id, version: nat, userId: Id)
    ensures Derive(db.(groups := WithProjection(db.groups, groupId, version)), userId) == Derive(db, userId)
  {
    var next := db.(groups := WithProjection(db.groups, groupId, version));
    assert GroupsOfUser(db, userId) == GroupsOfUser(next, userId);
    SameGroupsSameGrants(db, next, GroupsOfUser(db, userId));
  }

  lemma ProjectionDoesNotMatterToRoles(db: Db, groupId: Id, version: nat, before: Rows, after: Rows, done: set<Id>)
    requires Recomputed(db, before, after, done)
    ensures Recomputed(db.(groups := WithProjection(db.groups, groupId, version)), before, after, done)
  {
    hide Sound, WellKept, GrantsOf, OneRowPerKey, UntouchedExcept;
    var next := db.(groups := WithProjection(db.groups, groupId, version));
    assert forall g, role :: g in db.groups && role in RolesOf(db, g) ==> Grant(next, g, role) == Grant(db, g, role);
    forall userId: Id ensures Derive(db, userId) == Derive(next, userId) {
      ProjectionKeepsGrants(db, groupId, version, userId);
    }
  }
}
