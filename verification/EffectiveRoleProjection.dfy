/** EffectiveRoleProjectionService and the cache it feeds. */
module EffectiveRoleProjection {
  import opened JavaScript
  import opened EffectiveRoles
  import opened EffectiveRoleTable
  import opened AuthorizationStore
  import opened MembershipReconciler

  /** A cached profile: the roles of a user with the version they were written at. */
  datatype Profile = Profile(version: nat, roles: seq<PersistEntry>)

  /** The grants a list of cached roles stands for. */
  function RoleSet(roles: seq<PersistEntry>): set<Entry> {
    set i | 0 <= i < |roles| :: Normalize(Flatten(roles[i]))
  }

  /** UserAuthorizationCacheService over one tenant's keys. Redis may fail at any call; the flags say
      which calls succeed. */
  class UserAuthorizationCache {
    var versions: map<Id, nat>
    var entries: map<Id, Profile>

    constructor ()
      ensures versions == map[] && entries == map[]
    {
      versions, entries := map[], map[];
    }

    /** syncUserCache; without explicit roles they are read back from the rows. */
    method SyncUserCache(roles: EffectiveRoleRepository, userId: Id, explicitRoles: Option<seq<PersistEntry>>,
                         counterUp: bool, storeUp: bool)
      returns (profile: Profile)
      modifies this
      ensures explicitRoles.Some? ==> profile.roles == explicitRoles.value
      ensures explicitRoles.None? ==> RoleSet(profile.roles) == GrantsOf(roles.rows, userId)
      ensures profile.version == if counterUp then (if userId in old(versions) then old(versions)[userId] else 0) + 1 else 1
      ensures versions == if counterUp then old(versions)[userId := profile.version] else old(versions)
      ensures entries == if storeUp then old(entries)[userId := profile] else old(entries)
    {
      var profileRoles: seq<PersistEntry>;
      if explicitRoles.Some? {
        profileRoles := explicitRoles.value;
      } else {
        profileRoles := ReadRows(roles, userId);
      }
      var version := 1;
      if counterUp {
        version := (if userId in versions then versions[userId] else 0) + 1;
        versions := versions[userId := version];
      }
      profile := Profile(version, profileRoles);
      if storeUp {
        entries := entries[userId := profile];
      }
    }

    /** getUserAuthorizationProfile: the cached profile, or one recovered from the rows. */
    method GetUserAuthorizationProfile(roles: EffectiveRoleRepository, userId: Id, readUp: bool, counterUp: bool, storeUp: bool)
      returns (profile: Profile)
      modifies this
      ensures if readUp && userId in old(entries)
        then profile == old(entries)[userId] && entries == old(entries) && versions == old(versions)
        else RoleSet(profile.roles) == GrantsOf(roles.rows, userId)
             && entries == if storeUp then old(entries)[userId := profile] else old(entries)
    {
      if readUp && userId in entries {
        return entries[userId];
      }
      profile := SyncUserCache(roles, userId, None, counterUp, storeUp);
    }
  }

  /** The projection of the user's rows to cached roles. */
  method ReadRows(roles: EffectiveRoleRepository, userId: Id) returns (out: seq<PersistEntry>)
    ensures RoleSet(out) == GrantsOf(roles.rows, userId)
  {
    out := [];
    var dbRows := set id | id in roles.rows && roles.rows[id].userId == userId;
    var todo := dbRows;
    while todo != {}
      invariant todo <= dbRows
      invariant RoleSet(out) == set id | id in dbRows - todo :: Normalize(roles.rows[id].entry)
    {
      var id :| id in todo;
      ghost var before, done := out, dbRows - todo;
      todo := todo - {id};
      var e := roles.rows[id].entry;
      out := out + [PersistEntry(e.roleId, e.sourceGroupId, Scope(e.scopeType, OrNull(e.scopeEntityId)))];
      RoleSetAppend(before, out[|before|]);
      assert dbRows - todo == done + {id};
    }
  }

  lemma RoleSetAppend(roles: seq<PersistEntry>, r: PersistEntry)
    ensures RoleSet(roles + [r]) == RoleSet(roles) + {Normalize(Flatten(r))}
  {
    var longer := roles + [r];
    forall e | e in RoleSet(roles) ensures e in RoleSet(longer) {
      var i :| 0 <= i < |roles| && Normalize(Flatten(roles[i])) == e;
      assert longer[i] == roles[i];
    }
    assert longer[|roles|] == r;
  }

  datatype RecomputeResult = RecomputeResult(inserted: nat, deleted: nat, activeRolesCount: nat)

  /** The nested loops: one entry for each role of each active group the user is in. The same entry
      is pushed onto both lists, so one list stands for both. */
  method CollectEntries(db: Database, userId: Id) returns (entries: seq<PersistEntry>)
    ensures forall t :: t in FlattenAll(entries) <==> t in Derive(db.View(), userId)
  {
    var groupIds := GroupIdsOf(db, userId);
    entries := [];
    for i := 0 to |groupIds|
      invariant forall t :: t in FlattenAll(entries) <==> t in DeriveFrom(db.View(), ToSet(groupIds[..i]))
    {
      var gid := groupIds[i];
      assert ToSet(groupIds[..i + 1]) == ToSet(groupIds[..i]) + {gid};
      if gid !in db.groups || db.groups[gid].status != Active {
        assert DeriveFrom(db.View(), ToSet(groupIds[..i + 1])) == DeriveFrom(db.View(), ToSet(groupIds[..i]));
        continue;
      }
      var group := db.groups[gid];
      var groupRoles := if gid in db.groupRoles then db.groupRoles[gid] else [];
      ghost var before := entries;
      for j := 0 to |groupRoles|
        invariant forall t :: t in FlattenAll(entries) <==>
          (t in FlattenAll(before) || exists k :: 0 <= k < j && t == Grant(db.View(), gid, groupRoles[k]))
      {
        var entry := PersistEntry(groupRoles[j], gid, Scope(group.scopeType, OrNull(group.scopeRefId)));
        assert FlattenAll(entries + [entry]) == FlattenAll(entries) + [Flatten(entry)];
        entries := entries + [entry];
      }
      forall t ensures t in FlattenAll(entries) <==> t in DeriveFrom(db.View(), ToSet(groupIds[..i + 1])) {
        DeriveFromAdd(db.View(), ToSet(groupIds[..i]), gid, t);
      }
    }
    assert groupIds[..|groupIds|] == groupIds;
  }

  /** recomputeUserEffectiveRoles: the user's rows become the derived grants, and the cache is
      rewritten with the same roles when the store is up. */
  method RecomputeUserEffectiveRoles(db: Database, roles: EffectiveRoleRepository, cache: UserAuthorizationCache,
                                     userId: Id, counterUp: bool, storeUp: bool)
    returns (result: RecomputeResult)
    requires roles.Valid()
    modifies roles, cache
    ensures roles.Valid() && OthersUntouched(old(roles.rows), roles.rows, userId)
    ensures LeavesCurrent(db.View(), old(roles.rows), roles.rows, userId)
    ensures CountsTrue(old(roles.rows), roles.rows, userId, result.inserted, result.deleted)
    ensures storeUp ==> userId in cache.entries && result.activeRolesCount == |cache.entries[userId].roles|
    ensures !storeUp ==> cache.entries == old(cache.entries)
    ensures cache.entries - {userId} == old(cache.entries) - {userId}
    ensures storeUp ==> userId in cache.entries
    ensures storeUp && SoundIds(db.View()) ==> RoleSet(cache.entries[userId].roles) == Derive(db.View(), userId)
  {
    hide LeavesCurrent, OthersUntouched, Synced, OneRowPerKey, CountsTrue;
    var targetEntries := CollectEntries(db, userId);
    ghost var before := roles.rows;
    var inserted, deleted := 0, 0;
    if |targetEntries| == 0 {
      deleted := roles.DeleteByUserId(userId);
      EmptyTargetLeavesCurrent(db.View(), before, userId, FlattenAll(targetEntries));
    } else {
      inserted, deleted := roles.SyncUserEffectiveRoles(userId, targetEntries);
      SyncLeavesCurrent(db.View(), before, roles.rows, userId, FlattenAll(targetEntries), inserted, deleted);
      SyncReportsTruly(before, roles.rows, userId, FlattenAll(targetEntries), inserted, deleted);
    }
    var profile := cache.SyncUserCache(roles, userId, Some(targetEntries), counterUp, storeUp);
    if SoundIds(db.View()) {
      DerivedTargetsAreSound(db.View(), GroupsOfUser(db.View(), userId), FlattenAll(targetEntries));
      assert RoleSet(targetEntries) == GrantSet(FlattenAll(targetEntries));
    }
    return RecomputeResult(inserted, deleted, |targetEntries|);
  }

  lemma EmptyTargetLeavesCurrent(db: Db, before: Rows, userId: Id, targets: seq<Entry>)
    requires targets == [] && forall t :: t in targets <==> t in Derive(db, userId)
    ensures OthersUntouched(before, WithoutUser(before, userId), userId)
    ensures LeavesCurrent(db, before, WithoutUser(before, userId), userId)
    ensures CountsTrue(before, WithoutUser(before, userId), userId, 0, |IdsOf(before, userId)|)
  {
    hide Synced;
    NothingLeft(before, userId);
    if OneRowPerKey(before, userId) {
      DeletingAllIsSyncWithNothing(before, userId);
      SyncLeavesCurrent(db, before, WithoutUser(before, userId), userId, targets, 0, |IdsOf(before, userId)|);
      SyncReportsTruly(before, WithoutUser(before, userId), userId, targets, 0, |IdsOf(before, userId)|);
    }
  }
}
