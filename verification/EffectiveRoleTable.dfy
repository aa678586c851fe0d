/** The user_effective_roles table and the two repositories that synchronise it. Row ids
    stand for generated UUIDs; rows come back from a query in an arbitrary order. */
module EffectiveRoleTable {
  import opened JavaScript
  import opened EffectiveRoles

  /** The shape the authorization module passes in: the scope is nested. */
  datatype Scope = Scope(kind: string, refId: Option<string>)

  datatype PersistEntry = PersistEntry(roleId: Id, sourceGroupId: Id, scope: Scope)

  function Flatten(t: PersistEntry): Entry {
    Entry(t.roleId, t.sourceGroupId, t.scope.kind, t.scope.refId)
  }

  function FlattenAll(ts: seq<PersistEntry>): (es: seq<Entry>)
    ensures |es| == |ts| && forall i :: 0 <= i < |ts| ==> es[i] == Flatten(ts[i])
  {
    seq(|ts|, i requires 0 <= i < |ts| => Flatten(ts[i]))
  }

  /** The rows left when one row of each unwanted key is deleted and new rows are inserted. */
  lemma DeleteThenInsertSynchronises(before: Rows, after: Rows, userId: Id, targets: seq<Entry>,
                                     current: map<string, nat>, deleted: set<nat>)
    requires OthersUntouched(before, after, userId) && WantedKept(before, after, userId, EntryKeys(targets))
    requires NewRowsFrom(before, after, userId, targets)
    requires CurrentMap(before, userId, current)
    requires deleted == set k | k in current && k !in EntryKeys(targets) :: current[k]
    requires forall id :: id in before ==> (id in after <==> id !in deleted)
    requires forall k :: k in EntryKeys(targets) && k !in KeysOf(before, userId) ==>
      exists id :: id in after && id !in before && Key(after[id].entry) == k
    ensures KeysOf(after, userId) == EntryKeys(targets) + StaleDuplicates(before, userId, EntryKeys(targets))
  {
    hide Key;
    var target := EntryKeys(targets);
    var stale := StaleDuplicates(before, userId, target);
    forall k | k in KeysOf(after, userId) ensures k in target + stale {
      var id :| id in after && after[id].userId == userId && Key(after[id].entry) == k;
      if id in before && k !in target {
        assert current[k] in deleted && id in IdsOf(before, userId) && current[k] in IdsOf(before, userId);
        assert Key(before[id].entry) in stale;
      } else if id !in before {
        NewKeyIsWanted(after[id].entry, targets);
      }
    }
    forall k | k in target ensures k in KeysOf(after, userId) {
      if k in KeysOf(before, userId) {
        assert Key(before[current[k]].entry) == k && current[k] in IdsOf(before, userId);
      } else {
        var id :| id in after && id !in before && Key(after[id].entry) == k;
      }
    }
    forall k | k in stale ensures k in KeysOf(after, userId) {
      var i, j :| i in IdsOf(before, userId) && j in IdsOf(before, userId) && i != j
        && Key(before[i].entry) == k == Key(before[j].entry) && k !in target;
      var survivor := if current[k] == i then j else i;
      forall l | l in current && l !in target ensures current[l] != survivor {
        assert Key(before[current[l]].entry) == l;
      }
      assert after[survivor] == before[survivor];
    }
  }

  lemma NewKeyIsWanted(e: Entry, targets: seq<Entry>)
    requires CarriesTarget(e, targets)
    ensures Key(e) in EntryKeys(targets)
  {
    var i :| 0 <= i < |targets| && e == Normalize(targets[i]);
    assert Key(targets[i]) == Key(e);
  }

  /** For every key of the user, one of the rows that carry it. */
  ghost predicate CurrentMap(rows: Rows, userId: Id, current: map<string, nat>) {
    && current.Keys == KeysOf(rows, userId)
    && forall k :: k in current ==> current[k] in IdsOf(rows, userId) && Key(rows[current[k]].entry) == k
  }

  class EffectiveRoleRepository {
    var rows: Rows
    var nextId: nat

    constructor ()
      ensures Valid() && rows == map[]
    {
      rows, nextId := map[], 0;
    }

    ghost predicate Valid() reads this {
      forall id :: id in rows ==> id < nextId
    }

    /** new Map(rows.map(...)): rows with the same key overwrite one another. */
    method BuildCurrentMap(userId: Id) returns (current: map<string, nat>)
      ensures CurrentMap(rows, userId, current)
    {
      hide Key;
      current := map[];
      var currentRows := set id | id in rows && rows[id].userId == userId;
      var todo := currentRows;
      while todo != {}
        invariant todo <= currentRows
        invariant current.Keys == set id | id in currentRows - todo :: Key(rows[id].entry)
        invariant forall k :: k in current ==> current[k] in currentRows && Key(rows[current[k]].entry) == k
      {
        var id :| id in todo;
        ghost var done := currentRows - todo;
        todo := todo - {id};
        assert currentRows - todo == done + {id};
        current := current[Key(rows[id].entry) := id];
      }
    }

    /** repository.delete({ id: In(ids) }). A user with one row per key loses exactly the keys of the named
        rows and keeps one row per key; a user none of whose rows is named loses nothing. */
    method DeleteByIds(ids: seq<nat>)
      requires Valid()
      modifies this
      ensures Valid() && nextId == old(nextId)
      ensures forall id :: id in rows <==> id in old(rows) && id !in ids
      ensures forall id :: id in rows ==> rows[id] == old(rows)[id]
      ensures forall u: Id :: LosesExactly(old(rows), rows, u, ids)
    {
      if |ids| == 0 {
        forall u: Id ensures LosesExactly(rows, rows, u, ids) {
          DeletionIsExact(rows, rows, u, ids);
        }
        return;
      }
      rows := Without(rows, ids);
      forall u: Id ensures LosesExactly(old(rows), rows, u, ids) {
        DeletionIsExact(old(rows), rows, u, ids);
      }
    }

    /** INSERT ... ON CONFLICT DO NOTHING. The unique constraint covers the whole grant, and a
        NULL scope reference never conflicts. New keys never conflict, so every row goes in. */
    method InsertOrIgnore(userId: Id, entries: seq<Entry>)
      requires Valid()
      requires NewDistinctKeys(rows, userId, entries)
      modifies this
      ensures Valid() && rows == old(rows) + NewRows(old(nextId), userId, entries, |entries|)
    {
      hide Key, KeysOf, NewDistinctKeys, Normalize, NewRows;
      ghost var first := nextId;
      for i := 0 to |entries|
        invariant nextId == first + i
        invariant rows == old(rows) + NewRows(first, userId, entries, i)
      {
        var row := Row(userId, Normalize(entries[i]));
        NoConflict(old(rows), first, userId, entries, i);
        NewRowsStep(old(rows), first, userId, entries, i);
        if forall id | id in rows :: !Conflicts(rows[id], row) {
          rows := rows[nextId := row];
          nextId := nextId + 1;
        }
      }
    }

    /** deleteByUserId: the number of rows affected. */
    method DeleteByUserId(userId: Id) returns (affected: nat)
      requires Valid()
      modifies this
      ensures Valid()
      ensures rows == WithoutUser(old(rows), userId)
      ensures affected == |IdsOf(old(rows), userId)|
    {
      var doomed := set id | id in rows && rows[id].userId == userId;
      assert doomed == IdsOf(rows, userId);
      affected := |doomed|;
      rows := WithoutUser(rows, userId);
    }

    /** Both repositories delete first, then insert. */
    method DeleteAndInsert(userId: Id, toDeleteIds: seq<nat>, toInsert: seq<Entry>)
      requires Valid() && NewDistinctKeys(Without(rows, toDeleteIds), userId, toInsert)
      modifies this
      ensures Valid() && rows == Without(old(rows), toDeleteIds) + NewRows(old(nextId), userId, toInsert, |toInsert|)
    {
      hide NewDistinctKeys, LosesExactly;
      if |toDeleteIds| > 0 {
        DeleteByIds(toDeleteIds);
      }
      assert rows == Without(old(rows), toDeleteIds);
      if |toInsert| > 0 {
        InsertOrIgnore(userId, toInsert);
      }
    }

    /** The two halves of a synchronisation that both repositories share. */
    method Apply(userId: Id, toDeleteIds: seq<nat>, toInsert: seq<Entry>, ghost keys: seq<string>,
                 ghost targets: seq<Entry>, ghost current: map<string, nat>)
      requires Valid() && CurrentMap(rows, userId, current)
      requires UnwantedIds(toDeleteIds, current, EntryKeys(targets))
      requires MissingEntries(toInsert, keys, targets, KeysOf(rows, userId))
      modifies this
      ensures Valid() && Synced(old(rows), rows, userId, targets, |toInsert|, |toDeleteIds|)
    {
      hide Key, Synced, UnwantedIds, CurrentMap, MissingEntries, NewDistinctKeys, NewRows, Without;
      BatchSynchronises(rows, nextId, userId, targets, current, toDeleteIds, toInsert, keys);
      DeleteAndInsert(userId, toDeleteIds, toInsert);
    }

    /** syncUserEffectiveRoles of the authorization module. */
    method SyncUserEffectiveRoles(userId: Id, targetEntries: seq<PersistEntry>) returns (inserted: nat, deleted: nat)
      requires Valid()
      modifies this
      ensures Valid() && Synced(old(rows), rows, userId, FlattenAll(targetEntries), inserted, deleted)
    {
      hide Key, Synced;
      var currentMap := BuildCurrentMap(userId);
      var targetMap := BuildTargetMap(targetEntries, t => Key(Flatten(t)));
      assert targetMap.Keys == EntryKeys(FlattenAll(targetEntries)) by {
        SameKeys(targetEntries, FlattenAll(targetEntries), t => Key(Flatten(t)));
      }
      var toDeleteIds := Unwanted(currentMap, targetMap.Keys);
      var toInsert, keys := Missing(targetMap, currentMap);
      MissingFlattened(targetEntries, targetMap, currentMap.Keys, toInsert, keys);
      Apply(userId, toDeleteIds, FlattenAll(toInsert), keys, FlattenAll(targetEntries), currentMap);
      return |toInsert|, |toDeleteIds|;
    }

    /** syncEffectiveRolesForUser of the user-groups module. */
    method SyncEffectiveRolesForUser(userId: Id, targetRoles: seq<Entry>) returns (inserted: nat, deleted: nat)
      requires Valid()
      modifies this
      ensures Valid() && Synced(old(rows), rows, userId, targetRoles, inserted, deleted)
    {
      hide Key, Synced;
      var currentMap := BuildCurrentMap(userId);
      var targetMap := BuildTargetMap(targetRoles, t => Key(t));
      assert targetMap.Keys == EntryKeys(targetRoles);
      var toDeleteIds := Unwanted(currentMap, targetMap.Keys);
      var toInsert, keys := Missing(targetMap, currentMap);
      MissingEntriesOf(targetRoles, targetMap, currentMap.Keys, toInsert, keys);
      Apply(userId, toDeleteIds, toInsert, keys, targetRoles, currentMap);
      return |toInsert|, |toDeleteIds|;
    }
  }

  /** new Map(targets.map(...)): for a repeated key the last entry is kept. */
  method BuildTargetMap<T>(targets: seq<T>, key: T -> string) returns (m: map<string, T>)
    ensures m.Keys == set i | 0 <= i < |targets| :: key(targets[i])
    ensures forall k :: k in m ==> key(m[k]) == k && m[k] in targets
  {
    m := map[];
    for i := 0 to |targets|
      invariant m.Keys == set j | 0 <= j < i :: key(targets[j])
      invariant forall k :: k in m ==> key(m[k]) == k && m[k] in targets
    {
      m := m[key(targets[i]) := targets[i]];
    }
  }

  /** The loop over currentMap: one id for each key that is no longer wanted. */
  method Unwanted(current: map<string, nat>, target: set<string>) returns (ids: seq<nat>)
    ensures UnwantedIds(ids, current, target)
  {
    ids := [];
    var todo := current.Keys;
    while todo != {}
      invariant todo <= current.Keys
      invariant forall id :: id in ids <==> exists k :: k in current && k !in todo && k !in target && current[k] == id
      invariant |ids| == |current.Keys - todo - target|
    {
      var key :| key in todo;
      CheckedOneMore(current.Keys, todo, target, key);
      todo := todo - {key};
      if key !in target {
        ids := ids + [current[key]];
      }
    }
    assert current.Keys - {} - target == current.Keys - target;
  }

  /** The loop over targetMap: the entry of each key that is not there yet. */
  method Missing<T>(targets: map<string, T>, current: map<string, nat>) returns (entries: seq<T>, ghost keys: seq<string>)
    ensures MissingOf(targets, current.Keys, entries, keys)
  {
    entries, keys := [], [];
    var todo := targets.Keys;
    while todo != {}
      invariant todo <= targets.Keys && |entries| == |keys|
      invariant forall k :: k in keys <==> k in targets && k !in todo && k !in current
      invariant forall i :: 0 <= i < |keys| ==> keys[i] in targets && entries[i] == targets[keys[i]]
      invariant forall i, j :: 0 <= i < j < |keys| ==> keys[i] != keys[j]
    {
      var key :| key in todo;
      todo := todo - {key};
      if key !in current {
        entries, keys := entries + [targets[key]], keys + [key];
      }
    }
    DistinctCount(keys, targets.Keys - current.Keys);
  }

  ghost predicate MissingOf<T>(targets: map<string, T>, have: set<string>, entries: seq<T>, keys: seq<string>) {
    && |entries| == |keys| == |targets.Keys - have|
    && (forall k :: k in keys <==> k in targets && k !in have)
    && (forall i :: 0 <= i < |keys| ==> keys[i] in targets && entries[i] == targets[keys[i]])
    && (forall i, j :: 0 <= i < j < |keys| ==> keys[i] != keys[j])
  }

  lemma {:induction false} DistinctCount(keys: seq<string>, s: set<string>)
    requires forall i, j :: 0 <= i < j < |keys| ==> keys[i] != keys[j]
    requires forall k :: k in keys <==> k in s
    ensures |keys| == |s|
  {
    if keys == [] {
      assert s == {};
    } else {
      var last := keys[|keys| - 1];
      assert keys == keys[..|keys| - 1] + [last];
      DistinctCount(keys[..|keys| - 1], s - {last});
    }
  }

  /** One id for each key of the user that is no longer wanted. */
  ghost predicate UnwantedIds(ids: seq<nat>, current: map<string, nat>, target: set<string>) {
    && (forall id :: id in ids <==> exists k :: k in current && k !in target && current[k] == id)
    && |ids| == |current.Keys - target|
  }

  /** One target entry for each wanted key the user does not have. */
  ghost predicate MissingEntries(entries: seq<Entry>, keys: seq<string>, targets: seq<Entry>, have: set<string>) {
    && |entries| == |keys| == |EntryKeys(targets) - have|
    && (forall k :: k in keys <==> k in EntryKeys(targets) && k !in have)
    && (forall i :: 0 <= i < |keys| ==> Key(entries[i]) == keys[i] && entries[i] in targets)
    && (forall i, j :: 0 <= i < j < |keys| ==> keys[i] != keys[j])
  }

  lemma SameKeys<T>(ts: seq<T>, es: seq<Entry>, key: T -> string)
    requires |ts| == |es| && forall i :: 0 <= i < |ts| ==> key(ts[i]) == Key(es[i])
    ensures (set i | 0 <= i < |ts| :: key(ts[i])) == EntryKeys(es)
  {
    hide Key;
    forall k | k in EntryKeys(es) ensures k in set i | 0 <= i < |ts| :: key(ts[i]) {
      var i :| 0 <= i < |es| && Key(es[i]) == k;
      assert key(ts[i]) == k;
    }
  }

  lemma MissingEntriesOf(targets: seq<Entry>, targetMap: map<string, Entry>, have: set<string>,
                         entries: seq<Entry>, keys: seq<string>)
    requires targetMap.Keys == EntryKeys(targets)
    requires forall k :: k in targetMap ==> Key(targetMap[k]) == k && targetMap[k] in targets
    requires MissingOf(targetMap, have, entries, keys)
    ensures MissingEntries(entries, keys, targets, have)
  {
    hide Key;
  }

  lemma MissingFlattened(ts: seq<PersistEntry>, targetMap: map<string, PersistEntry>, have: set<string>,
                         us: seq<PersistEntry>, keys: seq<string>)
    requires targetMap.Keys == EntryKeys(FlattenAll(ts))
    requires forall k :: k in targetMap ==> Key(Flatten(targetMap[k])) == k && targetMap[k] in ts
    requires MissingOf(targetMap, have, us, keys)
    ensures MissingEntries(FlattenAll(us), keys, FlattenAll(ts), have)
  {
    hide Key;
    FlattenedEntries(ts, us);
  }

  lemma FlattenedEntries(ts: seq<PersistEntry>, us: seq<PersistEntry>)
    ensures forall i :: 0 <= i < |us| && us[i] in ts ==> FlattenAll(us)[i] in FlattenAll(ts)
  {
    forall i | 0 <= i < |us| && us[i] in ts ensures FlattenAll(us)[i] in FlattenAll(ts) {
      var j :| 0 <= j < |ts| && ts[j] == us[i];
      assert FlattenAll(ts)[j] == FlattenAll(us)[i];
    }
  }

  lemma MissingEntriesAreNew(rows: Rows, userId: Id, ids: seq<nat>, entries: seq<Entry>, keys: seq<string>, targets: seq<Entry>)
    requires MissingEntries(entries, keys, targets, KeysOf(rows, userId))
    ensures NewDistinctKeys(Without(rows, ids), userId, entries)
  {
    hide Key;
    forall i | 0 <= i < |entries| ensures Key(entries[i]) !in KeysOf(Without(rows, ids), userId) {
      assert keys[i] in keys;
    }
  }

  lemma EntryKeyAt(keys: seq<string>, entries: seq<Entry>, targets: seq<Entry>, i: nat)
    requires i < |keys| == |entries| && Key(entries[i]) == keys[i] && entries[i] in targets
    ensures Key(Normalize(entries[i])) == keys[i] && CarriesTarget(Normalize(entries[i]), targets)
  {
    NormalizeKeepsKey(entries[i]);
    var j :| 0 <= j < |targets| && targets[j] == entries[i];
  }

  /** The inserted rows, apart from the table they go into. */
  ghost predicate Additions(added: Rows, userId: Id, targets: seq<Entry>, have: set<string>) {
    && (forall id :: id in added ==> added[id].userId == userId && Key(added[id].entry) !in have && CarriesTarget(added[id].entry, targets))
    && (forall i, j | i in added && j in added :: Key(added[i].entry) == Key(added[j].entry) ==> i == j)
    && (forall k :: k in EntryKeys(targets) && k !in have ==> exists id :: id in added && Key(added[id].entry) == k)
  }

  lemma NewRowsAreAdditions(first: nat, userId: Id, entries: seq<Entry>, keys: seq<string>, targets: seq<Entry>, have: set<string>)
    requires MissingEntries(entries, keys, targets, have)
    ensures Additions(NewRows(first, userId, entries, |entries|), userId, targets, have)
  {
    hide Key, Normalize, CarriesTarget;
    var added := NewRows(first, userId, entries, |entries|);
    forall id | id in added ensures added[id].userId == userId && Key(added[id].entry) == keys[id - first]
      && keys[id - first] in keys && CarriesTarget(added[id].entry, targets) {
      EntryKeyAt(keys, entries, targets, id - first);
    }
    forall k | k in EntryKeys(targets) && k !in have ensures exists id :: id in added && Key(added[id].entry) == k {
      assert k in keys;
      var i :| 0 <= i < |keys| && keys[i] == k;
      assert first + i in added;
    }
  }

  lemma DeletingUnwantedKeepsWanted(rows: Rows, userId: Id, current: map<string, nat>, ids: seq<nat>, target: set<string>)
    requires CurrentMap(rows, userId, current) && UnwantedIds(ids, current, target)
    ensures forall id :: id in ids ==> id in IdsOf(rows, userId) && Key(rows[id].entry) !in target
  {
    hide Key;
  }

  lemma AdditionsAreNewRows(rows: Rows, added: Rows, userId: Id, targets: seq<Entry>, ids: seq<nat>)
    requires Additions(added, userId, targets, KeysOf(rows, userId)) && added.Keys !! rows.Keys
    ensures NewRowsFrom(rows, Without(rows, ids) + added, userId, targets)
  {
    hide Key, CarriesTarget, EntryKeys;
    var after := Without(rows, ids) + added;
    forall i | i in after && i !in rows ensures i in added && after[i] == added[i] {
    }
  }

  lemma DeletionsKeepOthers(rows: Rows, added: Rows, userId: Id, ids: seq<nat>, target: set<string>)
    requires forall id :: id in ids ==> id in IdsOf(rows, userId) && Key(rows[id].entry) !in target
    requires forall id :: id in added ==> added[id].userId == userId && id !in rows
    ensures OthersUntouched(rows, Without(rows, ids) + added, userId)
    ensures WantedKept(rows, Without(rows, ids) + added, userId, target)
  {
    hide Key;
  }

  lemma AdditionsSynchronise(rows: Rows, added: Rows, userId: Id, targets: seq<Entry>, current: map<string, nat>, ids: seq<nat>)
    requires CurrentMap(rows, userId, current) && UnwantedIds(ids, current, EntryKeys(targets))
    requires Additions(added, userId, targets, KeysOf(rows, userId)) && added.Keys !! rows.Keys
    ensures Synced(rows, Without(rows, ids) + added, userId, targets, |EntryKeys(targets) - KeysOf(rows, userId)|, |ids|)
  {
    hide Key, CarriesTarget, NewRowsFrom, OthersUntouched, WantedKept, EntryKeys, StaleDuplicates, KeysOf;
    var after := Without(rows, ids) + added;
    DeletingUnwantedKeepsWanted(rows, userId, current, ids, EntryKeys(targets));
    DeletionsKeepOthers(rows, added, userId, ids, EntryKeys(targets));
    AdditionsAreNewRows(rows, added, userId, targets, ids);
    var deleted := set k | k in current && k !in EntryKeys(targets) :: current[k];
    assert forall id :: id in ids <==> id in deleted;
    forall k | k in EntryKeys(targets) && k !in KeysOf(rows, userId)
      ensures exists id :: id in after && id !in rows && Key(after[id].entry) == k {
      var id :| id in added && Key(added[id].entry) == k;
      assert after[id] == added[id];
    }
    DeleteThenInsertSynchronises(rows, after, userId, targets, current, deleted);
  }

  lemma BatchSynchronises(rows: Rows, first: nat, userId: Id, targets: seq<Entry>, current: map<string, nat>,
                          ids: seq<nat>, entries: seq<Entry>, keys: seq<string>)
    requires forall id :: id in rows ==> id < first
    requires CurrentMap(rows, userId, current) && UnwantedIds(ids, current, EntryKeys(targets))
    requires MissingEntries(entries, keys, targets, KeysOf(rows, userId))
    ensures NewDistinctKeys(Without(rows, ids), userId, entries)
    ensures Synced(rows, Without(rows, ids) + NewRows(first, userId, entries, |entries|), userId, targets, |entries|, |ids|)
  {
    hide Key, Synced, UnwantedIds, CurrentMap, NewDistinctKeys, Additions, Without;
    MissingEntriesAreNew(rows, userId, ids, entries, keys, targets);
    NewRowsAreAdditions(first, userId, entries, keys, targets, KeysOf(rows, userId));
    AdditionsSynchronise(rows, NewRows(first, userId, entries, |entries|), userId, targets, current, ids);
  }

  /** The keys of the user's rows among these. */
  ghost function KeysAt(rows: Rows, userId: Id, ids: seq<nat>): set<string> {
    set id | id in IdsOf(rows, userId) && id in ids :: Key(rows[id].entry)
  }

  /** What deleting these ids means for one user. */
  ghost predicate LosesExactly(before: Rows, after: Rows, userId: Id, ids: seq<nat>) {
    && (OneRowPerKey(before, userId) ==> OneRowPerKey(after, userId)
                                         && KeysOf(after, userId) == KeysOf(before, userId) - KeysAt(before, userId, ids))
    && (KeysAt(before, userId, ids) == {} ==> KeysOf(after, userId) == KeysOf(before, userId))
  }

  lemma DeletionIsExact(before: Rows, after: Rows, userId: Id, ids: seq<nat>)
    requires after == Without(before, ids)
    ensures LosesExactly(before, after, userId, ids)
  {
    hide Key;
    forall id | id in IdsOf(before, userId) ensures id in ids <==> id !in after {
    }
    assert forall id :: id in IdsOf(before, userId) && id in ids ==> Key(before[id].entry) in KeysAt(before, userId, ids);
    assert forall id :: id in IdsOf(before, userId) && id !in ids ==> Key(after[id].entry) in KeysOf(after, userId);
    assert forall id :: id in IdsOf(after, userId) ==> id in IdsOf(before, userId) && after[id] == before[id];
  }

  function Without(rows: Rows, ids: seq<nat>): Rows {
    map id | id in rows && id !in ids :: rows[id]
  }

  ghost predicate NewDistinctKeys(rows: Rows, userId: Id, entries: seq<Entry>) {
    && (forall i :: 0 <= i < |entries| ==> Key(entries[i]) !in KeysOf(rows, userId))
    && (forall i, j :: 0 <= i < j < |entries| ==> Key(entries[i]) != Key(entries[j]))
  }

  /** The first n entries as rows with consecutive new ids. */
  function NewRows(first: nat, userId: Id, entries: seq<Entry>, n: nat): (r: Rows)
    requires n <= |entries|
    ensures forall id :: id in r <==> first <= id < first + n
    ensures forall id :: id in r ==> r[id] == Row(userId, Normalize(entries[id - first]))
  {
    if n == 0 then map[] else NewRows(first, userId, entries, n - 1)[first + n - 1 := Row(userId, Normalize(entries[n - 1]))]
  }

  predicate Conflicts(a: Row, b: Row) {
    a == b && a.entry.scopeEntityId.Some?
  }

  lemma NormalizeKeepsKey(e: Entry)
    ensures Key(Normalize(e)) == Key(e)
  {
  }

  lemma NewRowsStep(rows: Rows, first: nat, userId: Id, entries: seq<Entry>, i: nat)
    requires i < |entries|
    ensures (rows + NewRows(first, userId, entries, i))[first + i := Row(userId, Normalize(entries[i]))]
      == rows + NewRows(first, userId, entries, i + 1)
  {
  }

  lemma NoConflict(rows0: Rows, first: nat, userId: Id, entries: seq<Entry>, i: nat)
    requires i < |entries| && NewDistinctKeys(rows0, userId, entries)
    ensures forall id :: id in rows0 + NewRows(first, userId, entries, i) ==>
      !Conflicts((rows0 + NewRows(first, userId, entries, i))[id], Row(userId, Normalize(entries[i])))
  {
    hide Key;
    var rows := rows0 + NewRows(first, userId, entries, i);
    forall id | id in rows ensures rows[id] != Row(userId, Normalize(entries[i])) {
      NormalizeKeepsKey(entries[i]);
      if first <= id < first + i {
        NormalizeKeepsKey(entries[id - first]);
      } else {
        assert rows0[id].userId == userId ==> Key(rows0[id].entry) in KeysOf(rows0, userId);
      }
    }
  }

  function WithoutUser(rows: Rows, userId: Id): Rows {
    map id | id in rows && rows[id].userId != userId :: rows[id]
  }

  lemma NothingLeft(rows: Rows, userId: Id)
    ensures KeysOf(WithoutUser(rows, userId), userId) == {}
    ensures OthersUntouched(rows, WithoutUser(rows, userId), userId)
    ensures WantedKept(rows, WithoutUser(rows, userId), userId, {})
    ensures NewRowsFrom(rows, WithoutUser(rows, userId), userId, [])
  {
    hide Key, CarriesTarget, Normalize;
  }

  lemma UniqueKeysLeaveNoStaleDuplicates(rows: Rows, userId: Id, target: set<string>)
    requires OneRowPerKey(rows, userId)
    ensures StaleDuplicates(rows, userId, target) == {}
  {
    hide Key, StaleDuplicates;
    NoStaleDuplicates(rows, userId, target);
  }

  /** deleteByUserId is a synchronisation with the empty target, for a user with one row per key. */
  lemma DeletingAllIsSyncWithNothing(rows: Rows, userId: Id)
    requires OneRowPerKey(rows, userId)
    ensures Synced(rows, WithoutUser(rows, userId), userId, [], 0, |IdsOf(rows, userId)|)
  {
    hide Key, CarriesTarget, Normalize, StaleDuplicates, OthersUntouched, WantedKept, NewRowsFrom, WithoutUser;
    assert |IdsOf(rows, userId)| == |KeysOf(rows, userId)| by {
      OneRowPerKeyCounts(rows, IdsOf(rows, userId), KeysOf(rows, userId));
    }
    hide KeysOf, OneRowPerKey, IdsOf;
    NothingLeft(rows, userId);
    UniqueKeysLeaveNoStaleDuplicates(rows, userId, {});
    assert EntryKeys([]) == {};
    assert KeysOf(rows, userId) - {} == KeysOf(rows, userId);
    assert {} - KeysOf(rows, userId) == {};
  }

  /** The twin implementations agree: same counts, same keys for every user, same grants. */
  lemma TwinsAgree(before: Rows, one: Rows, two: Rows, userId: Id, targets: seq<Entry>,
                   inserted1: nat, deleted1: nat, inserted2: nat, deleted2: nat, other: Id)
    requires Synced(before, one, userId, targets, inserted1, deleted1)
    requires Synced(before, two, userId, targets, inserted2, deleted2)
    ensures inserted1 == inserted2 && deleted1 == deleted2
    ensures KeysOf(one, other) == KeysOf(two, other)
    ensures OneRowPerKey(before, userId) && SoundRows(before) && (forall i :: 0 <= i < |targets| ==> Sound(targets[i]))
      ==> GrantsOf(one, other) == GrantsOf(two, other)
  {
    hide Key;
    if other != userId {
      OthersKeepRows(before, one, userId, other);
      OthersKeepRows(before, two, userId, other);
    } else if OneRowPerKey(before, userId) && SoundRows(before) && forall i :: 0 <= i < |targets| ==> Sound(targets[i]) {
      SyncReachesGrants(before, one, userId, targets, inserted1, deleted1);
      SyncReachesGrants(before, two, userId, targets, inserted2, deleted2);
    }
  }

  lemma OthersKeepRows(before: Rows, after: Rows, userId: Id, other: Id)
    requires OthersUntouched(before, after, userId) && other != userId
    ensures IdsOf(after, other) == IdsOf(before, other)
    ensures KeysOf(after, other) == KeysOf(before, other) && GrantsOf(after, other) == GrantsOf(before, other)
    ensures OneRowPerKey(before, other) ==> OneRowPerKey(after, other)
  {
    hide Key, Normalize;
    assert IdsOf(after, other) == IdsOf(before, other);
    assert forall id :: id in IdsOf(before, other) ==> after[id] == before[id];
    assert KeysOf(after, other) == set id | id in IdsOf(before, other) :: Key(before[id].entry);
    assert GrantsOf(after, other) == set id | id in IdsOf(before, other) :: Normalize(before[id].entry);
  }
}
