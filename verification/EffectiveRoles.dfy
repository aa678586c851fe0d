/** Effective-role rows, the string key that identifies a grant, and what one
    synchronisation of a user's rows does. */
module EffectiveRoles {
  import opened JavaScript

  type Id = string

  /** A loop over a set that looks for what is not in another has looked at one element more. */
  lemma CheckedOneMore<T>(all: set<T>, todo: set<T>, other: set<T>, x: T)
    requires todo <= all && x in todo
    ensures var found, next := (all - todo) - other, (all - (todo - {x})) - other;
      if x in other then next == found else x !in found && next == found + {x} && |next| == |found| + 1
  {
    var found, next := (all - todo) - other, (all - (todo - {x})) - other;
    if x !in other {
      assert next == found + {x};
    }
  }

  /** A grant: a role, the group it comes from, and the group's scope. */
  datatype Entry = Entry(roleId: Id, sourceGroupId: Id, scopeType: string, scopeEntityId: Option<string>)

  datatype Row = Row(userId: Id, entry: Entry)

  /** scopeEntityId || null. */
  function OrNull(ref: Option<string>): Option<string> {
    if ref == Some("") then None else ref
  }

  function Normalize(e: Entry): Entry {
    e.(scopeEntityId := OrNull(e.scopeEntityId))
  }

  function RefText(ref: Option<string>): string {
    if OrNull(ref).Some? then ref.value else "null"
  }

  /** GenerateUserEffectiveRoleKey. */
  function Key(e: Entry): string {
    e.roleId + (":" + (e.sourceGroupId + (":" + (e.scopeType + (":" + RefText(e.scopeEntityId))))))
  }

  /** Ids are UUIDs and scope types are constants, so none of the three has a colon. */
  predicate Plain(e: Entry) {
    ':' !in e.roleId && ':' !in e.sourceGroupId && ':' !in e.scopeType
  }

  function FirstColon(s: string): nat {
    if s == [] || s[0] == ':' then 0 else 1 + FirstColon(s[1..])
  }

  lemma {:induction false} FirstColonAfter(a: string, x: string)
    requires ':' !in a
    ensures FirstColon(a + (":" + x)) == |a|
  {
    if a != [] {
      assert (a + (":" + x))[1..] == a[1..] + (":" + x);
      FirstColonAfter(a[1..], x);
    }
  }

  lemma SplitAtFirstColon(a: string, x: string, b: string, y: string)
    requires ':' !in a && ':' !in b
    requires a + (":" + x) == b + (":" + y)
    ensures a == b && x == y
  {
    FirstColonAfter(a, x);
    FirstColonAfter(b, y);
    var s, t := a + (":" + x), b + (":" + y);
    assert s[..|a|] == a && t[..|b|] == b;
    assert s[|a| + 1..] == x && t[|b| + 1..] == y;
  }

  /** Two plain entries share a key exactly when they are the same grant, or one has no
      scope reference and the other's reference is the word null. */
  lemma KeysCollideExactly(a: Entry, b: Entry)
    requires Plain(a) && Plain(b)
    ensures Key(a) == Key(b) <==>
      || Normalize(a) == Normalize(b)
      || (Normalize(a).(scopeEntityId := None) == Normalize(b).(scopeEntityId := None)
          && {OrNull(a.scopeEntityId), OrNull(b.scopeEntityId)} == {None, Some("null")})
  {
    if Key(a) == Key(b) {
      SplitAtFirstColon(a.roleId, a.sourceGroupId + (":" + (a.scopeType + (":" + RefText(a.scopeEntityId)))),
                        b.roleId, b.sourceGroupId + (":" + (b.scopeType + (":" + RefText(b.scopeEntityId)))));
      SplitAtFirstColon(a.sourceGroupId, a.scopeType + (":" + RefText(a.scopeEntityId)),
                        b.sourceGroupId, b.scopeType + (":" + RefText(b.scopeEntityId)));
      SplitAtFirstColon(a.scopeType, RefText(a.scopeEntityId), b.scopeType, RefText(b.scopeEntityId));
    }
  }

  /** Without the colon condition different grants can share a key. */
  lemma ColonsBreakTheKey()
    ensures var a, b := Entry("r:g", "h", "SELF", None), Entry("r", "g:h", "SELF", None);
      Key(a) == Key(b) && Normalize(a) != Normalize(b)
  {
    var a, b := Entry("r:g", "h", "SELF", None), Entry("r", "g:h", "SELF", None);
    assert Key(a) == "r:g:h:SELF:null" == Key(b);
  }

  /** Two different plain grants with one key: no scope reference, and the word null. */
  lemma NullWordSharesTheKey()
    ensures var a, b := Entry("r", "g", "COMPANY", None), Entry("r", "g", "COMPANY", Some("null"));
      Plain(a) && Plain(b) && Key(a) == Key(b) && Normalize(a) != Normalize(b)
  {
    var a, b := Entry("r", "g", "COMPANY", None), Entry("r", "g", "COMPANY", Some("null"));
    assert Key(a) == "r:g:COMPANY:null" == Key(b);
  }

  /** The check constraint chk_user_groups_scope_reference, references not being empty strings: the scope type says
      whether there is a reference. */
  predicate ScopeChecked(e: Entry) {
    OrNull(e.scopeEntityId).None? <==> e.scopeType in {"SELF", "DIRECT_REPORTEES", "TENANT"}
  }

  /** Where the check constraint holds, keys identify grants after all. */
  lemma CheckedScopesAreIdentified(a: Entry, b: Entry)
    requires Plain(a) && Plain(b) && ScopeChecked(a) && ScopeChecked(b)
    ensures Key(a) == Key(b) <==> Normalize(a) == Normalize(b)
  {
    hide Key, Plain;
    KeysCollideExactly(a, b);
  }

  type Rows = map<nat, Row>

  ghost function IdsOf(rows: Rows, userId: Id): set<nat> {
    set id | id in rows && rows[id].userId == userId
  }

  ghost function KeysOf(rows: Rows, userId: Id): set<string> {
    set id | id in rows && rows[id].userId == userId :: Key(rows[id].entry)
  }

  ghost function GrantsOf(rows: Rows, userId: Id): set<Entry> {
    set id | id in rows && rows[id].userId == userId :: Normalize(rows[id].entry)
  }

  ghost predicate OneRowPerKey(rows: Rows, userId: Id) {
    forall i, j :: i in IdsOf(rows, userId) && j in IdsOf(rows, userId) && Key(rows[i].entry) == Key(rows[j].entry) ==> i == j
  }

  function EntryKeys(entries: seq<Entry>): set<string> {
    set i | 0 <= i < |entries| :: Key(entries[i])
  }

  /** Keys outside the target that more than one row of the user carries. */
  ghost function StaleDuplicates(rows: Rows, userId: Id, target: set<string>): set<string> {
    set i, j | i in IdsOf(rows, userId) && j in IdsOf(rows, userId) && i != j
      && Key(rows[i].entry) == Key(rows[j].entry) && Key(rows[i].entry) !in target :: Key(rows[i].entry)
  }

  /** Nothing of any other user moves. */
  ghost predicate OthersUntouched(before: Rows, after: Rows, userId: Id) {
    && (forall id :: id in before && before[id].userId != userId ==> id in after && after[id] == before[id])
    && (forall id :: id in after && after[id].userId != userId ==> id in before && after[id] == before[id])
  }

  /** Rows are never rewritten, and no row with a wanted key goes. */
  ghost predicate WantedKept(before: Rows, after: Rows, userId: Id, target: set<string>) {
    && (forall id :: id in after && id in before ==> after[id] == before[id])
    && (forall id :: id in IdsOf(before, userId) && Key(before[id].entry) in target ==> id in after)
  }

  /** New rows are the user's, one for each new key, and carry a target entry. */
  ghost predicate NewRowsFrom(before: Rows, after: Rows, userId: Id, targets: seq<Entry>) {
    && (forall id :: id in after && id !in before ==>
          && after[id].userId == userId && Key(after[id].entry) !in KeysOf(before, userId)
          && CarriesTarget(after[id].entry, targets))
    && (forall i, j | i in after && i !in before && j in after && j !in before ::
          Key(after[i].entry) == Key(after[j].entry) ==> i == j)
  }

  ghost predicate CarriesTarget(e: Entry, targets: seq<Entry>) {
    exists i :: 0 <= i < |targets| && e == Normalize(targets[i])
  }

  /** What synchronising a user's rows with a target list does to the table, and what it reports. */
  ghost predicate Synced(before: Rows, after: Rows, userId: Id, targets: seq<Entry>, inserted: nat, deleted: nat) {
    && OthersUntouched(before, after, userId)
    && KeysOf(after, userId) == EntryKeys(targets) + StaleDuplicates(before, userId, EntryKeys(targets))
    && WantedKept(before, after, userId, EntryKeys(targets))
    && NewRowsFrom(before, after, userId, targets)
    && inserted == |EntryKeys(targets) - KeysOf(before, userId)|
    && deleted == |KeysOf(before, userId) - EntryKeys(targets)|
  }

  /** Every key two of the user's rows share is still wanted. */
  ghost predicate DuplicatesWanted(rows: Rows, userId: Id, target: set<string>) {
    forall i, j | i in IdsOf(rows, userId) && j in IdsOf(rows, userId) && i != j ::
      Key(rows[i].entry) == Key(rows[j].entry) ==> Key(rows[i].entry) in target
  }

  lemma NoStaleDuplicates(rows: Rows, userId: Id, target: set<string>)
    ensures StaleDuplicates(rows, userId, target) == {} <==> DuplicatesWanted(rows, userId, target)
  {
    hide Key;
    var stale := StaleDuplicates(rows, userId, target);
    if stale == {} {
      forall i, j | i in IdsOf(rows, userId) && j in IdsOf(rows, userId) && i != j && Key(rows[i].entry) == Key(rows[j].entry)
        ensures Key(rows[i].entry) in target {
        assert Key(rows[i].entry) !in stale;
      }
    } else {
      var k :| k in stale;
    }
  }

  /** The user's key set becomes the target's exactly when no stale key is held by two rows;
      with one row per key it always does, and there is still one row per key. */
  lemma SyncReachesTarget(before: Rows, after: Rows, userId: Id, targets: seq<Entry>, inserted: nat, deleted: nat)
    requires Synced(before, after, userId, targets, inserted, deleted)
    ensures KeysOf(after, userId) == EntryKeys(targets) <==> DuplicatesWanted(before, userId, EntryKeys(targets))
    ensures OneRowPerKey(before, userId) ==> KeysOf(after, userId) == EntryKeys(targets) && OneRowPerKey(after, userId)
  {
    hide Key;
    NoStaleDuplicates(before, userId, EntryKeys(targets));
    var stale := StaleDuplicates(before, userId, EntryKeys(targets));
    assert stale !! EntryKeys(targets);
    if OneRowPerKey(before, userId) {
      SyncKeepsOneRowPerKey(before, after, userId, targets);
    }
  }

  /** Two rows of one stale key: only one of them is deleted, so the key outlives the synchronisation. */
  lemma StaleDuplicateSurvives()
    ensures var e := Entry("r", "g", "SELF", None);
      var before: Rows := map[0 := Row("u", e), 1 := Row("u", e)];
      var after: Rows := map[0 := Row("u", e)];
      && Synced(before, after, "u", [], 0, 1)
      && KeysOf(after, "u") == {Key(e)} && EntryKeys([]) == {}
  {
    hide Key;
    var e := Entry("r", "g", "SELF", None);
    var before: Rows := map[0 := Row("u", e), 1 := Row("u", e)];
    var after: Rows := map[0 := Row("u", e)];
    DuplicateRowKeys(e);
    assert EntryKeys([]) == {} && {Key(e)} - {} == {Key(e)};
    hide KeysOf, StaleDuplicates;
  }

  lemma DuplicateRowKeys(e: Entry)
    ensures var before: Rows := map[0 := Row("u", e), 1 := Row("u", e)];
      var after: Rows := map[0 := Row("u", e)];
      KeysOf(before, "u") == {Key(e)} == KeysOf(after, "u") && StaleDuplicates(before, "u", {}) == {Key(e)}
  {
    hide Key;
    var before: Rows := map[0 := Row("u", e), 1 := Row("u", e)];
    var after: Rows := map[0 := Row("u", e)];
    assert 0 in IdsOf(before, "u") && 1 in IdsOf(before, "u") && 0 in IdsOf(after, "u");
    assert before[0].entry == e && before[1].entry == e && after[0].entry == e;
  }

  /** schema.sql's primary key: one row for each user, role and group. */
  ghost predicate PrimaryKey(rows: Rows) {
    forall i, j :: i in rows && j in rows && i != j && rows[i].userId == rows[j].userId ==>
      rows[i].entry.roleId != rows[j].entry.roleId || rows[i].entry.sourceGroupId != rows[j].entry.sourceGroupId
  }

  /** Under that primary key every user has one row per key, so no duplicate can go stale. */
  lemma PrimaryKeyMeansOneRowPerKey(rows: Rows, userId: Id)
    requires PrimaryKey(rows) && forall id :: id in rows ==> Plain(rows[id].entry)
    ensures OneRowPerKey(rows, userId)
  {
    hide Key, Plain;
    forall i, j | i in IdsOf(rows, userId) && j in IdsOf(rows, userId) && Key(rows[i].entry) == Key(rows[j].entry) ensures i == j {
      KeysCollideExactly(rows[i].entry, rows[j].entry);
    }
  }

  lemma SyncKeepsOneRowPerKey(before: Rows, after: Rows, userId: Id, targets: seq<Entry>)
    requires OthersUntouched(before, after, userId) && WantedKept(before, after, userId, EntryKeys(targets))
    requires NewRowsFrom(before, after, userId, targets) && OneRowPerKey(before, userId)
    ensures OneRowPerKey(after, userId)
  {
    hide Key;
    forall i, j | i in IdsOf(after, userId) && j in IdsOf(after, userId) && Key(after[i].entry) == Key(after[j].entry)
      ensures i == j {
      assert i in before ==> i in IdsOf(before, userId) && Key(after[i].entry) in KeysOf(before, userId);
      assert j in before ==> j in IdsOf(before, userId) && Key(after[j].entry) in KeysOf(before, userId);
    }
  }

  /** The reported counts are the numbers of keys the user gained and lost. */
  ghost predicate CountsTrue(before: Rows, after: Rows, userId: Id, inserted: nat, deleted: nat) {
    OneRowPerKey(before, userId) ==>
      inserted == |KeysOf(after, userId) - KeysOf(before, userId)| && deleted == |KeysOf(before, userId) - KeysOf(after, userId)|
  }

  /** The counts are true, and both are zero exactly when no row of the table has moved. */
  lemma SyncReportsTruly(before: Rows, after: Rows, userId: Id, targets: seq<Entry>, inserted: nat, deleted: nat)
    requires Synced(before, after, userId, targets, inserted, deleted)
    ensures CountsTrue(before, after, userId, inserted, deleted)
    ensures OneRowPerKey(before, userId) ==> (inserted == 0 && deleted == 0 <==> after == before)
  {
    hide Key;
    if OneRowPerKey(before, userId) {
      SyncReachesTarget(before, after, userId, targets, inserted, deleted);
      var target := EntryKeys(targets);
      if inserted == 0 && deleted == 0 {
        assert target - KeysOf(before, userId) == {} && KeysOf(before, userId) - target == {};
        SameKeysSameRows(before, after, userId, targets);
      }
    }
  }

  lemma SameKeysSameRows(before: Rows, after: Rows, userId: Id, targets: seq<Entry>)
    requires OthersUntouched(before, after, userId) && WantedKept(before, after, userId, EntryKeys(targets))
    requires NewRowsFrom(before, after, userId, targets)
    requires EntryKeys(targets) == KeysOf(before, userId) == KeysOf(after, userId)
    ensures after == before
  {
    hide Key;
    forall id | id in before ensures id in after && after[id] == before[id] {
      if before[id].userId == userId {
        assert Key(before[id].entry) in KeysOf(before, userId);
      }
    }
    forall id | id in after ensures id in before {
      if after[id].userId == userId {
        assert Key(after[id].entry) in KeysOf(after, userId);
      }
    }
  }

  /** Synchronising again with the same target changes no row and reports nothing. */
  lemma SecondSyncChangesNothing(rows0: Rows, rows1: Rows, rows2: Rows, userId: Id, targets: seq<Entry>,
                                 inserted1: nat, deleted1: nat, inserted2: nat, deleted2: nat)
    requires OneRowPerKey(rows0, userId)
    requires Synced(rows0, rows1, userId, targets, inserted1, deleted1)
    requires Synced(rows1, rows2, userId, targets, inserted2, deleted2)
    ensures rows2 == rows1 && inserted2 == 0 && deleted2 == 0
  {
    hide Key, Synced;
    assert KeysOf(rows1, userId) == EntryKeys(targets) by {
      SyncReachesTarget(rows0, rows1, userId, targets, inserted1, deleted1);
    }
    assert KeysOf(rows2, userId) == EntryKeys(targets) by {
      SyncReachesTarget(rows0, rows1, userId, targets, inserted1, deleted1);
      SyncReachesTarget(rows1, rows2, userId, targets, inserted2, deleted2);
    }
    SyncWithMatchingKeys(rows1, rows2, userId, targets, inserted2, deleted2);
  }

  lemma SyncWithMatchingKeys(before: Rows, after: Rows, userId: Id, targets: seq<Entry>, inserted: nat, deleted: nat)
    requires Synced(before, after, userId, targets, inserted, deleted)
    requires KeysOf(before, userId) == KeysOf(after, userId) == EntryKeys(targets)
    ensures after == before && inserted == 0 && deleted == 0
  {
    hide Key;
    var target := EntryKeys(targets);
    assert target - KeysOf(before, userId) == {} == KeysOf(before, userId) - target;
    forall id | id in before ensures id in after && after[id] == before[id] {
      if before[id].userId == userId {
        assert id in IdsOf(before, userId) && Key(before[id].entry) in KeysOf(before, userId);
      }
    }
    forall id | id in after ensures id in before {
      assert after[id].userId == userId ==> Key(after[id].entry) in KeysOf(after, userId);
    }
  }

  predicate Sound(e: Entry) {
    Plain(e) && e.scopeEntityId != Some("null")
  }

  ghost predicate SoundRows(rows: Rows) {
    forall id :: id in rows ==> Sound(rows[id].entry)
  }

  function GrantSet(entries: seq<Entry>): set<Entry> {
    set i | 0 <= i < |entries| :: Normalize(entries[i])
  }

  lemma SoundKeysIdentify(a: Entry, b: Entry)
    requires Sound(a) && Sound(b)
    ensures Key(a) == Key(b) <==> Normalize(a) == Normalize(b)
  {
    KeysCollideExactly(a, b);
  }

  lemma SyncKeepsSound(before: Rows, after: Rows, userId: Id, targets: seq<Entry>)
    requires WantedKept(before, after, userId, EntryKeys(targets)) && NewRowsFrom(before, after, userId, targets)
    requires SoundRows(before) && forall i :: 0 <= i < |targets| ==> Sound(targets[i])
    ensures SoundRows(after)
  {
    hide Key;
    forall id | id in after ensures Sound(after[id].entry) {
      if id !in before {
        var i :| 0 <= i < |targets| && after[id].entry == Normalize(targets[i]);
      }
    }
  }

  /** Sound rows and sound targets with the same keys are the same grants. */
  lemma SameKeysSameGrants(rows: Rows, userId: Id, targets: seq<Entry>)
    requires SoundRows(rows) && forall i :: 0 <= i < |targets| ==> Sound(targets[i])
    requires KeysOf(rows, userId) == EntryKeys(targets)
    ensures GrantsOf(rows, userId) == GrantSet(targets)
  {
    hide Key;
    forall g | g in GrantsOf(rows, userId) ensures g in GrantSet(targets) {
      var id :| id in rows && rows[id].userId == userId && Normalize(rows[id].entry) == g;
      assert Key(rows[id].entry) in EntryKeys(targets);
      var i :| 0 <= i < |targets| && Key(targets[i]) == Key(rows[id].entry);
      SoundKeysIdentify(targets[i], rows[id].entry);
    }
    forall g | g in GrantSet(targets) ensures g in GrantsOf(rows, userId) {
      var i :| 0 <= i < |targets| && Normalize(targets[i]) == g;
      assert Key(targets[i]) in KeysOf(rows, userId);
      var id :| id in rows && rows[id].userId == userId && Key(rows[id].entry) == Key(targets[i]);
      SoundKeysIdentify(targets[i], rows[id].entry);
    }
  }

  /** Where keys identify grants, the user's grants become exactly the target's grants. */
  lemma SyncReachesGrants(before: Rows, after: Rows, userId: Id, targets: seq<Entry>, inserted: nat, deleted: nat)
    requires Synced(before, after, userId, targets, inserted, deleted)
    requires OneRowPerKey(before, userId) && SoundRows(before)
    requires forall i :: 0 <= i < |targets| ==> Sound(targets[i])
    ensures GrantsOf(after, userId) == GrantSet(targets) && SoundRows(after)
  {
    SyncReachesTarget(before, after, userId, targets, inserted, deleted);
    SyncKeepsSound(before, after, userId, targets);
    SameKeysSameGrants(after, userId, targets);
  }

  lemma {:induction false} OneRowPerKeyCounts(rows: Rows, ids: set<nat>, keys: set<string>)
    requires ids <= rows.Keys && keys == set id | id in ids :: Key(rows[id].entry)
    requires forall i, j :: i in ids && j in ids && Key(rows[i].entry) == Key(rows[j].entry) ==> i == j
    ensures |ids| == |keys|
  {
    if ids == {} {
      assert keys == {};
    } else {
      var id :| id in ids;
      var k := Key(rows[id].entry);
      assert keys - {k} == set i | i in ids - {id} :: Key(rows[i].entry);
      OneRowPerKeyCounts(rows, ids - {id}, keys - {k});
    }
  }
}
