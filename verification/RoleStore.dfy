/** Roles with their permission rows, the checks and transactions of the role service, and their
    interleavings. */
module RoleStore {
  import opened JavaScript
  import opened PermissionCatalog
  import PermissionDependency

  type Id = string

  datatype RoleType = System(key: string) | Custom

  datatype RoleStatus = RoleActive | RoleInactive

  datatype RoleRow = RoleRow(name: string, description: Option<string>, roleType: RoleType, status: RoleStatus, version: nat)

  /** What an update of a custom role says about it; an absent description is undefined. */
  datatype Details = Details(name: string, description: Option<string>)

  /** A role's permission rows: code to is_protected. One row per code is the unique constraint. */
  type Rows = map<Code, bool>

  datatype Store = Store(roles: map<Id, RoleRow>, permissions: map<Id, Rows>)

  /** What is fixed while the service runs: the permission catalog and the system role templates. */
  datatype Catalog = Catalog(graph: Graph, templates: map<string, Rows>)

  const ADMINISTRATOR := "ADMINISTRATOR"
  const HIGH_IMPACT_THRESHOLD := 100

  function ProtectedOf(rows: Rows): set<Code> {
    set c | c in rows && rows[c]
  }

  /** The protected codes of a system role's template. */
  function ProtectedCodes(cfg: Catalog, t: RoleType): set<Code> {
    if t.System? && t.key in cfg.templates then ProtectedOf(cfg.templates[t.key]) else {}
  }

  predicate Valid(cfg: Catalog, codes: set<Code>) {
    PermissionDependency.Valid(cfg.graph, codes)
  }

  function ToSet(codes: seq<Code>): set<Code> {
    PermissionDependency.ToSet(codes)
  }

  function RowsOf(s: Store, id: Id): Rows {
    if id in s.permissions then s.permissions[id] else map[]
  }

  predicate NameTaken(s: Store, name: string) {
    exists id :: id in s.roles && s.roles[id].name == name
  }

  predicate NameTakenByOther(s: Store, name: string, id: Id) {
    exists other :: other in s.roles && other != id && s.roles[other].name == name
  }

  // --- the transactions ---

  datatype RoleError =
    | RoleNotFound | CannotMutateSystemRole | CannotDeleteSystemRole | CriticalRoleDeactivation | VersionConflict
    | DuplicateName | InvalidPermissionSet | ProtectedCapabilityRemoval | UniqueViolation

  datatype Txn =
    | InsertRole(id: Id, details: Details, codes: seq<Code>)
    | Replace(id: Id, version: Option<nat>, newDetails: Option<Details>, codes: seq<Code>)
    | SetStatus(id: Id, version: Option<nat>, status: RoleStatus)
    | RenameTo(id: Id, newName: Details)
    | DeleteRole(id: Id)

  datatype TxnResult = Committed(store: Store) | RolledBack(error: RoleError)

  /** dto.version is given and is not the row's. */
  predicate Stale(expected: Option<nat>, version: nat) {
    expected.Some? && expected.value != version
  }

  /** deleteByRoleId leaves protected rows alone. */
  function KeptRows(rows: Rows): Rows {
    map c | c in rows && rows[c] :: true
  }

  predicate Distinct(codes: seq<Code>) {
    forall i, k :: 0 <= i < k < |codes| ==> codes[i] != codes[k]
  }

  predicate Insertable(rows: Rows, codes: seq<Code>) {
    Distinct(codes) && forall c :: c in codes ==> c !in rows
  }

  function WithRows(rows: Rows, codes: seq<Code>, protectedSet: set<Code>): Rows {
    rows + map c | c in codes :: c in protectedSet
  }

  /** A role under its new name; TypeORM skips a description that is undefined. */
  function Described(row: RoleRow, details: Details): RoleRow {
    row.(name := details.name, description := if details.description.Some? then details.description else row.description)
  }

  /** The protected set the replacing transaction uses; updateCustom (with details) uses none. */
  function ReplacedProtected(cfg: Catalog, row: RoleRow, details: Option<Details>): set<Code> {
    if details.Some? then {} else ProtectedCodes(cfg, row.roleType)
  }

  /** One transaction against the tables as they are when it takes its row lock. */
  function Transact(cfg: Catalog, s: Store, txn: Txn): TxnResult {
    match txn
    case InsertRole(id, details, codes) =>
      if id in s.roles || NameTaken(s, details.name) || !Insertable(map[], codes) then RolledBack(UniqueViolation)
      else Committed(Store(s.roles[id := RoleRow(details.name, details.description, Custom, RoleActive, 1)],
                           s.permissions[id := WithRows(map[], codes, {})]))
    case Replace(id, version, details, codes) =>
      if id !in s.roles then RolledBack(RoleNotFound)
      else if Stale(version, s.roles[id].version) then RolledBack(VersionConflict)
      else if !Insertable(KeptRows(RowsOf(s, id)), codes) || (details.Some? && NameTakenByOther(s, details.value.name, id)) then
        RolledBack(UniqueViolation)
      else
        var row := s.roles[id];
        Committed(Store(
          s.roles[id := (if details.Some? then Described(row, details.value) else row).(version := row.version + 1)],
          s.permissions[id := WithRows(KeptRows(RowsOf(s, id)), codes, ReplacedProtected(cfg, row, details))]))
    case SetStatus(id, version, status) =>
      if id !in s.roles then RolledBack(RoleNotFound)
      else if Stale(version, s.roles[id].version) then RolledBack(VersionConflict)
      else Committed(s.(roles := s.roles[id := s.roles[id].(status := status, version := s.roles[id].version + 1)]))
    case RenameTo(id, details) =>
      if id !in s.roles then RolledBack(RoleNotFound)
      else if s.roles[id].name == details.name then Committed(s)
      else if NameTaken(s, details.name) then RolledBack(DuplicateName)
      else Committed(s.(roles := s.roles[id := Described(s.roles[id], details).(version := s.roles[id].version + 1)]))
    case DeleteRole(id) =>
      if id !in s.roles then RolledBack(RoleNotFound)
      else if s.roles[id].roleType.System? then RolledBack(CannotDeleteSystemRole)
      else Committed(Store(s.roles - {id}, s.permissions - {id}))
  }

  // --- the requests and the checks before the transaction ---

  datatype Request =
    | CreateCustom(id: Id, details: Details, codes: seq<Code>)
    | Copy(id: Id, sourceId: Id, details: Details, order: seq<Code>)
    | UpdateCustom(id: Id, version: Option<nat>, details: Details, codes: seq<Code>, confirmed: bool)
    | UpdatePermissions(id: Id, version: Option<nat>, codes: seq<Code>, confirmed: bool)
    | Deactivate(id: Id, version: Option<nat>, confirmed: bool)
    | Reactivate(id: Id)
    | Rename(id: Id, details: Details)
    | Delete(id: Id)

  datatype Checked = Proceed(txn: Txn) | ConfirmationRequired | Refused(error: RoleError)

  /** dto.description ?? sourceRole.description. */
  function CopiedDetails(source: RoleRow, details: Details): Details {
    details.(description := if details.description.Some? then details.description else source.description)
  }

  /** The checks, on the tables as they are when the request comes in. groups and users are the
      numbers of groups and users the role reaches. */
  function Check(cfg: Catalog, s: Store, groups: nat, users: nat, r: Request): Checked {
    match r
    case CreateCustom(id, details, codes) =>
      if !Valid(cfg, ToSet(codes)) then Refused(InvalidPermissionSet)
      else if NameTaken(s, details.name) then Refused(DuplicateName)
      else Proceed(InsertRole(id, details, codes))
    case Copy(id, sourceId, details, order) =>
      if sourceId !in s.roles then Refused(RoleNotFound)
      else if NameTaken(s, details.name) then Refused(DuplicateName)
      else Proceed(InsertRole(id, CopiedDetails(s.roles[sourceId], details), order))
    case UpdateCustom(id, version, details, codes, confirmed) =>
      if id !in s.roles then Refused(RoleNotFound)
      else if s.roles[id].roleType.System? then Refused(CannotMutateSystemRole)
      else if Stale(version, s.roles[id].version) then Refused(VersionConflict)
      else if NameTakenByOther(s, details.name, id) && s.roles[id].name != details.name then Refused(DuplicateName)
      else if !Valid(cfg, ToSet(codes)) then Refused(InvalidPermissionSet)
      else if users >= HIGH_IMPACT_THRESHOLD && !confirmed then ConfirmationRequired
      else Proceed(Replace(id, version, Some(details), codes))
    case UpdatePermissions(id, version, codes, confirmed) =>
      if id !in s.roles then Refused(RoleNotFound)
      else if Stale(version, s.roles[id].version) then Refused(VersionConflict)
      else if !(ProtectedCodes(cfg, s.roles[id].roleType) <= ToSet(codes)) then Refused(ProtectedCapabilityRemoval)
      else if !Valid(cfg, ToSet(codes)) then Refused(InvalidPermissionSet)
      else if users >= HIGH_IMPACT_THRESHOLD && !confirmed then ConfirmationRequired
      else Proceed(Replace(id, version, None, codes))
    case Deactivate(id, version, confirmed) =>
      if id !in s.roles then Refused(RoleNotFound)
      else if s.roles[id].roleType == System(ADMINISTRATOR) then Refused(CriticalRoleDeactivation)
      else if Stale(version, s.roles[id].version) then Refused(VersionConflict)
      else if groups > 0 && !confirmed then ConfirmationRequired
      else Proceed(SetStatus(id, version, RoleInactive))
    case Reactivate(id) =>
      if id !in s.roles then Refused(RoleNotFound) else Proceed(SetStatus(id, None, RoleActive))
    case Rename(id, details) => Proceed(RenameTo(id, details))
    case Delete(id) => Proceed(DeleteRole(id))
  }

  /** A copy lists the source's codes, in the order the database returns them. */
  predicate WellRead(s: Store, r: Request) {
    r.Copy? && r.sourceId in s.roles ==> ToSet(r.order) == RowsOf(s, r.sourceId).Keys
  }

  // --- soundness of the stored roles ---

  ghost predicate RoleSound(cfg: Catalog, row: RoleRow, rows: Rows) {
    Valid(cfg, rows.Keys) && ProtectedOf(rows) == ProtectedCodes(cfg, row.roleType)
  }

  /** Every role holds a code set the validator accepts, and exactly the protected rows of its template:
      none at all for a custom role. */
  ghost predicate RolesSound(cfg: Catalog, s: Store) {
    && s.permissions.Keys == s.roles.Keys
    && forall id :: id in s.roles ==> RoleSound(cfg, s.roles[id], s.permissions[id])
  }

  /** What the checks have established about a transaction, and what stays true until it runs. */
  ghost predicate TxnSound(cfg: Catalog, s: Store, txn: Txn) {
    match txn
    case InsertRole(_, _, codes) => Valid(cfg, ToSet(codes))
    case Replace(id, _, details, codes) =>
      && Valid(cfg, ToSet(codes))
      && (id in s.roles ==> if details.Some? then s.roles[id].roleType.Custom?
                            else ProtectedCodes(cfg, s.roles[id].roleType) <= ToSet(codes))
    case SetStatus(id, _, status) => id in s.roles && s.roles[id].roleType == System(ADMINISTRATOR) ==> status.RoleActive?
    case _ => true
  }

  lemma CheckedIsSound(cfg: Catalog, s: Store, groups: nat, users: nat, r: Request)
    requires RolesSound(cfg, s) && WellRead(s, r) && Check(cfg, s, groups, users, r).Proceed?
    ensures TxnSound(cfg, s, Check(cfg, s, groups, users, r).txn)
  {
    hide PermissionDependency.Valid;
  }

  lemma ProtectedAreKept(cfg: Catalog, row: RoleRow, rows: Rows, codes: seq<Code>)
    requires RoleSound(cfg, row, rows) && ProtectedCodes(cfg, row.roleType) <= ToSet(codes)
    ensures forall c :: c in ProtectedCodes(cfg, row.roleType) ==> c in codes && c in KeptRows(rows)
  {
    hide PermissionDependency.Valid;
    forall c | c in ProtectedCodes(cfg, row.roleType) ensures c in codes && c in KeptRows(rows) {
      assert c in ProtectedOf(rows) && c in ToSet(codes);
    }
  }

  /** On rows that hold their template's protected codes, a replacement that lists them all conflicts
      with the rows it keeps, unless there are none. */
  lemma ReplacementKeepsSound(cfg: Catalog, row: RoleRow, rows: Rows, details: Option<Details>, codes: seq<Code>)
    requires RoleSound(cfg, row, rows) && Valid(cfg, ToSet(codes)) && Insertable(KeptRows(rows), codes)
    requires if details.Some? then row.roleType.Custom? else ProtectedCodes(cfg, row.roleType) <= ToSet(codes)
    ensures ProtectedCodes(cfg, row.roleType) == {} && KeptRows(rows) == map[]
    ensures RoleSound(cfg, row, WithRows(KeptRows(rows), codes, ReplacedProtected(cfg, row, details)))
  {
    hide PermissionDependency.Valid;
    if details.None? {
      ProtectedAreKept(cfg, row, rows, codes);
    }
    assert KeptRows(rows) == map[];
    assert WithRows(map[], codes, {}).Keys == ToSet(codes);
  }

  lemma TransactKeepsSound(cfg: Catalog, s: Store, txn: Txn)
    requires RolesSound(cfg, s) && TxnSound(cfg, s, txn) && Transact(cfg, s, txn).Committed?
    ensures RolesSound(cfg, Transact(cfg, s, txn).store)
  {
    hide PermissionDependency.Valid;
    match txn
    case InsertRole(id, _, codes) =>
      assert WithRows(map[], codes, {}).Keys == ToSet(codes);
    case Replace(id, version, details, codes) =>
      ReplacementKeepsSound(cfg, s.roles[id], s.permissions[id], details, codes);
    case _ =>
  }

  /** However the tables changed since the checks: a permission replacement that finds its role at the
      expected version commits exactly when the role's template protects nothing and no code is listed
      twice; otherwise it meets the unique constraint. */
  lemma ReplacementCommitsExactly(cfg: Catalog, s: Store, id: Id, version: Option<nat>, codes: seq<Code>)
    requires RolesSound(cfg, s) && TxnSound(cfg, s, Replace(id, version, None, codes))
    requires id in s.roles && !Stale(version, s.roles[id].version)
    ensures var result := Transact(cfg, s, Replace(id, version, None, codes));
      && (result.Committed? <==> ProtectedCodes(cfg, s.roles[id].roleType) == {} && Distinct(codes))
      && (!result.Committed? ==> result == RolledBack(UniqueViolation))
  {
    hide PermissionDependency.Valid;
    var row, rows := s.roles[id], s.permissions[id];
    ProtectedAreKept(cfg, row, rows, codes);
    if ProtectedCodes(cfg, row.roleType) == {} {
      assert forall c :: c in rows && rows[c] ==> c in ProtectedOf(rows);
      assert KeptRows(rows) == map[];
    }
  }

  /** So an undisturbed updatePermissions whose checks passed commits exactly then. */
  lemma UpdatePermissionsCommitsExactly(cfg: Catalog, s: Store, groups: nat, users: nat, r: Request)
    requires RolesSound(cfg, s) && r.UpdatePermissions? && Check(cfg, s, groups, users, r).Proceed?
    ensures var result := Transact(cfg, s, Check(cfg, s, groups, users, r).txn);
      && (result.Committed? <==> ProtectedCodes(cfg, s.roles[r.id].roleType) == {} && Distinct(r.codes))
      && (!result.Committed? ==> result == RolledBack(UniqueViolation))
  {
    hide RolesSound, Transact, ProtectedCodes, Distinct, Valid;
    CheckedIsSound(cfg, s, groups, users, r);
    ReplacementCommitsExactly(cfg, s, r.id, r.version, r.codes);
  }

  /** What a committed replacement stores: the role holds exactly the requested codes, none protected, under
      the requested name and description if they were given; its version has moved by one, and nothing else
      has moved. */
  lemma CommittedReplacementStoresRequest(cfg: Catalog, s: Store, txn: Txn)
    requires RolesSound(cfg, s) && txn.Replace? && TxnSound(cfg, s, txn) && Transact(cfg, s, txn).Committed?
    ensures var after := Transact(cfg, s, txn).store;
      && txn.id in s.roles && txn.id in after.roles && txn.id in after.permissions
      && (forall c :: c in after.permissions[txn.id] <==> c in txn.codes)
      && (forall c :: c in after.permissions[txn.id] ==> !after.permissions[txn.id][c])
      && after.permissions - {txn.id} == s.permissions - {txn.id} && after.roles - {txn.id} == s.roles - {txn.id}
      && after.roles[txn.id].version == s.roles[txn.id].version + 1
      && after.roles[txn.id].roleType == s.roles[txn.id].roleType && after.roles[txn.id].status == s.roles[txn.id].status
      && after.roles[txn.id].name == (if txn.newDetails.Some? then txn.newDetails.value.name else s.roles[txn.id].name)
      && after.roles[txn.id].description
         == (if txn.newDetails.Some? && txn.newDetails.value.description.Some? then txn.newDetails.value.description
             else s.roles[txn.id].description)
  {
    hide PermissionDependency.Valid;
    ReplacementKeepsSound(cfg, s.roles[txn.id], s.permissions[txn.id], txn.newDetails, txn.codes);
    hide NameTakenByOther;
  }

  /** What the other committed transactions store. */
  lemma CommittedTransactionStoresRequest(cfg: Catalog, s: Store, txn: Txn)
    requires !txn.Replace? && Transact(cfg, s, txn).Committed?
    ensures var after := Transact(cfg, s, txn).store;
      && after.roles - {txn.id} == s.roles - {txn.id} && after.permissions - {txn.id} == s.permissions - {txn.id}
      && (txn.InsertRole? ==>
            && txn.id !in s.roles && txn.id in after.roles && txn.id in after.permissions
            && after.roles[txn.id] == RoleRow(txn.details.name, txn.details.description, Custom, RoleActive, 1)
            && (forall c :: c in after.permissions[txn.id] <==> c in txn.codes)
            && (forall c :: c in after.permissions[txn.id] ==> !after.permissions[txn.id][c]))
      && (txn.SetStatus? ==>
            && txn.id in s.roles && txn.id in after.roles && after.permissions == s.permissions
            && after.roles[txn.id] == s.roles[txn.id].(status := txn.status, version := s.roles[txn.id].version + 1))
      && (txn.RenameTo? ==>
            && txn.id in s.roles && txn.id in after.roles && after.permissions == s.permissions
            && after.roles[txn.id].name == txn.newName.name
            && after.roles[txn.id].roleType == s.roles[txn.id].roleType && after.roles[txn.id].status == s.roles[txn.id].status
            && after.roles[txn.id].version == s.roles[txn.id].version + (if s.roles[txn.id].name == txn.newName.name then 0 else 1))
      && (txn.DeleteRole? ==>
            txn.id in s.roles && s.roles[txn.id].roleType.Custom? && txn.id !in after.roles && txn.id !in after.permissions)
  {
    hide NameTaken;
  }

  /** Creating and updating a custom role commit, once their checks passed, exactly when no code is
      listed twice. */
  lemma CustomWritesCommitExactly(cfg: Catalog, s: Store, groups: nat, users: nat, r: Request)
    requires RolesSound(cfg, s) && NamesUnique(s) && (r.CreateCustom? || r.UpdateCustom?)
    requires r.CreateCustom? ==> r.id !in s.roles
    requires Check(cfg, s, groups, users, r).Proceed?
    ensures var result := Transact(cfg, s, Check(cfg, s, groups, users, r).txn);
      && (result.Committed? <==> Distinct(r.codes))
      && (!result.Committed? ==> result == RolledBack(UniqueViolation))
  {
    hide PermissionDependency.Valid;
    if r.UpdateCustom? {
      var rows := s.permissions[r.id];
      assert forall c :: c in rows && rows[c] ==> c in ProtectedOf(rows);
      assert KeptRows(rows) == map[];
    }
  }

  /** A catalog with the single permission employee.view, and a role with the given type that holds it. */
  function WitnessCatalog(): Catalog {
    var code := "employee.view";
    Catalog(Graph(map[code := DependencyNode(PermissionDefinition(code, [], false), {}, {})], map[code := {}], map[code := {}]),
            map["EMPLOYEE" := map[code := true]])
  }

  function WitnessRoles(roleType: RoleType): Store {
    Store(map["role" := RoleRow("Employee", None, roleType, RoleActive, 1)],
          map["role" := map["employee.view" := roleType.System?]])
  }

  lemma WitnessCodeIsWellFormed()
    ensures PermissionDependency.WellFormed("employee.view")
  {
    var code := "employee.view";
    assert code[8] == '.' && code[..8] == "employee" && code[9..] == "view";
    assert PermissionDependency.Segment("employee") && PermissionDependency.Segment("view");
  }

  lemma WitnessIsSound()
    ensures Valid(WitnessCatalog(), {"employee.view"})
    ensures RolesSound(WitnessCatalog(), WitnessRoles(System("EMPLOYEE"))) && RolesSound(WitnessCatalog(), WitnessRoles(Custom))
  {
    var code := "employee.view";
    WitnessCodeIsWellFormed();
    hide PermissionDependency.WellFormed;
    assert (map[code := true]).Keys == {code} == (map[code := false]).Keys;
    assert ProtectedOf(map[code := true]) == {code} && ProtectedOf(map[code := false]) == {};
  }

  lemma WitnessTemplate()
    ensures ProtectedCodes(WitnessCatalog(), System("EMPLOYEE")) == {"employee.view"} == ToSet(["employee.view"])
  {
    assert WitnessCatalog().templates["EMPLOYEE"] == map["employee.view" := true];
  }

  /** The seeded EMPLOYEE role: listing exactly the codes it has passes every check and never commits. */
  lemma ProtectedRoleUpdateFails()
    ensures var cfg, s := WitnessCatalog(), WitnessRoles(System("EMPLOYEE"));
      var r := UpdatePermissions("role", Some(1), ["employee.view"], true);
      && RolesSound(cfg, s) && Check(cfg, s, 0, 0, r).Proceed?
      && Transact(cfg, s, Check(cfg, s, 0, 0, r).txn) == RolledBack(UniqueViolation)
  {
    var cfg, s := WitnessCatalog(), WitnessRoles(System("EMPLOYEE"));
    var r := UpdatePermissions("role", Some(1), ["employee.view"], true);
    WitnessIsSound();
    WitnessTemplate();
    hide Valid, RolesSound, Transact, ProtectedCodes, ToSet, WitnessCatalog, Distinct;
    assert s.roles["role"].roleType == System("EMPLOYEE") && s.roles["role"].version == 1;
    UpdatePermissionsCommitsExactly(cfg, s, 0, 0, r);
  }

  /** A custom role: listing one code twice passes every check and never commits. */
  lemma RepeatedCodeUpdateFails()
    ensures var cfg, s := WitnessCatalog(), WitnessRoles(Custom);
      var r := UpdatePermissions("role", Some(1), ["employee.view", "employee.view"], true);
      && RolesSound(cfg, s) && Check(cfg, s, 0, 0, r).Proceed?
      && Transact(cfg, s, Check(cfg, s, 0, 0, r).txn) == RolledBack(UniqueViolation)
  {
    var cfg, s := WitnessCatalog(), WitnessRoles(Custom);
    var r := UpdatePermissions("role", Some(1), ["employee.view", "employee.view"], true);
    WitnessIsSound();
    hide Valid, RolesSound, Transact;
    assert ToSet(r.codes) == {"employee.view"};
    assert r.codes[0] == r.codes[1];
    UpdatePermissionsCommitsExactly(cfg, s, 0, 0, r);
  }

  // --- interleavings ---

  type Actor = nat

  /** A committed change of a role's version. */
  datatype Change = Change(id: Id, expected: Option<nat>, before: nat, after: nat)

  /** pending holds the transactions of calls that passed their checks; used holds every id ever given
      to a role; history is the committed version changes, in order. */
  datatype State = State(store: Store, pending: map<Actor, Txn>, used: set<Id>, history: seq<Change>)

  datatype Step =
    | Begin(actor: Actor, request: Request, groups: nat, users: nat)
    | Commit(actor: Actor)
    | Abandon(actor: Actor)

  function Expected(txn: Txn): Option<nat> {
    if txn.Replace? || txn.SetStatus? then txn.version else None
  }

  /** What a committed transaction adds to the history. */
  function Changes(before: Store, after: Store, txn: Txn): seq<Change> {
    if txn.id in before.roles && txn.id in after.roles && after.roles[txn.id].version != before.roles[txn.id].version then
      [Change(txn.id, Expected(txn), before.roles[txn.id].version, after.roles[txn.id].version)]
    else []
  }

  function BeginState(cfg: Catalog, s: State, actor: Actor, r: Request, groups: nat, users: nat): State {
    var checked := Check(cfg, s.store, groups, users, r);
    if !checked.Proceed? then s
    else s.(pending := s.pending[actor := checked.txn], used := s.used + {checked.txn.id})
  }

  function CommitState(cfg: Catalog, s: State, actor: Actor): State
    requires actor in s.pending
  {
    match Transact(cfg, s.store, s.pending[actor])
    case Committed(store) =>
      State(store, s.pending - {actor}, s.used, s.history + Changes(s.store, store, s.pending[actor]))
    case RolledBack(_) => s.(pending := s.pending - {actor})
  }

  /** New roles get ids that were never used. */
  predicate Enabled(s: State, step: Step) {
    match step
    case Begin(actor, r, _, _) =>
      && actor !in s.pending && WellRead(s.store, r)
      && (if r.CreateCustom? || r.Copy? then r.id !in s.used else r.id in s.used)
    case Commit(actor) => actor in s.pending
    case Abandon(actor) => actor in s.pending
  }

  function Next(cfg: Catalog, s: State, step: Step): State {
    if !Enabled(s, step) then s
    else match step
      case Begin(actor, r, groups, users) => BeginState(cfg, s, actor, r, groups, users)
      case Commit(actor) => CommitState(cfg, s, actor)
      case Abandon(actor) => s.(pending := s.pending - {actor})
  }

  function Run(cfg: Catalog, s: State, steps: seq<Step>): State {
    if steps == [] then s else Next(cfg, Run(cfg, s, steps[..|steps| - 1]), steps[|steps| - 1])
  }

  /** A seeded store, before any call. */
  function Start(store: Store): State {
    State(store, map[], store.roles.Keys, [])
  }

  function CountOf(history: seq<Change>, id: Id): nat {
    if history == [] then 0
    else CountOf(history[..|history| - 1], id) + if history[|history| - 1].id == id then 1 else 0
  }

  function Base(seeded: Store, id: Id): nat {
    if id in seeded.roles then seeded.roles[id].version else 1
  }

  /** A change moves its role from the version that the changes before it had reached, to the next,
      and from the expected version if one was given. */
  ghost predicate ChangeFollows(seeded: Store, history: seq<Change>, i: nat)
    requires i < |history|
  {
    && history[i].before == Base(seeded, history[i].id) + CountOf(history[..i], history[i].id)
    && history[i].after == history[i].before + 1
    && (history[i].expected.Some? ==> history[i].expected.value == history[i].before)
  }

  /** A role's version counts its committed changes. */
  ghost predicate VersionsCount(seeded: Store, s: State) {
    && (forall id :: id in s.store.roles ==> s.store.roles[id].version == Base(seeded, id) + CountOf(s.history, id))
    && (forall i :: 0 <= i < |s.history| ==> ChangeFollows(seeded, s.history, i))
  }

  predicate Unborn(s: State, id: Id) {
    id !in s.store.roles && CountOf(s.history, id) == 0
  }

  /** Ids in use are known, and an id about to be inserted has no past and one call only. */
  ghost predicate IdsFresh(seeded: Store, s: State) {
    && s.store.roles.Keys <= s.used && seeded.roles.Keys <= s.used
    && (forall i :: 0 <= i < |s.history| ==> s.history[i].id in s.used)
    && (forall a :: a in s.pending && s.pending[a].InsertRole? ==>
          s.pending[a].id in s.used && s.pending[a].id !in seeded.roles && Unborn(s, s.pending[a].id))
    && (forall a, b :: a in s.pending && b in s.pending && a != b && s.pending[a].InsertRole? && s.pending[b].InsertRole? ==>
          s.pending[a].id != s.pending[b].id)
  }

  ghost predicate PendingSound(cfg: Catalog, s: State) {
    forall a :: a in s.pending ==> TxnSound(cfg, s.store, s.pending[a])
  }

  ghost predicate Inv(cfg: Catalog, seeded: Store, s: State) {
    RolesSound(cfg, s.store) && PendingSound(cfg, s) && IdsFresh(seeded, s) && VersionsCount(seeded, s)
  }

  /** How one transaction can move a store: types never change, and versions move by one, from the
      expected version. */
  ghost predicate Moves(before: Store, after: Store, txn: Txn) {
    && (txn.InsertRole? <==> txn.id !in before.roles)
    && (forall id :: id in after.roles && id in before.roles ==> after.roles[id].roleType == before.roles[id].roleType)
    && (forall id :: id in after.roles && id !in before.roles ==>
          txn.InsertRole? && id == txn.id && after.roles[id].roleType.Custom? && after.roles[id].version == 1)
    && (forall id :: id in after.roles && id in before.roles && id != txn.id ==> after.roles[id] == before.roles[id])
    && (txn.id in after.roles && txn.id in before.roles ==>
          after.roles[txn.id].version == before.roles[txn.id].version
          || (after.roles[txn.id].version == before.roles[txn.id].version + 1 && !Stale(Expected(txn), before.roles[txn.id].version)))
  }

  lemma TransactMoves(cfg: Catalog, s: Store, txn: Txn)
    requires Transact(cfg, s, txn).Committed?
    ensures Moves(s, Transact(cfg, s, txn).store, txn)
  {
    hide Insertable, WithRows, KeptRows, NameTaken, NameTakenByOther;
  }

  lemma CountOfAppend(history: seq<Change>, c: Change, id: Id)
    ensures CountOf(history + [c], id) == CountOf(history, id) + if c.id == id then 1 else 0
  {
    assert (history + [c])[..|history|] == history;
  }

  lemma VersionsCountStep(cfg: Catalog, seeded: Store, s: State, step: Step)
    requires IdsFresh(seeded, s) && VersionsCount(seeded, s)
    ensures VersionsCount(seeded, Next(cfg, s, step))
  {
    hide Transact, Check;
    if Enabled(s, step) && step.Commit? && Transact(cfg, s.store, s.pending[step.actor]).Committed? {
      var txn, t := s.pending[step.actor], Next(cfg, s, step);
      TransactMoves(cfg, s.store, txn);
      var changes := Changes(s.store, t.store, txn);
      if changes != [] {
        HistoryGrows(seeded, s.history, changes[0]);
        forall id: Id ensures CountOf(t.history, id) == CountOf(s.history, id) + if changes[0].id == id then 1 else 0 {
          CountOfAppend(s.history, changes[0], id);
        }
      } else {
        assert t.history == s.history;
      }
    }
  }

  lemma HistoryGrows(seeded: Store, history: seq<Change>, c: Change)
    requires forall i :: 0 <= i < |history| ==> ChangeFollows(seeded, history, i)
    requires c.before == Base(seeded, c.id) + CountOf(history, c.id) && c.after == c.before + 1
    requires c.expected.Some? ==> c.expected.value == c.before
    ensures forall i :: 0 <= i < |history + [c]| ==> ChangeFollows(seeded, history + [c], i)
  {
    var longer := history + [c];
    forall i | 0 <= i < |longer| ensures ChangeFollows(seeded, longer, i) {
      if i < |history| {
        assert longer[..i] == history[..i] && ChangeFollows(seeded, history, i);
      } else {
        assert longer[..i] == history;
      }
    }
  }

  lemma IdsFreshStep(cfg: Catalog, seeded: Store, s: State, step: Step)
    requires IdsFresh(seeded, s)
    ensures IdsFresh(seeded, Next(cfg, s, step))
  {
    hide Transact, CountOf;
    if Enabled(s, step) && step.Commit? {
      hide Check;
      if Transact(cfg, s.store, s.pending[step.actor]).Committed? {
        var txn, t := s.pending[step.actor], Next(cfg, s, step);
        TransactMoves(cfg, s.store, txn);
        forall id: Id | id != txn.id ensures CountOf(t.history, id) == CountOf(s.history, id) {
          if Changes(s.store, t.store, txn) != [] {
            CountOfAppend(s.history, Changes(s.store, t.store, txn)[0], id);
          } else {
            assert t.history == s.history;
          }
        }
      }
    } else if Enabled(s, step) && step.Begin? {
      hide Valid, ToSet, NameTaken, NameTakenByOther;
      UnusedIsUnborn(s.history, s.used);
    }
  }

  lemma {:induction false} UnusedIsUnborn(history: seq<Change>, used: set<Id>)
    requires forall i :: 0 <= i < |history| ==> history[i].id in used
    ensures forall id :: id !in used ==> CountOf(history, id) == 0
  {
    if history != [] {
      UnusedIsUnborn(history[..|history| - 1], used);
    }
  }

  lemma SoundTxnStaysSound(cfg: Catalog, before: Store, after: Store, txn: Txn, other: Txn)
    requires Moves(before, after, txn) && TxnSound(cfg, before, other)
    ensures TxnSound(cfg, after, other)
  {
    hide Valid, ToSet;
    if other.Replace? && other.id in after.roles && other.id !in before.roles {
      assert after.roles[other.id].roleType.Custom?;
    }
  }

  lemma PendingSoundStep(cfg: Catalog, s: State, step: Step)
    requires RolesSound(cfg, s.store) && PendingSound(cfg, s)
    ensures PendingSound(cfg, Next(cfg, s, step))
  {
    hide Transact, TxnSound, RolesSound, Check;
    var t := Next(cfg, s, step);
    if Enabled(s, step) {
      match step
      case Begin(actor, r, groups, users) =>
        if Check(cfg, s.store, groups, users, r).Proceed? {
          CheckedIsSound(cfg, s.store, groups, users, r);
        }
      case Commit(actor) =>
        if Transact(cfg, s.store, s.pending[actor]).Committed? {
          TransactMoves(cfg, s.store, s.pending[actor]);
          forall a | a in t.pending ensures TxnSound(cfg, t.store, t.pending[a]) {
            SoundTxnStaysSound(cfg, s.store, t.store, s.pending[actor], s.pending[a]);
          }
        }
      case Abandon(_) =>
    }
  }

  lemma RolesSoundStep(cfg: Catalog, s: State, step: Step)
    requires RolesSound(cfg, s.store) && PendingSound(cfg, s)
    ensures RolesSound(cfg, Next(cfg, s, step).store)
  {
    hide Transact, TxnSound, RolesSound, Check;
    if Enabled(s, step) && step.Commit? && Transact(cfg, s.store, s.pending[step.actor]).Committed? {
      TransactKeepsSound(cfg, s.store, s.pending[step.actor]);
    }
  }

  lemma {:induction false} RunsKeepInv(cfg: Catalog, seeded: Store, steps: seq<Step>)
    requires RolesSound(cfg, seeded)
    ensures Inv(cfg, seeded, Run(cfg, Start(seeded), steps))
  {
    hide RolesSound, Next;
    if steps != [] {
      var s, step := Run(cfg, Start(seeded), steps[..|steps| - 1]), steps[|steps| - 1];
      RunsKeepInv(cfg, seeded, steps[..|steps| - 1]);
      RolesSoundStep(cfg, s, step);
      PendingSoundStep(cfg, s, step);
      IdsFreshStep(cfg, seeded, s, step);
      VersionsCountStep(cfg, seeded, s, step);
    }
  }

  // --- what the interleavings guarantee ---

  lemma {:induction false} CountGrows(history: seq<Change>, i: nat, k: nat)
    requires i < k <= |history|
    ensures CountOf(history[..i], history[i].id) < CountOf(history[..k], history[i].id)
    decreases k
  {
    assert history[..k][..k - 1] == history[..k - 1];
    if i < k - 1 {
      CountGrows(history, i, k - 1);
    }
  }

  /** No lost update: in every interleaving of role operations, at most one committed call carried a
      given version of a role, and it moved the role from that version to the next. */
  lemma NoLostUpdate(cfg: Catalog, seeded: Store, steps: seq<Step>, i: nat, k: nat)
    requires RolesSound(cfg, seeded)
    requires var history := Run(cfg, Start(seeded), steps).history;
      && i <= k < |history| && history[i].id == history[k].id
      && history[i].expected.Some? && history[i].expected == history[k].expected
    ensures var history := Run(cfg, Start(seeded), steps).history;
      i == k && history[i].before == history[i].expected.value && history[i].after == history[i].expected.value + 1
  {
    hide Run, RolesSound;
    RunsKeepInv(cfg, seeded, steps);
    var history := Run(cfg, Start(seeded), steps).history;
    assert ChangeFollows(seeded, history, i) && ChangeFollows(seeded, history, k);
    if i < k {
      CountGrows(history, i, k);
    }
  }

  /** A custom role never holds a protected row, and every role's codes are a set the validator accepts. */
  lemma StoredRolesStaySound(cfg: Catalog, seeded: Store, steps: seq<Step>, id: Id)
    requires RolesSound(cfg, seeded) && id in Run(cfg, Start(seeded), steps).store.roles
    ensures var s := Run(cfg, Start(seeded), steps).store;
      && id in s.permissions && Valid(cfg, s.permissions[id].Keys)
      && (s.roles[id].roleType.Custom? ==> ProtectedOf(s.permissions[id]) == {})
      && s.roles[id].version == Base(seeded, id) + CountOf(Run(cfg, Start(seeded), steps).history, id)
  {
    hide Run, Valid;
    RunsKeepInv(cfg, seeded, steps);
  }

  // --- names and system roles ---

  ghost predicate NamesUnique(s: Store) {
    forall a, b :: a in s.roles && b in s.roles && a != b ==> s.roles[a].name != s.roles[b].name
  }

  /** Seeded system roles are still there, and an administrator role that was active still is. */
  ghost predicate SystemRolesKept(seeded: Store, s: Store) {
    forall id :: id in seeded.roles && seeded.roles[id].roleType.System? ==>
      && id in s.roles && s.roles[id].roleType == seeded.roles[id].roleType
      && (seeded.roles[id].roleType == System(ADMINISTRATOR) && seeded.roles[id].status.RoleActive? ==> s.roles[id].status.RoleActive?)
  }

  lemma TransactKeepsNames(cfg: Catalog, s: Store, txn: Txn)
    requires NamesUnique(s) && Transact(cfg, s, txn).Committed?
    ensures NamesUnique(Transact(cfg, s, txn).store)
  {
    hide Insertable, WithRows, KeptRows;
  }

  lemma TransactKeepsSystemRoles(cfg: Catalog, seeded: Store, s: Store, txn: Txn)
    requires SystemRolesKept(seeded, s) && TxnSound(cfg, s, txn) && Transact(cfg, s, txn).Committed?
    ensures SystemRolesKept(seeded, Transact(cfg, s, txn).store)
  {
    hide Insertable, WithRows, KeptRows, NameTaken, NameTakenByOther, Valid;
  }

  /** Over every interleaving no two roles share a name, no system role disappears, and an active
      administrator role stays active. */
  lemma {:induction false} NamesAndSystemRolesStay(cfg: Catalog, seeded: Store, steps: seq<Step>)
    requires RolesSound(cfg, seeded) && NamesUnique(seeded)
    ensures NamesUnique(Run(cfg, Start(seeded), steps).store)
    ensures SystemRolesKept(seeded, Run(cfg, Start(seeded), steps).store)
  {
    if steps != [] {
      var s, step := Run(cfg, Start(seeded), steps[..|steps| - 1]), steps[|steps| - 1];
      NamesAndSystemRolesStay(cfg, seeded, steps[..|steps| - 1]);
      RunsKeepInv(cfg, seeded, steps[..|steps| - 1]);
      hide RolesSound, Transact, NamesUnique, SystemRolesKept, TxnSound, Check, IdsFresh, VersionsCount;
      if Enabled(s, step) && step.Commit? && Transact(cfg, s.store, s.pending[step.actor]).Committed? {
        TransactKeepsNames(cfg, s.store, s.pending[step.actor]);
        TransactKeepsSystemRoles(cfg, seeded, s.store, s.pending[step.actor]);
      }
    }
  }
}
