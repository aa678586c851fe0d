/** UserGroupPopulationQueryService: previewing what a changed rule would do to a group. */
module PopulationPreview {
  import opened JavaScript
  import opened MatchingRules
  import opened Sql
  import opened RuleTranslation
  import opened EffectiveRoles
  import opened EffectiveRoleTable
  import opened AuthorizationStore
  import opened MembershipReconciler
  import opened ReconciliationWorker

  datatype Impact = Impact(currentCount: nat, proposedCount: nat, gainingCount: nat, losingCount: nat)

  datatype PreviewResult = Preview(impact: Impact) | GroupNotFound | InvalidRule(error: RuleError) | QueryRejected

  /** One of the two counting loops: how many of these are not among those. */
  method CountMissing(these: set<Id>, those: set<Id>) returns (count: nat)
    ensures count == |these - those|
  {
    count := 0;
    var todo := these;
    while todo != {}
      invariant todo <= these && count == |(these - todo) - those|
    {
      var empId :| empId in todo;
      CheckedOneMore(these, todo, those, empId);
      todo := todo - {empId};
      if empId !in those {
        count := count + 1;
      }
    }
    assert these - {} == these;
  }

  /** estimateCriteriaDiff. */
  method EstimateCriteriaDiff(db: Database, tenantCode: string, groupId: Id, proposedRule: Rule) returns (r: PreviewResult)
    ensures r.GroupNotFound? <==> groupId !in db.groups
    ensures r.InvalidRule? <==> groupId in db.groups && !RuleOk(proposedRule)
    ensures r.Preview? ==>
      var members := MembersOf(db.View(), groupId);
      var proposed := SelectedIds(db.employees, Translate(tenantCode, proposedRule.clauses));
      r.impact == Impact(|members|, |proposed|, |proposed - members|, |members - proposed|)
    ensures r.QueryRejected? <==>
      groupId in db.groups && RuleOk(proposedRule) && RejectsQuery(db.employees, Translate(tenantCode, proposedRule.clauses))
  {
    hide SelectedIds, RejectsQuery, Translate;
    if groupId !in db.groups {
      return GroupNotFound;
    }
    var validation := Validate(proposedRule);
    if validation.Invalid? {
      return InvalidRule(validation.error);
    }
    var currentSet := set m | m in db.memberships && m.1 == groupId :: m.0;
    assert currentSet == MembersOf(db.View(), groupId);
    var query := BuildMatchingQuery(tenantCode, proposedRule);
    var proposedMemberIds := GetMatchedEmployeeIds(db, query);
    if proposedMemberIds.None? {
      return QueryRejected;
    }
    var proposedSet := ToSet(proposedMemberIds.value);
    var gainingCount := CountMissing(proposedSet, currentSet);
    var losingCount := CountMissing(currentSet, proposedSet);
    return Preview(Impact(|currentSet|, |proposedSet|, gainingCount, losingCount));
  }

  lemma GainAndLossBalance(members: set<Id>, proposed: set<Id>)
    ensures |proposed| == |members| + |proposed - members| - |members - proposed|
  {
    assert proposed == (proposed - members) + (proposed * members);
    assert members == (members - proposed) + (proposed * members);
  }

  lemma MembersAfterReconciliation(memberships: set<(Id, Id)>, groupId: Id, matched: set<Id>, db: Db)
    requires db.memberships == WithMembers(memberships, groupId, matched)
    ensures MembersOf(db, groupId) == matched
  {
    forall u ensures u in MembersOf(db, groupId) <==> u in matched {
      if u in matched {
        assert (u, groupId) in db.memberships;
      }
    }
  }

  /** The preview predicts the action: run on the same population, reconciliation adds and removes
      as many members as the preview said, and the group ends with the previewed size. */
  method PreviewThenReconcile(db: Database, roles: EffectiveRoleRepository, tenantCode: string, groupId: Id, rule: Rule, version: nat)
    returns (preview: PreviewResult, result: GroupResult)
    requires roles.Valid()
    modifies db`memberships, db`groups, roles
    ensures preview.Preview? ==>
      && preview.impact.gainingCount == |result.addedEmployeeIds|
      && preview.impact.losingCount == |result.removedEmployeeIds|
      && preview.impact.gainingCount + preview.impact.losingCount == result.totalAffected
      && |MembersOf(db.View(), groupId)| == preview.impact.proposedCount
      && preview.impact.proposedCount
         == |MembersOf(old(db.View()), groupId)| + preview.impact.gainingCount - preview.impact.losingCount
  {
    hide SelectedIds, RejectsQuery, Translate, WithMembers, MembersOf, Recomputed;
    preview := EstimateCriteriaDiff(db, tenantCode, groupId, rule);
    result := GroupResult([], [], 0);
    if preview.Preview? {
      var q := BuildMatchingQuery(tenantCode, rule);
      var matched := GetMatchedEmployeeIds(db, q);
      GainAndLossBalance(MembersOf(db.View(), groupId), ToSet(matched.value));
      result := ReconcileGroupPopulation(db, roles, groupId, matched.value, version);
      MembersAfterReconciliation(old(db.memberships), groupId, ToSet(matched.value), db.View());
    }
  }
}
