/** UserGroupMatchingEngine, second half: buildMatchingQuery, and what its result means. */
module RuleTranslation {
  import opened JavaScript
  import opened MatchingRules
  import opened RuleEvaluation
  import opened Sql

  /** What one clause pushes: at most one condition and at most one parameter. */
  datatype Emitted = Emitted(conditions: seq<Condition>, params: seq<Param>)

  function ComparisonOf(op: Operator): Comparison {
    match op
    case Gt | GreaterThan => Greater
    case Gte | GreaterThanOrEqual => GreaterEqual
    case Lt | LessThan => Smaller
    case Lte | LessThanOrEqual => SmallerEqual
    case _ => Equal
  }

  /** The switch on the operator, for a mapped column; the next placeholder is $n. */
  function EmitOperator(column: Column, op: Operator, value: Value, values: Option<seq<Value>>, n: nat): Emitted {
    var list := if values.Some? then values.value else [];
    match op
    case Eq | Equals => Emitted([Compare(column, Equal, Placeholder(n))], [Scalar(value)])
    case Neq | NotEquals =>
      Emitted([Or(IsNull(column), Compare(column, NotEqual, Placeholder(n)))], [Scalar(value)])
    case In => Emitted([EqualsAny(column, n)], [List(list)])
    case NotIn => Emitted([Or(IsNull(column), Not(EqualsAny(column, n)))], [List(list)])
    case Exists => Emitted([And(Not(IsNull(column)), Compare(column, NotEqual, TextLiteral("")))], [])
    case IsTrue | IsFalse | Unsupported => Emitted([], [])
    case _ => Emitted([Compare(column, ComparisonOf(op), Placeholder(n))], [Scalar(value)])
  }

  /** The translation of one clause when n - 1 parameters are already pushed. */
  function EmitParsed(a: Attribute, op: Operator, value: Value, values: Option<seq<Value>>, n: nat): Emitted {
    match a
    case HasReportees =>
      if op.IsTrue? || (op.Eq? && value == Bool(true)) then
        Emitted([Compare(ReporteesCountColumn, Greater, IntLiteral(0))], [])
      else if op.IsFalse? || (op.Eq? && value == Bool(false)) then
        Emitted([Compare(ReporteesCountColumn, Equal, IntLiteral(0))], [])
      else Emitted([], [])
    case Text(column) => EmitOperator(TextField(column), op, value, values, n)
    case ReporteesCount => EmitOperator(ReporteesCountColumn, op, value, values, n)
    case Other(_) => Emitted([], [])
  }

  function Emit(c: Clause, n: nat): Emitted {
    if c.attribute == "" then Emitted([], []) else EmitParsed(AttributeIn(c), OperatorIn(c), c.value, c.values, n)
  }

  /** The query for a list of clauses, clause by clause. */
  function Translate(tenantCode: string, clauses: seq<Clause>): Query {
    if clauses == [] then Query([Compare(TenantCodeColumn, Equal, Placeholder(1))], [Scalar(Str(tenantCode))])
    else
      var q := Translate(tenantCode, clauses[..|clauses| - 1]);
      var emitted := Emit(clauses[|clauses| - 1], |q.params| + 1);
      Query(q.conditions + emitted.conditions, q.params + emitted.params)
  }

  /** buildMatchingQuery. */
  method BuildMatchingQuery(tenantCode: string, r: Rule) returns (q: Query)
    ensures q == Translate(tenantCode, r.clauses)
  {
    var params := [Scalar(Str(tenantCode))];
    var conditions := [Compare(TenantCodeColumn, Equal, Placeholder(1))];
    for i := 0 to |r.clauses|
      invariant Query(conditions, params) == Translate(tenantCode, r.clauses[..i])
    {
      var clause := r.clauses[i];
      assert r.clauses[..i + 1][..i] == r.clauses[..i];
      if clause.attribute == "" {
        continue;
      }
      var op := OperatorIn(clause);
      var attribute := AttributeIn(clause);
      if attribute.HasReportees? {
        if op.IsTrue? || (op.Eq? && clause.value == Bool(true)) {
          conditions := conditions + [Compare(ReporteesCountColumn, Greater, IntLiteral(0))];
        } else if op.IsFalse? || (op.Eq? && clause.value == Bool(false)) {
          conditions := conditions + [Compare(ReporteesCountColumn, Equal, IntLiteral(0))];
        }
        continue;
      }
      if attribute.Other? {
        continue;
      }
      var column := if attribute.ReporteesCount? then ReporteesCountColumn else TextField(attribute.column);
      conditions, params := PushOperator(column, op, clause, conditions, params);
    }
    assert r.clauses[..|r.clauses|] == r.clauses;
    q := Query(conditions, params);
  }

  /** The switch: push the clause's parameter, then a condition naming its position. */
  method PushOperator(column: Column, op: Operator, clause: Clause, conditions0: seq<Condition>, params0: seq<Param>)
    returns (conditions: seq<Condition>, params: seq<Param>)
    ensures var emitted := EmitOperator(column, op, clause.value, clause.values, |params0| + 1);
      conditions == conditions0 + emitted.conditions && params == params0 + emitted.params
  {
    conditions, params := conditions0, params0;
    match op {
      case Eq | Equals =>
        params := params + [Scalar(clause.value)];
        conditions := conditions + [Compare(column, Equal, Placeholder(|params|))];
      case Neq | NotEquals =>
        params := params + [Scalar(clause.value)];
        conditions := conditions + [Or(IsNull(column), Compare(column, NotEqual, Placeholder(|params|)))];
      case In =>
        params := params + [List(if clause.values.Some? then clause.values.value else [])];
        conditions := conditions + [EqualsAny(column, |params|)];
      case NotIn =>
        params := params + [List(if clause.values.Some? then clause.values.value else [])];
        conditions := conditions + [Or(IsNull(column), Not(EqualsAny(column, |params|)))];
      case Gt | GreaterThan =>
        params := params + [Scalar(clause.value)];
        conditions := conditions + [Compare(column, Greater, Placeholder(|params|))];
      case Gte | GreaterThanOrEqual =>
        params := params + [Scalar(clause.value)];
        conditions := conditions + [Compare(column, GreaterEqual, Placeholder(|params|))];
      case Lt | LessThan =>
        params := params + [Scalar(clause.value)];
        conditions := conditions + [Compare(column, Smaller, Placeholder(|params|))];
      case Lte | LessThanOrEqual =>
        params := params + [Scalar(clause.value)];
        conditions := conditions + [Compare(column, SmallerEqual, Placeholder(|params|))];
      case Exists =>
        conditions := conditions + [And(Not(IsNull(column)), Compare(column, NotEqual, TextLiteral("")))];
      case IsTrue | IsFalse | Unsupported =>
    }
  }

  /** What a clause's own condition says of a row, with its own parameter in hand. */
  function ClauseTruth(c: Clause, e: Employee): Truth {
    var emitted := Emit(c, 1);
    EvalAll(emitted.conditions, emitted.params, e)
  }

  /** The two halves of the engine agree on this clause and row. */
  predicate Agrees(c: Clause, e: Employee) {
    ClauseTruth(c, e) != Failed && (ClauseTruth(c, e) == True <==> EvaluateClause(c, e))
  }

  lemma OperatorPointsAtOwnParam(column: Column, op: Operator, value: Value, values: Option<seq<Value>>,
                                 before: seq<Param>, after: seq<Param>, e: Employee)
    ensures var emitted, own := EmitOperator(column, op, value, values, |before| + 1), EmitOperator(column, op, value, values, 1);
      && emitted.params == own.params
      && |emitted.conditions| == |own.conditions| <= 1
      && (emitted.conditions != [] ==>
            && PlaceholdersWithin(emitted.conditions[0], |before|, |before| + |own.params|)
            && Eval(emitted.conditions[0], before + own.params + after, e) == Eval(own.conditions[0], own.params, e))
  {
    var own := EmitOperator(column, op, value, values, 1).params;
    var all, n := before + own + after, |before| + 1;
    if own != [] {
      assert all[|before|] == own[0];
      assert OperandValue(Placeholder(n), column, all) == OperandValue(Placeholder(1), column, own);
      assert Eval(EqualsAny(column, n), all, e) == Eval(EqualsAny(column, 1), own, e);
      assert Eval(Not(EqualsAny(column, n)), all, e) == Eval(Not(EqualsAny(column, 1)), own, e);
    } else if op.Exists? {
      var c := EmitOperator(column, op, value, values, n).conditions[0];
      assert Eval(c.left, all, e) == Eval(c.left, own, e);
    }
  }

  lemma SingleCondition(c: Condition, params: seq<Param>, e: Employee)
    ensures EvalAll([c], params, e) == Eval(c, params, e)
  {
    assert [c][..0] == [];
  }

  lemma ParsedPointsAtOwnParam(a: Attribute, op: Operator, value: Value, values: Option<seq<Value>>,
                               before: seq<Param>, after: seq<Param>, e: Employee)
    ensures var emitted, own := EmitParsed(a, op, value, values, |before| + 1), EmitParsed(a, op, value, values, 1);
      && emitted.params == own.params
      && |emitted.conditions| == |own.conditions| <= 1
      && (emitted.conditions != [] ==>
            && PlaceholdersWithin(emitted.conditions[0], |before|, |before| + |own.params|)
            && Eval(emitted.conditions[0], before + own.params + after, e) == Eval(own.conditions[0], own.params, e))
  {
    if a.Text? || a.ReporteesCount? {
      hide EmitOperator;
      var column := if a.Text? then TextField(a.column) else ReporteesCountColumn;
      OperatorPointsAtOwnParam(column, op, value, values, before, after, e);
    }
  }

  /** Wherever a clause stands in the rule, its condition points at its own parameter. */
  lemma PlaceholderPointsAtOwnParam(c: Clause, before: seq<Param>, after: seq<Param>, e: Employee)
    ensures var emitted := Emit(c, |before| + 1);
      && emitted.params == Emit(c, 1).params
      && (forall i :: 0 <= i < |emitted.conditions| ==>
            PlaceholdersWithin(emitted.conditions[i], |before|, |before| + |emitted.params|))
      && EvalAll(emitted.conditions, before + emitted.params + after, e) == ClauseTruth(c, e)
  {
    hide EmitParsed, Eval, PlaceholdersWithin;
    ParsedPointsAtOwnParam(AttributeIn(c), OperatorIn(c), c.value, c.values, before, after, e);
    hide AttributeIn, OperatorIn;
    var emitted, own := Emit(c, |before| + 1), Emit(c, 1);
    if emitted.conditions != [] {
      assert emitted.conditions == [emitted.conditions[0]] && own.conditions == [own.conditions[0]];
      SingleCondition(emitted.conditions[0], before + emitted.params + after, e);
      SingleCondition(own.conditions[0], own.params, e);
    }
  }

  /** Three-valued conjunction of a list. */
  function ConjAll(ts: seq<Truth>): Truth {
    if ts == [] then True else Conj(ConjAll(ts[..|ts| - 1]), ts[|ts| - 1])
  }

  lemma {:induction false} ConjAllMeaning(ts: seq<Truth>)
    ensures ConjAll(ts) == Failed <==> Failed in ts
    ensures ConjAll(ts) == True <==> forall i :: 0 <= i < |ts| ==> ts[i] == True
  {
    if ts != [] {
      var shorter := ts[..|ts| - 1];
      ConjAllMeaning(shorter);
      assert ts == shorter + [ts[|ts| - 1]];
      assert forall i :: 0 <= i < |shorter| ==> ts[i] == shorter[i];
    }
  }

  /** Each clause's own condition, on one row. */
  function ClauseTruths(clauses: seq<Clause>, e: Employee): (ts: seq<Truth>)
    ensures |ts| == |clauses| && forall i :: 0 <= i < |ts| ==> ts[i] == ClauseTruth(clauses[i], e)
  {
    seq(|clauses|, i requires 0 <= i < |clauses| => ClauseTruth(clauses[i], e))
  }

  lemma {:induction false} EvalAllAppend(cs: seq<Condition>, ds: seq<Condition>, params: seq<Param>, e: Employee)
    ensures EvalAll(cs + ds, params, e) == Conj(EvalAll(cs, params, e), EvalAll(ds, params, e))
  {
    if ds == [] {
      assert cs + ds == cs;
    } else {
      EvalAllAppend(cs, ds[..|ds| - 1], params, e);
      assert (cs + ds)[..|cs + ds| - 1] == cs + ds[..|ds| - 1];
    }
  }

  /** Placeholders stay in range, and earlier conditions keep their meaning, when a clause is pushed. */
  lemma PushKeepsMeaning(p: Query, emitted: Emitted, t: Truth, e: Employee)
    requires forall i :: 0 <= i < |p.conditions| ==> PlaceholdersWithin(p.conditions[i], 0, |p.params|)
    requires forall i :: 0 <= i < |emitted.conditions| ==>
      PlaceholdersWithin(emitted.conditions[i], |p.params|, |p.params| + |emitted.params|)
    requires EvalAll(emitted.conditions, p.params + emitted.params + [], e) == t
    ensures forall i :: 0 <= i < |p.conditions + emitted.conditions| ==>
      PlaceholdersWithin((p.conditions + emitted.conditions)[i], 0, |p.params + emitted.params|)
    ensures EvalAll(p.conditions + emitted.conditions, p.params + emitted.params, e)
      == Conj(EvalAll(p.conditions, p.params, e), t)
  {
    WidenPlaceholders(p, emitted, |p.params|);
    EvalAllIgnoresLaterParams(p.conditions, p.params, emitted.params, e);
    EvalAllAppend(p.conditions, emitted.conditions, p.params + emitted.params, e);
    assert p.params + emitted.params + [] == p.params + emitted.params;
  }

  lemma ConjAssociates(a: Truth, b: Truth, c: Truth)
    ensures Conj(Conj(a, b), c) == Conj(a, Conj(b, c))
  {
  }

  /** The query so far means this much. */
  ghost predicate Means(q: Query, t: Truth, e: Employee) {
    && (forall i :: 0 <= i < |q.conditions| ==> PlaceholdersWithin(q.conditions[i], 0, |q.params|))
    && EvalAll(q.conditions, q.params, e) == t
  }

  lemma MeansStep(p: Query, c: Clause, tenant: Truth, shorter: Truth, e: Employee)
    requires Means(p, Conj(tenant, shorter), e)
    ensures var emitted := Emit(c, |p.params| + 1);
      Means(Query(p.conditions + emitted.conditions, p.params + emitted.params), Conj(tenant, Conj(shorter, ClauseTruth(c, e))), e)
  {
    hide Emit, ClauseTruth, EvalAll, PlaceholdersWithin, Conj;
    PlaceholderPointsAtOwnParam(c, p.params, [], e);
    PushKeepsMeaning(p, Emit(c, |p.params| + 1), ClauseTruth(c, e), e);
    ConjAssociates(tenant, shorter, ClauseTruth(c, e));
  }

  lemma EmptyQueryMeaning(tenantCode: string, e: Employee)
    ensures Means(Translate(tenantCode, []), Conj(Decide(e.tenantCode == tenantCode), ConjAll(ClauseTruths([], e))), e)
  {
    var q := Translate(tenantCode, []);
    SingleCondition(q.conditions[0], q.params, e);
  }

  /** The generated query means: this tenant, and every clause's own condition. */
  lemma {:induction false} QueryMeaning(tenantCode: string, clauses: seq<Clause>, e: Employee)
    ensures Means(Translate(tenantCode, clauses), Conj(Decide(e.tenantCode == tenantCode), ConjAll(ClauseTruths(clauses, e))), e)
  {
    var tenant := Decide(e.tenantCode == tenantCode);
    if clauses == [] {
      EmptyQueryMeaning(tenantCode, e);
    } else {
      hide Means, Emit, ClauseTruth, EvalAll, Conj;
      var shorter, last := clauses[..|clauses| - 1], clauses[|clauses| - 1];
      QueryMeaning(tenantCode, shorter, e);
      MeansStep(Translate(tenantCode, shorter), last, tenant, ConjAll(ClauseTruths(shorter, e)), e);
      assert ClauseTruths(clauses, e)[..|clauses| - 1] == ClauseTruths(shorter, e);
    }
  }

  lemma {:induction false} WiderRange(c: Condition, from: nat, to: nat, from2: nat, to2: nat)
    requires PlaceholdersWithin(c, from, to) && from2 <= from && to <= to2
    ensures PlaceholdersWithin(c, from2, to2)
  {
    match c
    case Not(d) => WiderRange(d, from, to, from2, to2);
    case And(l, r) => WiderRange(l, from, to, from2, to2); WiderRange(r, from, to, from2, to2);
    case Or(l, r) => WiderRange(l, from, to, from2, to2); WiderRange(r, from, to, from2, to2);
    case _ =>
  }

  lemma WidenPlaceholders(p: Query, emitted: Emitted, n: nat)
    requires n == |p.params|
    requires forall i :: 0 <= i < |p.conditions| ==> PlaceholdersWithin(p.conditions[i], 0, n)
    requires forall i :: 0 <= i < |emitted.conditions| ==>
      PlaceholdersWithin(emitted.conditions[i], n, n + |emitted.params|)
    ensures forall i :: 0 <= i < |p.conditions + emitted.conditions| ==>
      PlaceholdersWithin((p.conditions + emitted.conditions)[i], 0, n + |emitted.params|)
  {
    forall i | 0 <= i < |p.conditions| ensures PlaceholdersWithin(p.conditions[i], 0, n + |emitted.params|) {
      WiderRange(p.conditions[i], 0, n, 0, n + |emitted.params|);
    }
    forall i | 0 <= i < |emitted.conditions| ensures PlaceholdersWithin(emitted.conditions[i], 0, n + |emitted.params|) {
      WiderRange(emitted.conditions[i], n, n + |emitted.params|, 0, n + |emitted.params|);
    }
  }

  /** Clauses that agree one by one make a query that agrees with evaluate. */
  lemma AgreementIsClauseWise(tenantCode: string, r: Rule, e: Employee)
    requires r.clauses != [] && forall i :: 0 <= i < |r.clauses| ==> Agrees(r.clauses[i], e)
    ensures var q := Translate(tenantCode, r.clauses);
      && EvalAll(q.conditions, q.params, e) != Failed
      && (Selects(q, e) <==> e.tenantCode == tenantCode && Evaluate(r, e))
  {
    QueryMeaning(tenantCode, r.clauses, e);
    var ts := ClauseTruths(r.clauses, e);
    ConjAllMeaning(ts);
    forall i | 0 <= i < |ts| ensures ts[i] != Failed && (ts[i] == True <==> EvaluateClause(r.clauses[i], e)) {
      assert Agrees(r.clauses[i], e);
    }
  }

  // --- exactly which clauses mean the same in both halves ---

  /** The declared types of a clause: value is a string, a number or a boolean, or absent;
      values holds strings and numbers. */
  predicate Typed(c: Clause) {
    && c.value != Null
    && (c.values.Some? ==> forall i :: 0 <= i < |c.values.value| ==> c.values.value[i].Str? || c.values.value[i].Num?)
  }

  predicate Ordering(op: Operator) {
    op in {Gt, GreaterThan, Gte, GreaterThanOrEqual, Lt, LessThan, Lte, LessThanOrEqual}
  }

  predicate Equality(op: Operator) {
    op in {Eq, Equals, Neq, NotEquals}
  }

  /** Not covered by the model of SQL: the collation of text, and integers written as text. */
  predicate Modelled(a: Attribute, op: Operator, value: Value, values: Option<seq<Value>>) {
    && (a.Text? ==> !Ordering(op))
    && (a.ReporteesCount? && (Ordering(op) || Equality(op)) ==> !value.Str?)
    && (a.ReporteesCount? && (op == In || op == NotIn) && values.Some? ==>
          forall i :: 0 <= i < |values.value| ==> !values.value[i].Str?)
  }

  predicate Int4(v: Value) {
    v.Num? && -INT4_MAX - 1 <= v.n <= INT4_MAX
  }

  /** The clauses on which the evaluator and the query agree for every row. */
  predicate Portable(a: Attribute, op: Operator, value: Value, values: Option<seq<Value>>) {
    match a
    case Text(_) => if Equality(op) then ToString(value) != "null" else op in {In, NotIn, Exists}
    case ReporteesCount =>
      if Equality(op) || Ordering(op) then Int4(value)
      else op in {In, NotIn} && values.Some? && forall i :: 0 <= i < |values.value| ==> Int4(values.value[i])
    case HasReportees =>
      (match op
       case IsTrue => value == Undefined || Truthy(value)
       case IsFalse => true
       case Eq => value.Bool?
       case Neq | NotEquals => ToString(value) != "undefined"
       case NotIn => true
       case _ => false)
    case Other(_) => false
  }

  predicate InFragment(c: Clause) {
    Portable(AttributeIn(c), OperatorIn(c), c.value, c.values)
  }

  predicate TypedValues(values: seq<Value>) {
    forall i :: 0 <= i < |values| ==> values[i].Str? || values[i].Num?
  }

  predicate HasText(values: seq<Value>, s: string) {
    exists i :: 0 <= i < |values| && ToString(values[i]) == s
  }

  lemma {:induction false} AnyOverText(column: TextColumn, a: SqlValue, values: seq<Value>)
    requires TypedValues(values) && (a.SqlText? || a.SqlNull?)
    ensures AnyEquals(a, values, TextField(column)) ==
      if values == [] then False else if a.SqlNull? then Unknown else Decide(HasText(values, a.s))
  {
    if values != [] {
      AnyOverText(column, a, values[1..]);
      if a.SqlText? {
        assert HasText(values, a.s) <==> ToString(values[0]) == a.s || HasText(values[1..], a.s) by {
          if HasText(values, a.s) && ToString(values[0]) != a.s {
            var i :| 0 <= i < |values| && ToString(values[i]) == a.s;
            assert ToString(values[1..][i - 1]) == a.s;
          }
        }
      }
    }
  }

  predicate AllInt4(values: seq<Value>) {
    forall i :: 0 <= i < |values| ==> Int4(values[i])
  }

  lemma CountListUnfolds(n: nat, values: seq<Value>)
    requires values != [] && forall i :: 0 <= i < |values| ==> values[i].Num?
    ensures AllInt4(values) <==> Int4(values[0]) && AllInt4(values[1..])
    ensures HasText(values, NumberToString(n)) <==> values[0].n == n || HasText(values[1..], NumberToString(n))
  {
    hide NumberToString;
    assert forall i :: 0 < i < |values| ==> values[i] == values[1..][i - 1];
    if ToString(values[0]) == NumberToString(n) { NumberToStringIsInjective(values[0].n, n); }
    if HasText(values, NumberToString(n)) && values[0].n != n {
      var i :| 0 <= i < |values| && ToString(values[i]) == NumberToString(n);
      assert ToString(values[1..][i - 1]) == NumberToString(n);
    }
  }

  lemma {:induction false} AnyOverCount(n: nat, values: seq<Value>)
    requires forall i :: 0 <= i < |values| ==> values[i].Num?
    ensures AnyEquals(SqlInt(n), values, ReporteesCountColumn) ==
      if AllInt4(values) then Decide(HasText(values, NumberToString(n))) else Failed
  {
    if values != [] {
      hide HasText, AllInt4, NumberToString;
      AnyOverCount(n, values[1..]);
      CountListUnfolds(n, values);
    }
  }

  /** ClauseTruth and Agrees once the clause is read. */
  function ParsedTruth(a: Attribute, op: Operator, value: Value, values: Option<seq<Value>>, e: Employee): Truth {
    var emitted := EmitParsed(a, op, value, values, 1);
    EvalAll(emitted.conditions, emitted.params, e)
  }

  predicate ParsedAgrees(a: Attribute, op: Operator, value: Value, values: Option<seq<Value>>, e: Employee) {
    && ParsedTruth(a, op, value, values, e) != Failed
    && (ParsedTruth(a, op, value, values, e) == True <==> EvaluateParsed(a, op, value, values, e))
  }

  predicate ParsedOk(a: Attribute, op: Operator, value: Value, values: Option<seq<Value>>) {
    && !a.Other? && op != Unsupported && value != Null
    && (op == In || op == NotIn ==> values.Some? && values.value != [])
    && (Equality(op) || Ordering(op) ==> value != Undefined)
    && (values.Some? ==> TypedValues(values.value))
  }

  lemma TextListClauseAgrees(column: TextColumn, op: Operator, value: Value, values: seq<Value>, e: Employee)
    requires (op == In || op == NotIn) && values != [] && TypedValues(values)
    ensures ParsedAgrees(Text(column), op, value, Some(values), e)
  {
    hide NumberToString, ToNumber;
    var emitted := EmitOperator(TextField(column), op, value, Some(values), 1);
    SingleCondition(emitted.conditions[0], emitted.params, e);
    var v := ColumnValue(TextField(column), e);
    AnyOverText(column, v, values);
    assert Eval(EqualsAny(TextField(column), 1), emitted.params, e) == AnyEquals(v, values, TextField(column));
    assert Eval(Not(EqualsAny(TextField(column), 1)), emitted.params, e) == Negate(AnyEquals(v, values, TextField(column)));
  }

  lemma TextClauseAgrees(column: TextColumn, op: Operator, value: Value, values: Option<seq<Value>>, e: Employee)
    requires ParsedOk(Text(column), op, value, values) && Portable(Text(column), op, value, values)
    ensures ParsedAgrees(Text(column), op, value, values, e)
  {
    hide ParsedAgrees;
    if op == In || op == NotIn {
      TextListClauseAgrees(column, op, value, values.value, e);
    } else if op == Exists {
      TextExistsAgrees(column, value, values, e);
    } else {
      TextEqualityAgrees(column, op, value, values, e);
    }
  }

  lemma TextExistsAgrees(column: TextColumn, value: Value, values: Option<seq<Value>>, e: Employee)
    ensures ParsedAgrees(Text(column), Exists, value, values, e)
  {
    var emitted := EmitOperator(TextField(column), Exists, value, values, 1);
    SingleCondition(emitted.conditions[0], emitted.params, e);
    assert Eval(emitted.conditions[0].left, emitted.params, e) == Decide(!ColumnValue(TextField(column), e).SqlNull?);
  }

  lemma TextEqualityAgrees(column: TextColumn, op: Operator, value: Value, values: Option<seq<Value>>, e: Employee)
    requires Equality(op) && value != Undefined && value != Null && ToString(value) != "null"
    ensures ParsedAgrees(Text(column), op, value, values, e)
  {
    hide AnyEquals, ToNumber;
    var emitted := EmitOperator(TextField(column), op, value, values, 1);
    SingleCondition(emitted.conditions[0], emitted.params, e);
  }

  lemma CountListTruth(op: Operator, value: Value, values: seq<Value>, e: Employee)
    requires (op == In || op == NotIn) && forall i :: 0 <= i < |values| ==> values[i].Num?
    ensures ParsedTruth(ReporteesCount, op, value, Some(values), e) ==
      if forall i :: 0 <= i < |values| ==> Int4(values[i]) then
        Decide((op == In) == HasText(values, NumberToString(e.reporteesCount)))
      else Failed
  {
    var emitted := EmitOperator(ReporteesCountColumn, op, value, Some(values), 1);
    SingleCondition(emitted.conditions[0], emitted.params, e);
    AnyOverCount(e.reporteesCount, values);
    var c := EqualsAny(ReporteesCountColumn, 1);
    assert Eval(c, [List(values)], e) == AnyEquals(SqlInt(e.reporteesCount), values, ReporteesCountColumn);
    assert Eval(Not(c), [List(values)], e) == Negate(Eval(c, [List(values)], e));
    assert Eval(IsNull(ReporteesCountColumn), [List(values)], e) == False;
  }

  lemma CountScalarTruth(op: Operator, value: Value, values: Option<seq<Value>>, e: Employee)
    requires (Equality(op) || Ordering(op)) && value != Undefined && value != Null
    ensures ParsedTruth(ReporteesCount, op, value, values, e) ==
      if !Int4(value) then Failed
      else if op == Eq || op == Equals then Decide(e.reporteesCount == value.n)
      else if op == Neq || op == NotEquals then Decide(e.reporteesCount != value.n)
      else CompareValues(ComparisonOf(op), SqlInt(e.reporteesCount), SqlInt(value.n))
  {
    var emitted := EmitOperator(ReporteesCountColumn, op, value, values, 1);
    SingleCondition(emitted.conditions[0], emitted.params, e);
    assert Eval(IsNull(ReporteesCountColumn), [Scalar(value)], e) == False;
    assert Eval(Compare(ReporteesCountColumn, NotEqual, Placeholder(1)), [Scalar(value)], e)
      == CompareValues(NotEqual, SqlInt(e.reporteesCount), Bind(value, ReporteesCountColumn));
  }

  /** Includes on a list of numbers looks for the number itself; the query for its text. */
  lemma IncludesIsHasText(values: seq<Value>, n: nat)
    requires forall i :: 0 <= i < |values| ==> values[i].Num?
    ensures Includes(Some(values), Num(n)) == HasText(values, NumberToString(n))
  {
    hide NumberToString;
    forall i | 0 <= i < |values| ensures ToString(values[i]) == NumberToString(n) <==> values[i] == Num(n) {
      if ToString(values[i]) == NumberToString(n) {
        NumberToStringIsInjective(values[i].n, n);
      }
    }
  }

  lemma CountListClauseAgrees(op: Operator, value: Value, values: seq<Value>, e: Employee)
    requires (op == In || op == NotIn) && forall i :: 0 <= i < |values| ==> Int4(values[i])
    ensures ParsedAgrees(ReporteesCount, op, value, Some(values), e)
  {
    CountListTruth(op, value, values, e);
    IncludesIsHasText(values, e.reporteesCount);
    hide ParsedTruth, Includes, HasText, NumberToString;
  }

  lemma CountScalarClauseAgrees(op: Operator, value: Value, values: Option<seq<Value>>, e: Employee)
    requires (Equality(op) || Ordering(op)) && Int4(value)
    ensures ParsedAgrees(ReporteesCount, op, value, values, e)
  {
    CountScalarTruth(op, value, values, e);
    if ToString(value) == NumberToString(e.reporteesCount) {
      NumberToStringIsInjective(value.n, e.reporteesCount);
    }
    hide ParsedTruth, NumberToString;
  }

  lemma CountClauseAgrees(op: Operator, value: Value, values: Option<seq<Value>>, e: Employee)
    requires ParsedOk(ReporteesCount, op, value, values) && Portable(ReporteesCount, op, value, values)
    ensures ParsedAgrees(ReporteesCount, op, value, values, e)
  {
    hide ParsedAgrees;
    if op == In || op == NotIn {
      CountListClauseAgrees(op, value, values.value, e);
    } else {
      CountScalarClauseAgrees(op, value, values, e);
    }
  }

  lemma HasReporteesClauseAgrees(op: Operator, value: Value, values: Option<seq<Value>>, e: Employee)
    requires ParsedOk(HasReportees, op, value, values) && Portable(HasReportees, op, value, values)
    ensures ParsedAgrees(HasReportees, op, value, values, e)
  {
    var emitted := EmitParsed(HasReportees, op, value, values, 1);
    if emitted.conditions != [] {
      SingleCondition(emitted.conditions[0], emitted.params, e);
    }
  }

  /** A row with this text in every text column and this many reportees. */
  function Sample(text: Option<string>, count: nat): Employee {
    Employee("", "", text, text, text, text, text, text, count, map[])
  }

  lemma DisagreeingTextRow(column: TextColumn, op: Operator, value: Value, values: Option<seq<Value>>) returns (e: Employee)
    requires ParsedOk(Text(column), op, value, values) && !Ordering(op) && !Portable(Text(column), op, value, values)
    ensures !ParsedAgrees(Text(column), op, value, values, e)
  {
    e := Sample(if Equality(op) then None else if op.IsTrue? then Some("") else Some("x"), 0);
    var emitted := EmitOperator(TextField(column), op, value, values, 1);
    if Equality(op) {
      SingleCondition(emitted.conditions[0], emitted.params, e);
    }
  }

  lemma DisagreeingCountRow(op: Operator, value: Value, values: Option<seq<Value>>) returns (e: Employee)
    requires ParsedOk(ReporteesCount, op, value, values) && Modelled(ReporteesCount, op, value, values)
    requires !Portable(ReporteesCount, op, value, values)
    ensures !ParsedAgrees(ReporteesCount, op, value, values, e)
  {
    e := Sample(None, if op.IsFalse? then 1 else 0);
    if op == In || op == NotIn {
      CountListTruth(op, value, values.value, e);
    } else if Equality(op) || Ordering(op) {
      CountScalarTruth(op, value, values, e);
    } else if op == Exists {
      var emitted := EmitOperator(ReporteesCountColumn, op, value, values, 1);
      SingleCondition(emitted.conditions[0], emitted.params, e);
      assert Eval(emitted.conditions[0].right, emitted.params, e) == Failed;
    }
  }

  /** Operators on hasReportees that emit no condition select every row. */
  lemma NothingEmittedSelectsAll(op: Operator, value: Value, values: Option<seq<Value>>, e: Employee)
    requires EmitParsed(HasReportees, op, value, values, 1).conditions == []
    ensures ParsedTruth(HasReportees, op, value, values, e) == True
  {
  }

  lemma DisagreeingExpectation(op: Operator, value: Value, values: Option<seq<Value>>) returns (e: Employee)
    requires op.IsTrue? || op.Eq? || op.Equals?
    requires ParsedOk(HasReportees, op, value, values) && !Portable(HasReportees, op, value, values)
    ensures !ParsedAgrees(HasReportees, op, value, values, e)
  {
    e := Sample(None, if !op.IsTrue? && !Truthy(value) then 1 else 0);
    var emitted := EmitParsed(HasReportees, op, value, values, 1);
    if emitted.conditions != [] {
      SingleCondition(emitted.conditions[0], emitted.params, e);
    }
  }

  lemma DisagreeingComparison(op: Operator, value: Value, values: Option<seq<Value>>) returns (e: Employee)
    requires !op.IsTrue? && !op.Eq? && !op.Equals?
    requires ParsedOk(HasReportees, op, value, values) && !Portable(HasReportees, op, value, values)
    ensures !ParsedAgrees(HasReportees, op, value, values, e)
  {
    e := Sample(None, 0);
    NothingEmittedSelectsAll(op, value, values, e);
    hide ParsedTruth;
  }

  lemma DisagreeingHasReporteesRow(op: Operator, value: Value, values: Option<seq<Value>>) returns (e: Employee)
    requires ParsedOk(HasReportees, op, value, values) && !Portable(HasReportees, op, value, values)
    ensures !ParsedAgrees(HasReportees, op, value, values, e)
  {
    hide ParsedAgrees, ParsedOk, Portable;
    if op.IsTrue? || op.Eq? || op.Equals? {
      e := DisagreeingExpectation(op, value, values);
    } else {
      e := DisagreeingComparison(op, value, values);
    }
  }

  /** For an accepted, typed clause: evaluator and query agree on every row exactly on the fragment. */
  lemma FragmentIsExact(c: Clause)
    requires ClauseOk(c) && Typed(c) && Modelled(AttributeIn(c), OperatorIn(c), c.value, c.values)
    ensures InFragment(c) <==> forall e: Employee :: Agrees(c, e)
  {
    var a, op := AttributeIn(c), OperatorIn(c);
    forall e: Employee ensures Agrees(c, e) <==> ParsedAgrees(a, op, c.value, c.values, e) {
    }
    if InFragment(c) {
      forall e: Employee ensures ParsedAgrees(a, op, c.value, c.values, e) {
        match a
        case Text(column) => TextClauseAgrees(column, op, c.value, c.values, e);
        case ReporteesCount => CountClauseAgrees(op, c.value, c.values, e);
        case HasReportees => HasReporteesClauseAgrees(op, c.value, c.values, e);
        case Other(_) => assert false;
      }
    } else {
      var e: Employee;
      match a {
        case Text(column) => e := DisagreeingTextRow(column, op, c.value, c.values);
        case ReporteesCount => e := DisagreeingCountRow(op, c.value, c.values);
        case _ => e := DisagreeingHasReporteesRow(op, c.value, c.values);
      }
      assert !Agrees(c, e);
    }
  }

  /** Every clause is one of those on which the two halves agree. */
  predicate Translatable(r: Rule) {
    forall i :: 0 <= i < |r.clauses| ==>
      && Typed(r.clauses[i]) && InFragment(r.clauses[i])
      && Modelled(AttributeIn(r.clauses[i]), OperatorIn(r.clauses[i]), r.clauses[i].value, r.clauses[i].values)
  }

  /** The theorem for whole rules: an accepted rule inside the fragment selects exactly the
      tenant's employees for which evaluate holds, and the database never rejects it. */
  lemma TranslationPreservesMeaning(tenantCode: string, r: Rule, e: Employee)
    requires RuleOk(r) && Translatable(r)
    ensures var q := Translate(tenantCode, r.clauses);
      && EvalAll(q.conditions, q.params, e) != Failed
      && (Selects(q, e) <==> e.tenantCode == tenantCode && Evaluate(r, e))
  {
    forall i | 0 <= i < |r.clauses| ensures Agrees(r.clauses[i], e) {
      FragmentIsExact(r.clauses[i]);
    }
    AgreementIsClauseWise(tenantCode, r, e);
  }

  /** A clause outside the fragment: hasReportees equals true emits no condition, so an
      employee without reportees is selected though evaluate rejects the row. */
  lemma HasReporteesEqualsIsNotTranslated()
    ensures var c := Clause("hasReportees", "EQUALS", Bool(true), None);
      var e := Sample(None, 0);
      ClauseOk(c) && !EvaluateClause(c, e) && Selects(Translate("", [c]), e)
  {
    var c := Clause("hasReportees", "EQUALS", Bool(true), None);
    var e := Sample(None, 0);
    assert ToLower("EQUALS") == "equals";
    assert OperatorIn(c) == Equals && AttributeIn(c) == HasReportees;
    assert ClauseTruth(c, e) == True;
    QueryMeaning("", [c], e);
    ConjAllMeaning(ClauseTruths([c], e));
  }
}
