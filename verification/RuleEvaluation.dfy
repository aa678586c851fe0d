/** UserGroupMatchingEngine, first half: deciding a rule in memory. */
module RuleEvaluation {
  import opened JavaScript
  import opened MatchingRules

  /** extractEmployeeValue; an entity has no property named hasReportees. */
  function EmployeeValue(a: Attribute, e: Employee): Value {
    match a
    case Text(column) => (match TextOf(e, column) case None => Null case Some(s) => Str(s))
    case ReporteesCount => Num(e.reporteesCount)
    case HasReportees => Undefined
    case Other(name) => if name in e.properties then e.properties[name] else Undefined
  }

  predicate Less(a: Value, b: Value) {
    ToNumber(a).Some? && ToNumber(b).Some? && ToNumber(a).value < ToNumber(b).value
  }

  predicate AtMost(a: Value, b: Value) {
    ToNumber(a).Some? && ToNumber(b).Some? && ToNumber(a).value <= ToNumber(b).value
  }

  predicate Includes(values: Option<seq<Value>>, v: Value) {
    values.Some? && exists i :: 0 <= i < |values.value| && ToString(values.value[i]) == ToString(v)
  }

  /** The switch of evaluateClause. */
  predicate EvaluateOperator(op: Operator, v: Value, value: Value, values: Option<seq<Value>>) {
    match op
    case Eq | Equals => ToString(v) == ToString(value)
    case Neq | NotEquals => ToString(v) != ToString(value)
    case In => v != Null && v != Undefined && Includes(values, v)
    case NotIn => v == Null || v == Undefined || !Includes(values, v)
    case Gt | GreaterThan => Less(value, v)
    case Gte | GreaterThanOrEqual => AtMost(value, v)
    case Lt | LessThan => Less(v, value)
    case Lte | LessThanOrEqual => AtMost(v, value)
    case IsTrue => Truthy(v)
    case IsFalse => !Truthy(v)
    case Exists => v != Null && v != Undefined && v != Str("")
    case Unsupported => false
  }

  /** evaluateClause once the attribute and the operator are read. */
  predicate EvaluateParsed(a: Attribute, op: Operator, value: Value, values: Option<seq<Value>>, e: Employee) {
    if a.HasReportees? && (op.IsTrue? || op.Eq? || op.Equals?) then
      var expected := if value != Undefined then Truthy(value) else true;
      if expected then e.reporteesCount > 0 else e.reporteesCount == 0
    else if a.HasReportees? && op.IsFalse? then e.reporteesCount == 0
    else EvaluateOperator(op, EmployeeValue(a, e), value, values)
  }

  predicate EvaluateClause(c: Clause, e: Employee) {
    c.attribute != "" && EvaluateParsed(AttributeIn(c), OperatorIn(c), c.value, c.values, e)
  }

  /** evaluate: a non-empty conjunction. */
  predicate Evaluate(r: Rule, e: Employee) {
    r.clauses != [] && forall i :: 0 <= i < |r.clauses| ==> EvaluateClause(r.clauses[i], e)
  }

  /** Two rows give the same answer wherever this attribute key is read. */
  predicate SameAttribute(key: string, e: Employee, f: Employee) {
    && EmployeeValue(AttributeOf(key), e) == EmployeeValue(AttributeOf(key), f)
    && (AttributeOf(key).HasReportees? ==> e.reporteesCount == f.reporteesCount)
  }

  /** A rule reads nothing but the attributes it is indexed under. */
  lemma EvaluateReadsOnlyItsKeys(r: Rule, e: Employee, f: Employee)
    requires forall key :: key in AttributeKeys(r.clauses) ==> SameAttribute(key, e, f)
    ensures Evaluate(r, e) == Evaluate(r, f)
  {
    forall i | 0 <= i < |r.clauses| ensures EvaluateClause(r.clauses[i], e) == EvaluateClause(r.clauses[i], f) {
      assert r.clauses[i].attribute in AttributeKeys(r.clauses);
      assert SameAttribute(r.clauses[i].attribute, e, f);
    }
  }

  // --- what a clause says, in the words of the rule ---

  lemma OperatorsOfEquality(c: Clause)
    ensures ToLower(c.operator) in {"eq", "equals"} ==> OperatorIn(c) in {Eq, Equals}
    ensures ToLower(c.operator) in {"neq", "not_equals"} ==> OperatorIn(c) in {Neq, NotEquals}
    ensures ToLower(c.operator) == "in" ==> OperatorIn(c) == In
    ensures ToLower(c.operator) == "not_in" ==> OperatorIn(c) == NotIn
    ensures ToLower(c.operator) == "is_true" ==> OperatorIn(c) == IsTrue
    ensures ToLower(c.operator) == "is_false" ==> OperatorIn(c) == IsFalse
    ensures ToLower(c.operator) == "exists" ==> OperatorIn(c) == Exists
  {
    hide ToLower;
  }

  lemma OperatorsOfOrder(c: Clause)
    ensures ToLower(c.operator) in {"gt", "greater_than"} ==> OperatorIn(c) in {Gt, GreaterThan}
    ensures ToLower(c.operator) in {"gte", "greater_than_or_equal"} ==> OperatorIn(c) in {Gte, GreaterThanOrEqual}
    ensures ToLower(c.operator) in {"lt", "less_than"} ==> OperatorIn(c) in {Lt, LessThan}
    ensures ToLower(c.operator) in {"lte", "less_than_or_equal"} ==> OperatorIn(c) in {Lte, LessThanOrEqual}
  {
    hide ToLower;
  }

  lemma CountClauseIsItsOperator(c: Clause, e: Employee)
    requires c.attribute == "reporteesCount"
    ensures EvaluateClause(c, e) <==> EvaluateOperator(OperatorIn(c), Num(e.reporteesCount), c.value, c.values)
  {
    hide EvaluateOperator, OperatorIn;
  }

  /** A clause on reporteesCount compares numbers. */
  lemma CountClauseMeans(c: Clause, e: Employee)
    requires c.attribute == "reporteesCount" && c.value.Num?
    ensures ToLower(c.operator) in {"eq", "equals"} ==> (EvaluateClause(c, e) <==> e.reporteesCount == c.value.n)
    ensures ToLower(c.operator) in {"neq", "not_equals"} ==> (EvaluateClause(c, e) <==> e.reporteesCount != c.value.n)
    ensures ToLower(c.operator) in {"gt", "greater_than"} ==> (EvaluateClause(c, e) <==> e.reporteesCount > c.value.n)
    ensures ToLower(c.operator) in {"gte", "greater_than_or_equal"} ==> (EvaluateClause(c, e) <==> e.reporteesCount >= c.value.n)
    ensures ToLower(c.operator) in {"lt", "less_than"} ==> (EvaluateClause(c, e) <==> e.reporteesCount < c.value.n)
    ensures ToLower(c.operator) in {"lte", "less_than_or_equal"} ==> (EvaluateClause(c, e) <==> e.reporteesCount <= c.value.n)
  {
    hide ToLower, NumberToString, EvaluateClause, OperatorIn;
    CountClauseIsItsOperator(c, e);
    OperatorsOfEquality(c);
    OperatorsOfOrder(c);
    if NumberToString(e.reporteesCount) == NumberToString(c.value.n) {
      NumberToStringIsInjective(e.reporteesCount, c.value.n);
    }
  }

  /** The column a clause on text reads, by its name in the rule. */
  predicate Reads(attribute: string, e: Employee, stored: Option<string>) {
    || (attribute == "employmentStatus" && stored == e.employmentStatus)
    || (attribute == "companyId" && stored == e.companyId)
    || (attribute == "locationId" && stored == e.locationId)
    || (attribute == "departmentId" && stored == e.departmentId)
    || (attribute == "gradeId" && stored == e.gradeId)
    || (attribute == "jobTitleId" && stored == e.jobTitleId)
  }

  /** What a clause on a text column is decided by. */
  lemma TextClauseIsItsOperator(c: Clause, e: Employee, stored: Option<string>)
    requires Reads(c.attribute, e, stored)
    ensures EvaluateClause(c, e) <==>
      EvaluateOperator(OperatorIn(c), if stored.Some? then Str(stored.value) else Null, c.value, c.values)
  {
    hide EvaluateOperator, OperatorIn;
  }

  /** A clause on a text column compares with one word or a list of words; an empty column reads as the word
      null for the former, is in no list, and does not exist. */
  lemma TextClauseMeans(c: Clause, e: Employee, stored: Option<string>)
    requires Reads(c.attribute, e, stored)
    ensures ToLower(c.operator) in {"eq", "equals"} && c.value.Str? ==>
      (EvaluateClause(c, e) <==> if stored.Some? then stored.value == c.value.s else c.value.s == "null")
    ensures ToLower(c.operator) in {"neq", "not_equals"} && c.value.Str? ==>
      (EvaluateClause(c, e) <==> if stored.Some? then stored.value != c.value.s else c.value.s != "null")
    ensures ToLower(c.operator) == "in" && c.values.Some? && (forall v :: v in c.values.value ==> v.Str?) ==>
      (EvaluateClause(c, e) <==> stored.Some? && Str(stored.value) in c.values.value)
    ensures ToLower(c.operator) == "not_in" && c.values.Some? && (forall v :: v in c.values.value ==> v.Str?) ==>
      (EvaluateClause(c, e) <==> stored.Some? ==> Str(stored.value) !in c.values.value)
    ensures ToLower(c.operator) in {"exists", "is_true"} ==> (EvaluateClause(c, e) <==> stored.Some? && stored.value != "")
    ensures ToLower(c.operator) == "is_false" ==> (EvaluateClause(c, e) <==> stored.None? || stored.value == "")
  {
    TextClauseIsItsOperator(c, e, stored);
    OperatorsOfEquality(c);
    if c.values.Some? && (forall v :: v in c.values.value ==> v.Str?) && stored.Some? {
      IncludesTextMeans(c.values.value, stored.value);
    }
    hide ToLower, NumberToString, Reads, EvaluateClause, OperatorIn, Includes;
  }

  lemma IncludesTextMeans(values: seq<Value>, s: string)
    requires forall v :: v in values ==> v.Str?
    ensures Includes(Some(values), Str(s)) <==> Str(s) in values
  {
    forall i | 0 <= i < |values| ensures ToString(values[i]) == s <==> values[i] == Str(s) {
      assert values[i] in values;
    }
  }

  /** Printing a whole number and converting it back with Number gives the number. */
  lemma ToNumberReadsNumberToString(n: int)
    ensures ToNumber(Str(NumberToString(n))) == Some(n)
  {
    ParseIntReadsNumberToString(n);
    NumbersStartWithoutBlanks(n);
    var s := NumberToString(n);
    var digits := NatToString(if n < 0 then -n else n);
    assert digits == if n < 0 then s[1..] else s;
    AllDigits(digits);
    assert Digit(s[|s| - 1]);
    assert TrimEnd(s) == s;
    hide TrimStart, TrimEnd, ParseInt, NatToString;
  }

  lemma {:induction false} AllDigits(s: string)
    requires forall i :: 0 <= i < |s| ==> Digit(s[i])
    ensures DigitPrefix(s) == |s|
  {
    if s != [] {
      AllDigits(s[1..]);
    }
  }

  lemma PrintedNumbersAreOrdered(m: int, n: int)
    ensures Less(Num(n), Str(NumberToString(m))) <==> n < m
    ensures AtMost(Num(n), Str(NumberToString(m))) <==> n <= m
    ensures Less(Str(NumberToString(m)), Num(n)) <==> m < n
    ensures AtMost(Str(NumberToString(m)), Num(n)) <==> m <= n
  {
    ToNumberReadsNumberToString(m);
    assert ToNumber(Num(n)) == Some(n);
    hide ToNumber, NumberToString;
  }

  /** An ordering clause on a text column compares the numbers that are written there. */
  lemma TextOrdersAsNumbers(c: Clause, e: Employee, m: int)
    requires Reads(c.attribute, e, Some(NumberToString(m))) && c.value.Num?
    ensures ToLower(c.operator) in {"gt", "greater_than"} ==> (EvaluateClause(c, e) <==> m > c.value.n)
    ensures ToLower(c.operator) in {"gte", "greater_than_or_equal"} ==> (EvaluateClause(c, e) <==> m >= c.value.n)
    ensures ToLower(c.operator) in {"lt", "less_than"} ==> (EvaluateClause(c, e) <==> m < c.value.n)
    ensures ToLower(c.operator) in {"lte", "less_than_or_equal"} ==> (EvaluateClause(c, e) <==> m <= c.value.n)
  {
    hide ToLower, NumberToString, Less, AtMost, Reads, EvaluateClause, OperatorIn;
    TextClauseIsItsOperator(c, e, Some(NumberToString(m)));
    OperatorsOfOrder(c);
    PrintedNumbersAreOrdered(m, c.value.n);
  }

  /** A clause on hasReportees asks whether there are any: is_true and eq expect some, unless a falsy value
      is given; is_false expects none. */
  lemma HasReporteesClauseMeans(c: Clause, e: Employee)
    requires c.attribute == "hasReportees"
    ensures ToLower(c.operator) in {"is_true", "eq", "equals"} ==>
      (EvaluateClause(c, e) <==>
         if c.value == Undefined || (c.value != Null && c.value != Bool(false) && c.value != Num(0) && c.value != Str("")) then
           e.reporteesCount > 0
         else e.reporteesCount == 0)
    ensures ToLower(c.operator) == "is_false" ==> (EvaluateClause(c, e) <==> e.reporteesCount == 0)
  {
    hide ToLower;
  }
}
