/** Matching rules: their clauses, the employee row they read, and the validator. */
module MatchingRules {
  import opened JavaScript

  datatype TextColumn = EmploymentStatus | CompanyId | LocationId | DepartmentId | GradeId | JobTitleId

  /** What an attribute key names. */
  datatype Attribute = Text(column: TextColumn) | ReporteesCount | HasReportees | Other(name: string)

  datatype Operator =
    | Eq | Equals | Neq | NotEquals | In | NotIn
    | Gt | GreaterThan | Gte | GreaterThanOrEqual | Lt | LessThan | Lte | LessThanOrEqual
    | IsTrue | IsFalse | Exists | Unsupported

  datatype Clause = Clause(attribute: string, operator: string, value: Value, values: Option<seq<Value>>)

  datatype Rule = Rule(combinator: string, clauses: seq<Clause>)

  /** One employee_references row. properties holds every other property of the entity. */
  datatype Employee = Employee(
    id: string,
    tenantCode: string,
    employmentStatus: Option<string>,
    companyId: Option<string>,
    locationId: Option<string>,
    departmentId: Option<string>,
    gradeId: Option<string>,
    jobTitleId: Option<string>,
    reporteesCount: nat,
    properties: map<string, Value>)

  function TextOf(e: Employee, column: TextColumn): Option<string> {
    match column
    case EmploymentStatus => e.employmentStatus
    case CompanyId => e.companyId
    case LocationId => e.locationId
    case DepartmentId => e.departmentId
    case GradeId => e.gradeId
    case JobTitleId => e.jobTitleId
  }

  function AttributeOf(key: string): Attribute {
    if key == "employmentStatus" then Text(EmploymentStatus)
    else if key == "companyId" then Text(CompanyId)
    else if key == "locationId" then Text(LocationId)
    else if key == "departmentId" then Text(DepartmentId)
    else if key == "gradeId" then Text(GradeId)
    else if key == "jobTitleId" then Text(JobTitleId)
    else if key == "reporteesCount" then ReporteesCount
    else if key == "hasReportees" then HasReportees
    else Other(key)
  }

  function OperatorOf(op: string): Operator {
    if op == "eq" then Eq else if op == "equals" then Equals
    else if op == "neq" then Neq else if op == "not_equals" then NotEquals
    else if op == "in" then In else if op == "not_in" then NotIn
    else if op == "gt" then Gt else if op == "greater_than" then GreaterThan
    else if op == "gte" then Gte else if op == "greater_than_or_equal" then GreaterThanOrEqual
    else if op == "lt" then Lt else if op == "less_than" then LessThan
    else if op == "lte" then Lte else if op == "less_than_or_equal" then LessThanOrEqual
    else if op == "is_true" then IsTrue else if op == "is_false" then IsFalse
    else if op == "exists" then Exists
    else Unsupported
  }

  /** Operators are compared after toLowerCase; no operator name has a letter that a
      character outside ASCII lower-cases to, so ASCII lower-casing decides the same. */
  function OperatorIn(c: Clause): Operator {
    OperatorOf(ToLower(c.operator))
  }

  function AttributeIn(c: Clause): Attribute {
    AttributeOf(c.attribute)
  }

  datatype RuleError =
    | UnsupportedCombinator
    | NoClauses
    | MissingAttribute(index: nat)
    | AttributeNotAllowed(index: nat)
    | MissingOperator(index: nat)
    | OperatorNotSupported(index: nat)
    | ValuesRequired(index: nat)
    | ValueRequired(index: nat)

  datatype Validation = Keys(ruleAttributeKeys: seq<string>) | Invalid(error: RuleError)

  /** MatchingRuleValidator.validateClause; None is acceptance. */
  function ClauseError(c: Clause, index: nat): Option<RuleError> {
    var op := OperatorIn(c);
    if c.attribute == "" then Some(MissingAttribute(index))
    else if AttributeIn(c).Other? then Some(AttributeNotAllowed(index))
    else if c.operator == "" then Some(MissingOperator(index))
    else if op == Unsupported then Some(OperatorNotSupported(index))
    else if op == In || op == NotIn then
      (if c.values == None || c.values == Some([]) then Some(ValuesRequired(index)) else None)
    else if op == IsTrue || op == IsFalse || op == Exists then None
    else if c.value == Undefined || c.value == Null || c.value == Str("") then Some(ValueRequired(index))
    else None
  }

  predicate ClauseOk(c: Clause) {
    ClauseError(c, 0) == None
  }

  predicate RuleOk(r: Rule) {
    && (r.combinator == "" || ToLower(r.combinator) == "all")
    && r.clauses != []
    && forall i :: 0 <= i < |r.clauses| ==> ClauseOk(r.clauses[i])
  }

  /** The attribute keys a rule reads. */
  function AttributeKeys(clauses: seq<Clause>): set<string> {
    set i | 0 <= i < |clauses| :: clauses[i].attribute
  }

  predicate NoRepeats(keys: seq<string>) {
    forall i, j :: 0 <= i < j < |keys| ==> keys[i] != keys[j]
  }

  lemma IndexDoesNotMatter(c: Clause, i: nat)
    ensures ClauseError(c, i).None? <==> ClauseOk(c)
  {
  }

  lemma AllowedAttributes(key: string)
    ensures !AttributeOf(key).Other? <==>
      key in {"employmentStatus", "companyId", "locationId", "departmentId", "gradeId", "jobTitleId", "reporteesCount", "hasReportees"}
  {
  }

  lemma OperatorGroups(op: string)
    ensures OperatorOf(op) in {In, NotIn} <==> op in {"in", "not_in"}
    ensures OperatorOf(op) in {IsTrue, IsFalse, Exists} <==> op in {"is_true", "is_false", "exists"}
    ensures OperatorOf(op) !in {In, NotIn, IsTrue, IsFalse, Exists, Unsupported} <==>
      op in {"eq", "equals", "neq", "not_equals", "gt", "greater_than", "gte", "greater_than_or_equal",
             "lt", "less_than", "lte", "less_than_or_equal"}
  {
  }

  /** The clauses that are accepted, in the words of the rule: an allowed attribute, a known operator in any
      case, and for the operator a non-empty list, no value at all, or a value that is not empty. */
  lemma AcceptedClauses(c: Clause)
    ensures ClauseOk(c) <==>
      && c.attribute in {"employmentStatus", "companyId", "locationId", "departmentId", "gradeId", "jobTitleId",
                         "reporteesCount", "hasReportees"}
      && ((ToLower(c.operator) in {"in", "not_in"} && c.values.Some? && c.values.value != [])
          || ToLower(c.operator) in {"is_true", "is_false", "exists"}
          || (ToLower(c.operator) in {"eq", "equals", "neq", "not_equals", "gt", "greater_than", "gte", "greater_than_or_equal",
                                      "lt", "less_than", "lte", "less_than_or_equal"}
              && c.value != Undefined && c.value != Null && c.value != Str("")))
  {
    assert c.operator == "" ==> ToLower(c.operator) == "";
    hide ToLower, AttributeOf, OperatorOf;
    AllowedAttributes(c.attribute);
    OperatorGroups(ToLower(c.operator));
  }

  /** MatchingRuleValidator.validate. */
  method Validate(r: Rule) returns (v: Validation)
    ensures v.Keys? <==> RuleOk(r)
    ensures v.Keys? ==> NoRepeats(v.ruleAttributeKeys) && (set k | k in v.ruleAttributeKeys) == AttributeKeys(r.clauses)
    ensures v.Invalid? && !v.error.UnsupportedCombinator? && !v.error.NoClauses? ==>
      exists i :: 0 <= i < |r.clauses| && ClauseError(r.clauses[i], i) == Some(v.error)
        && forall j :: 0 <= j < i ==> ClauseOk(r.clauses[j])
  {
    hide ClauseError, ClauseOk, ToLower;
    if r.combinator != "" && ToLower(r.combinator) != "all" {
      return Invalid(UnsupportedCombinator);
    }
    if r.clauses == [] {
      return Invalid(NoClauses);
    }
    var keys: seq<string> := [];
    for i := 0 to |r.clauses|
      invariant forall j :: 0 <= j < i ==> ClauseOk(r.clauses[j])
      invariant NoRepeats(keys)
      invariant forall k :: k in keys <==> exists j :: 0 <= j < i && r.clauses[j].attribute == k
    {
      var error := ClauseError(r.clauses[i], i);
      IndexDoesNotMatter(r.clauses[i], i);
      if error.Some? {
        return Invalid(error.value);
      }
      if r.clauses[i].attribute !in keys {
        keys := keys + [r.clauses[i].attribute];
      }
    }
    v := Keys(keys);
  }
}
