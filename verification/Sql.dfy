/** The fragment of SQL that rules are translated to, with NULL and placeholders. */
module Sql {
  import opened JavaScript
  import opened MatchingRules

  datatype Column = TenantCodeColumn | TextField(column: TextColumn) | ReporteesCountColumn

  datatype Comparison = Equal | NotEqual | Greater | GreaterEqual | Smaller | SmallerEqual

  /** Placeholder(n) is $n, counted from 1. */
  datatype Operand = Placeholder(n: nat) | TextLiteral(s: string) | IntLiteral(i: int)

  datatype Condition =
    | Compare(column: Column, op: Comparison, operand: Operand)
    | EqualsAny(column: Column, n: nat)
    | IsNull(column: Column)
    | Not(c: Condition)
    | And(left: Condition, right: Condition)
    | Or(left: Condition, right: Condition)

  datatype Param = Scalar(v: Value) | List(values: seq<Value>)

  datatype Query = Query(conditions: seq<Condition>, params: seq<Param>)

  /** SQL truth values; Failed is a query the database rejects, or a part of SQL that is
      not modelled (text ordering, integers written as text). */
  datatype Truth = True | False | Unknown | Failed

  datatype SqlValue = SqlNull | SqlText(s: string) | SqlInt(i: int) | SqlError

  function Negate(t: Truth): Truth {
    match t case True => False case False => True case _ => t
  }

  function Conj(a: Truth, b: Truth): Truth {
    if a == Failed || b == Failed then Failed
    else if a == False || b == False then False
    else if a == Unknown || b == Unknown then Unknown
    else True
  }

  function Disj(a: Truth, b: Truth): Truth {
    Negate(Conj(Negate(a), Negate(b)))
  }

  function Decide(b: bool): Truth { if b then True else False }

  function ColumnValue(column: Column, e: Employee): SqlValue {
    match column
    case TenantCodeColumn => SqlText(e.tenantCode)
    case TextField(c) => (match TextOf(e, c) case None => SqlNull case Some(s) => SqlText(s))
    case ReporteesCountColumn => SqlInt(e.reporteesCount)
  }

  /** The largest four-byte integer, which a parameter for an integer column must fit. */
  const INT4_MAX := 0x7FFF_FFFF

  /** A parameter takes the type of the column it is compared with. */
  function Bind(v: Value, column: Column): SqlValue {
    if v == Undefined || v == Null then SqlNull
    else if !column.ReporteesCountColumn? then SqlText(ToString(v))
    else if v.Num? && -INT4_MAX - 1 <= v.n <= INT4_MAX then SqlInt(v.n)
    else SqlError
  }

  function OperandValue(operand: Operand, column: Column, params: seq<Param>): SqlValue {
    match operand
    case Placeholder(n) => if 1 <= n <= |params| && params[n - 1].Scalar? then Bind(params[n - 1].v, column) else SqlError
    case TextLiteral(s) => if column.ReporteesCountColumn? then SqlError else SqlText(s)
    case IntLiteral(i) => if column.ReporteesCountColumn? then SqlInt(i) else SqlError
  }

  function CompareValues(op: Comparison, a: SqlValue, b: SqlValue): Truth {
    if a.SqlError? || b.SqlError? then Failed
    else if a.SqlNull? || b.SqlNull? then Unknown
    else if a.SqlInt? && b.SqlInt? then
      match op {
        case Equal => Decide(a.i == b.i)
        case NotEqual => Decide(a.i != b.i)
        case Greater => Decide(a.i > b.i)
        case GreaterEqual => Decide(a.i >= b.i)
        case Smaller => Decide(a.i < b.i)
        case SmallerEqual => Decide(a.i <= b.i)
      }
    else if a.SqlText? && b.SqlText? && op == Equal then Decide(a.s == b.s)
    else if a.SqlText? && b.SqlText? && op == NotEqual then Decide(a.s != b.s)
    else Failed
  }

  /** column = ANY(array): a disjunction over the elements. */
  function AnyEquals(a: SqlValue, values: seq<Value>, column: Column): Truth {
    if values == [] then False
    else Disj(CompareValues(Equal, a, Bind(values[0], column)), AnyEquals(a, values[1..], column))
  }

  function Eval(c: Condition, params: seq<Param>, e: Employee): Truth {
    match c
    case Compare(column, op, operand) => CompareValues(op, ColumnValue(column, e), OperandValue(operand, column, params))
    case EqualsAny(column, n) =>
      if 1 <= n <= |params| && params[n - 1].List? then AnyEquals(ColumnValue(column, e), params[n - 1].values, column)
      else Failed
    case IsNull(column) => Decide(ColumnValue(column, e).SqlNull?)
    case Not(d) => Negate(Eval(d, params, e))
    case And(l, r) => Conj(Eval(l, params, e), Eval(r, params, e))
    case Or(l, r) => Disj(Eval(l, params, e), Eval(r, params, e))
  }

  /** The conditions of a WHERE clause joined with AND. */
  function EvalAll(cs: seq<Condition>, params: seq<Param>, e: Employee): Truth {
    if cs == [] then True else Conj(EvalAll(cs[..|cs| - 1], params, e), Eval(cs[|cs| - 1], params, e))
  }

  /** The row is in the query's result. */
  predicate Selects(q: Query, e: Employee) {
    EvalAll(q.conditions, q.params, e) == True
  }

  /** Every placeholder of the condition lies in from+1..to. */
  predicate PlaceholdersWithin(c: Condition, from: nat, to: nat) {
    match c
    case Compare(_, _, operand) => operand.Placeholder? ==> from < operand.n <= to
    case EqualsAny(_, n) => from < n <= to
    case IsNull(_) => true
    case Not(d) => PlaceholdersWithin(d, from, to)
    case And(l, r) => PlaceholdersWithin(l, from, to) && PlaceholdersWithin(r, from, to)
    case Or(l, r) => PlaceholdersWithin(l, from, to) && PlaceholdersWithin(r, from, to)
  }

  /** Pushing more parameters does not change a condition already built. */
  lemma {:induction false} EvalIgnoresLaterParams(c: Condition, params: seq<Param>, more: seq<Param>, e: Employee)
    requires PlaceholdersWithin(c, 0, |params|)
    ensures Eval(c, params + more, e) == Eval(c, params, e)
  {
    match c
    case Not(d) => EvalIgnoresLaterParams(d, params, more, e);
    case And(l, r) =>
      EvalIgnoresLaterParams(l, params, more, e);
      EvalIgnoresLaterParams(r, params, more, e);
    case Or(l, r) =>
      EvalIgnoresLaterParams(l, params, more, e);
      EvalIgnoresLaterParams(r, params, more, e);
    case _ =>
  }

  lemma {:induction false} EvalAllIgnoresLaterParams(cs: seq<Condition>, params: seq<Param>, more: seq<Param>, e: Employee)
    requires forall i :: 0 <= i < |cs| ==> PlaceholdersWithin(cs[i], 0, |params|)
    ensures EvalAll(cs, params + more, e) == EvalAll(cs, params, e)
  {
    if cs != [] {
      EvalAllIgnoresLaterParams(cs[..|cs| - 1], params, more, e);
      EvalIgnoresLaterParams(cs[|cs| - 1], params, more, e);
    }
  }
}
