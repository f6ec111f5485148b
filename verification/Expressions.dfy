/** Boolean expressions of a query (pefa/query_compiler/expressions.h).  They are
    immutable and shared, hence values. */
module Expressions {
  import opened FixedWidth

  datatype PredicateOp = AND | OR

  datatype BooleanExpr =
    | Compare(column: string, op: CompareOp, literal: CInt)
    | Predicate(lhs: BooleanExpr, rhs: BooleanExpr, pop: PredicateOp)
  {
    /** BooleanExpr::AND */
    function And(other: BooleanExpr): BooleanExpr {
      Predicate(this, other, AND)
    }
  }

  function Join(op: PredicateOp, a: bool, b: bool): bool {
    if op == AND then a && b else a || b
  }

  /** Every comparison of the expression is on the named column. */
  predicate OverColumn(e: BooleanExpr, column: string) {
    match e
    case Compare(c, _, _) => c == column
    case Predicate(l, r, _) => OverColumn(l, column) && OverColumn(r, column)
  }

  /** The truth value of an expression over one column of type t, on a stored pattern. */
  predicate MatchesPattern(e: BooleanExpr, t: DataType, p: nat) {
    match e
    case Compare(_, op, literal) => MachineCompare(t, op, p, literal)
    case Predicate(l, r, op) => Join(op, MatchesPattern(l, t, p), MatchesPattern(r, t, p))
  }

  lemma JoinedOnPattern(l: BooleanExpr, r: BooleanExpr, t: DataType, p: nat)
    ensures MatchesPattern(Predicate(l, r, AND), t, p) <==> MatchesPattern(l, t, p) && MatchesPattern(r, t, p)
    ensures MatchesPattern(Predicate(l, r, OR), t, p) <==> MatchesPattern(l, t, p) || MatchesPattern(r, t, p)
  {
  }
}
