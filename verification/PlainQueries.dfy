/** Queries as a caller makes them, and what their last operation does to the rows, in
    plain terms; then a few queries on tables of a few rows, with the rows they return. */
module PlainQueries {
  import opened Wrappers
  import opened FixedWidth
  import opened Expressions
  import opened Tables
  import opened FilterExecution
  import opened PlanSteps
  import opened Queries
  import opened Correctness
  import opened SafeLayouts
  import opened QueryCompilers

  // ----- the last operation of any query -----

  /** The query can be run exactly on the table, and its literals compared exactly. */
  predicate Runs(ops: seq<Op>, table: Table) {
    && Sound(table) && WellTyped(ops, Schema(table)) && Exact(ops, Schema(table))
    && FirstAdmissible(Fuse(ops), table)
  }

  /** Runs a query with one more comparison: of the rows that the query means without it,
      exactly those come back whose value in the named field compares so, in order. */
  method CompareLast(q: QueryCompiler, name: string, op: CompareOp, literal: CInt, table: Table)
    returns (result: Option<Table>, ghost ps: seq<nat>)
    requires q.Valid() && Runs(q.ops + [Where(Compare(name, op, literal))], table)
    ensures WellTyped(q.ops, Schema(table))
    ensures result.Some? ==>
      var before := Meaning(Numeric, q.ops, RelationOf(table));
      && Rectangular(result.value) && RelationOf(result.value).fields == before.fields
      && |RelationOf(result.value).rows| == |ps|
      && (forall i, j | 0 <= i < j < |ps| :: ps[i] < ps[j])
      && (forall i | 0 <= i < |ps| :: ps[i] < |before.rows| && RelationOf(result.value).rows[i] == before.rows[ps[i]])
      && forall k, j | 0 <= k < |before.rows| && 0 <= j < |before.fields| && before.fields[j].name == name ::
           (k in ps <==>
             match op
             case GT => before.rows[k][j] > literal
             case LT => before.rows[k][j] < literal
             case GE => before.rows[k][j] >= literal
             case LE => before.rows[k][j] <= literal
             case EQ => before.rows[k][j] == literal
             case NEQ => before.rows[k][j] != literal
           )
  {
    ghost var e, rel := Compare(name, op, literal), RelationOf(table);
    LastOperation(Numeric, q.ops, Where(e), rel);
    FuseIsTyped(q.ops + [Where(e)], table);
    ghost var before := Meaning(Numeric, q.ops, rel);
    var longer := q.Filter(Compare(name, op, literal));
    result := longer.Execute(table);
    ps := KeptPositions(Numeric, before.fields, before.rows, e);
    forall k, j | 0 <= k < |before.rows| && 0 <= j < |before.fields| && before.fields[j].name == name
      ensures k in ps <==>
        match op
        case GT => before.rows[k][j] > literal
        case LT => before.rows[k][j] < literal
        case GE => before.rows[k][j] >= literal
        case LE => before.rows[k][j] <= literal
        case EQ => before.rows[k][j] == literal
        case NEQ => before.rows[k][j] != literal
    {
      ComparisonOnRow(before.fields, before.rows[k], name, op, literal, j);
    }
  }

  lemma FuseIsTyped(ops: seq<Op>, t: Table)
    requires Rectangular(t) && WellTyped(ops, Schema(t)) && FirstAdmissible(Fuse(ops), t)
    ensures WellTyped(Fuse(ops), Schema(t)) && FirstSafe(Fuse(ops), t)
  {
    assert [] + ops == ops;
    FusePreservesMeaning(Narrowed, [], ops, RelationOf(t));
    FirstAdmissibleIsSafe(Fuse(ops), t);
  }

  /** Runs a query with one more disjunction: of the rows that the query means without it,
      exactly those come back that satisfy one side or the other, in order. */
  method EitherLast(q: QueryCompiler, l: BooleanExpr, r: BooleanExpr, table: Table)
    returns (result: Option<Table>, ghost ps: seq<nat>)
    requires q.Valid() && Runs(q.ops + [Where(Predicate(l, r, OR))], table)
    ensures WellTyped(q.ops, Schema(table))
    ensures result.Some? ==>
      var before := Meaning(Numeric, q.ops, RelationOf(table));
      && Resolves(before.fields, l) && Resolves(before.fields, r)
      && Rectangular(result.value) && RelationOf(result.value).fields == before.fields
      && |RelationOf(result.value).rows| == |ps|
      && (forall i, j | 0 <= i < j < |ps| :: ps[i] < ps[j])
      && (forall i | 0 <= i < |ps| :: ps[i] < |before.rows| && RelationOf(result.value).rows[i] == before.rows[ps[i]])
      && forall k | 0 <= k < |before.rows| ::
           k in ps <==> (|| RowSatisfies(Numeric, before.fields, before.rows[k], l)
                         || RowSatisfies(Numeric, before.fields, before.rows[k], r))
  {
    ghost var e, rel := Predicate(l, r, OR), RelationOf(table);
    LastOperation(Numeric, q.ops, Where(e), rel);
    FuseIsTyped(q.ops + [Where(e)], table);
    ghost var before := Meaning(Numeric, q.ops, rel);
    var longer := q.Filter(Predicate(l, r, OR));
    result := longer.Execute(table);
    ps := KeptPositions(Numeric, before.fields, before.rows, e);
    forall k | 0 <= k < |before.rows|
      ensures k in ps <==> (|| RowSatisfies(Numeric, before.fields, before.rows[k], l)
                            || RowSatisfies(Numeric, before.fields, before.rows[k], r))
    {
      JoinedOnRow(Numeric, before.fields, before.rows[k], l, r);
    }
  }

  /** Runs a query with one more projection: the columns come back under the names, in
      order, each row with the values it has under them without the projection. */
  method ProjectLast(q: QueryCompiler, names: seq<string>, table: Table) returns (result: Option<Table>)
    requires q.Valid() && Runs(q.ops + [Select(names)], table)
    ensures WellTyped(q.ops, Schema(table))
    ensures result.Some? ==>
      var before := Meaning(Numeric, q.ops, RelationOf(table));
      && Rectangular(result.value) && |result.value.columns| == |names|
      && (forall i | 0 <= i < |names| :: result.value.columns[i].field.name == names[i])
      && NumRows(result.value) == (if names == [] then 0 else |before.rows|)
      && forall k, i, j | 0 <= k < NumRows(result.value) && 0 <= i < |names| && 0 <= j < |before.fields| ::
           before.fields[j].name == names[i] ==> RowOf(result.value, k)[i] == before.rows[k][j]
  {
    ghost var rel := RelationOf(table);
    LastOperation(Numeric, q.ops, Select(names), rel);
    FuseIsTyped(q.ops + [Select(names)], table);
    ghost var before := Meaning(Numeric, q.ops, rel);
    ProjectionWritten(Numeric, before, names);
    var longer := q.Project(names);
    result := longer.Execute(table);
    if result.Some? {
      NamesOf(result.value, Apply(Numeric, Select(names), before).fields);
      RowsOf(result.value, Apply(Numeric, Select(names), before));
    }
  }

  lemma RowsOf(t: Table, rel: Relation)
    requires Rectangular(t) && RelationOf(t) == rel
    ensures NumRows(t) == |rel.rows| && forall k | 0 <= k < NumRows(t) :: RowOf(t, k) == rel.rows[k]
  {
    assert forall k | 0 <= k < NumRows(t) :: RelationOf(t).rows[k] == RowOf(t, k);
  }
}
