/** Queries as a user writes them, and what they mean row by row. */
module Queries {
  import opened FixedWidth
  import opened Expressions
  import opened Tables
  import opened FilterExecution
  import opened PlanSteps

  /** The operations of QueryCompiler. */
  datatype Op = Select(fields: seq<string>) | Where(expr: BooleanExpr)

  // ----- the meaning of a query on rows -----

  /** A row holds one value for each field. */
  type Row = seq<int>

  datatype Relation = Relation(fields: seq<Field>, rows: seq<Row>)

  /** All columns an expression names are there. */
  predicate Resolves(fields: seq<Field>, e: BooleanExpr) {
    match e
    case Compare(name, _, _) => HasField(fields, name)
    case Predicate(l, r, _) => Resolves(fields, l) && Resolves(fields, r)
  }

  /** How a query is read: its literals cut to the width of the column they are compared
      with, or as the numbers they are. */
  datatype Reading = Narrowed | Numeric

  predicate Compares(reading: Reading, t: DataType, op: CompareOp, v: int, literal: CInt) {
    match reading
    case Narrowed => Holds(op, Cut(t, v), Cut(t, literal))
    case Numeric => Holds(op, v, literal)
  }

  predicate RowSatisfies(reading: Reading, fields: seq<Field>, row: Row, e: BooleanExpr)
    requires Resolves(fields, e) && |row| == |fields|
  {
    match e
    case Compare(name, op, literal) =>
      var j := FieldIndex(fields, name);
      Compares(reading, fields[j].t, op, row[j], literal)
    case Predicate(l, r, op) =>
      Join(op, RowSatisfies(reading, fields, row, l), RowSatisfies(reading, fields, row, r))
  }

  predicate WellFormed(rel: Relation) {
    forall k | 0 <= k < |rel.rows| :: |rel.rows[k]| == |rel.fields|
  }

  function KeepRows(reading: Reading, fields: seq<Field>, rows: seq<Row>, e: BooleanExpr): seq<Row>
    requires Resolves(fields, e)
    requires forall k | 0 <= k < |rows| :: |rows[k]| == |fields|
  {
    if rows == [] then []
    else
      var last := |rows| - 1;
      KeepRows(reading, fields, rows[..last], e)
      + (if RowSatisfies(reading, fields, rows[last], e) then [rows[last]] else [])
  }

  predicate Names(fields: seq<Field>, names: seq<string>) {
    forall i | 0 <= i < |names| :: HasField(fields, names[i])
  }

  function PickFields(fields: seq<Field>, names: seq<string>): seq<Field>
    requires Names(fields, names)
  {
    seq(|names|, i requires 0 <= i < |names| => fields[FieldIndex(fields, names[i])])
  }

  function PickValues(fields: seq<Field>, row: Row, names: seq<string>): Row
    requires Names(fields, names) && |row| == |fields|
  {
    seq(|names|, i requires 0 <= i < |names| => row[FieldIndex(fields, names[i])])
  }

  /** A table without columns has no rows in Arrow; otherwise each row is narrowed. */
  function PickRows(fields: seq<Field>, rows: seq<Row>, names: seq<string>): seq<Row>
    requires Names(fields, names)
    requires forall k | 0 <= k < |rows| :: |rows[k]| == |fields|
  {
    if names == [] then []
    else seq(|rows|, k requires 0 <= k < |rows| => PickValues(fields, rows[k], names))
  }

  /** Every operation names columns that are there when its turn comes. */
  predicate WellTyped(ops: seq<Op>, fields: seq<Field>)
    decreases |ops|
  {
    if ops == [] then true
    else
      match ops[0]
      case Select(names) =>
        |names| < 0x8000_0000 && Names(fields, names) && WellTyped(ops[1..], PickFields(fields, names))
      case Where(e) => Resolves(fields, e) && WellTyped(ops[1..], fields)
  }

  lemma {:induction false} KeepRowsWellFormed(reading: Reading, rel: Relation, e: BooleanExpr)
    requires WellFormed(rel) && Resolves(rel.fields, e)
    ensures WellFormed(Relation(rel.fields, KeepRows(reading, rel.fields, rel.rows, e)))
    decreases |rel.rows|
  {
    if rel.rows != [] {
      var last := |rel.rows| - 1;
      KeepRowsWellFormed(reading, Relation(rel.fields, rel.rows[..last]), e);
    }
  }

  function Apply(reading: Reading, op: Op, rel: Relation): (r: Relation)
    requires WellFormed(rel) && WellTyped([op], rel.fields)
    ensures WellFormed(r)
    ensures r.fields == if op.Select? then PickFields(rel.fields, op.fields) else rel.fields
  {
    match op
    case Select(names) => Relation(PickFields(rel.fields, names), PickRows(rel.fields, rel.rows, names))
    case Where(e) =>
      KeepRowsWellFormed(reading, rel, e);
      Relation(rel.fields, KeepRows(reading, rel.fields, rel.rows, e))
  }

  /** What a query means: its operations applied to the rows, in order. */
  function Meaning(reading: Reading, ops: seq<Op>, rel: Relation): (r: Relation)
    requires WellFormed(rel) && WellTyped(ops, rel.fields)
    ensures WellFormed(r)
  {
    if ops == [] then rel
    else Meaning(reading, ops[1..], Apply(reading, ops[0], rel))
  }

  // ----- what the operations mean, written out -----

  /** A comparison with a literal, where field j has the name. */
  lemma ComparisonOnRow(fields: seq<Field>, row: Row, name: string, op: CompareOp, literal: CInt, j: nat)
    requires |row| == |fields| && HasField(fields, name) && j < |fields| && fields[j].name == name
    ensures RowSatisfies(Numeric, fields, row, Compare(name, op, literal)) <==>
      match op
      case GT => row[j] > literal
      case LT => row[j] < literal
      case GE => row[j] >= literal
      case LE => row[j] <= literal
      case EQ => row[j] == literal
      case NEQ => row[j] != literal
    ensures RowSatisfies(Narrowed, fields, row, Compare(name, op, literal)) <==>
      match op
      case GT => Cut(fields[j].t, row[j]) > Cut(fields[j].t, literal)
      case LT => Cut(fields[j].t, row[j]) < Cut(fields[j].t, literal)
      case GE => Cut(fields[j].t, row[j]) >= Cut(fields[j].t, literal)
      case LE => Cut(fields[j].t, row[j]) <= Cut(fields[j].t, literal)
      case EQ => Cut(fields[j].t, row[j]) == Cut(fields[j].t, literal)
      case NEQ => Cut(fields[j].t, row[j]) != Cut(fields[j].t, literal)
  {
  }

  lemma JoinedOnRow(reading: Reading, fields: seq<Field>, row: Row, l: BooleanExpr, r: BooleanExpr)
    requires |row| == |fields| && Resolves(fields, l) && Resolves(fields, r)
    ensures RowSatisfies(reading, fields, row, Predicate(l, r, AND))
       <==> RowSatisfies(reading, fields, row, l) && RowSatisfies(reading, fields, row, r)
    ensures RowSatisfies(reading, fields, row, Predicate(l, r, OR))
       <==> RowSatisfies(reading, fields, row, l) || RowSatisfies(reading, fields, row, r)
  {
  }

  lemma {:induction false} KeptIff(reading: Reading, fields: seq<Field>, rows: seq<Row>, e: BooleanExpr, row: Row)
    requires Resolves(fields, e) && WellFormed(Relation(fields, rows)) && |row| == |fields|
    ensures row in KeepRows(reading, fields, rows, e) <==> row in rows && RowSatisfies(reading, fields, row, e)
    decreases |rows|
  {
    if rows != [] {
      var last := |rows| - 1;
      KeptIff(reading, fields, rows[..last], e, row);
      assert rows == rows[..last] + [rows[last]];
    }
  }

  /** A disjunction keeps the rows that either side keeps, a conjunction those that both do. */
  lemma EitherKeeps(reading: Reading, fields: seq<Field>, rows: seq<Row>, l: BooleanExpr, r: BooleanExpr, row: Row)
    requires Resolves(fields, l) && Resolves(fields, r) && WellFormed(Relation(fields, rows)) && |row| == |fields|
    ensures row in KeepRows(reading, fields, rows, Predicate(l, r, OR))
       <==> row in KeepRows(reading, fields, rows, l) || row in KeepRows(reading, fields, rows, r)
    ensures row in KeepRows(reading, fields, rows, Predicate(l, r, AND))
       <==> row in KeepRows(reading, fields, rows, l) && row in KeepRows(reading, fields, rows, r)
  {
    KeptIff(reading, fields, rows, l, row);
    KeptIff(reading, fields, rows, r, row);
    KeptIff(reading, fields, rows, Predicate(l, r, OR), row);
    KeptIff(reading, fields, rows, Predicate(l, r, AND), row);
    JoinedOnRow(reading, fields, row, l, r);
  }

  /** A projection gives a field for each name, in order, and each row's values under those
      names; without a name there is no row. */
  lemma ProjectionWritten(reading: Reading, rel: Relation, names: seq<string>)
    requires WellFormed(rel) && WellTyped([Select(names)], rel.fields)
    ensures var p := Apply(reading, Select(names), rel);
      && |p.fields| == |names| && |p.rows| == (if names == [] then 0 else |rel.rows|)
      && (forall i | 0 <= i < |names| :: p.fields[i].name == names[i] && p.fields[i] in rel.fields)
      && forall k, i, j | 0 <= k < |p.rows| && 0 <= i < |names| && 0 <= j < |rel.fields| ::
           rel.fields[j].name == names[i] ==> p.rows[k][i] == rel.rows[k][j]
  {
    var p := Apply(reading, Select(names), rel);
    forall i | 0 <= i < |names|
      ensures p.fields[i].name == names[i] && p.fields[i] in rel.fields
    {
      assert HasField(rel.fields, names[i]);
    }
    forall k, i, j | 0 <= k < |p.rows| && 0 <= i < |names| && 0 <= j < |rel.fields| && rel.fields[j].name == names[i]
      ensures p.rows[k][i] == rel.rows[k][j]
    {
      assert HasField(rel.fields, names[i]) && j == FieldIndex(rel.fields, names[i]);
    }
  }

  /** The last operation of a query is applied to what the ones before it mean. */
  lemma {:induction false} LastOperation(reading: Reading, ops: seq<Op>, op: Op, rel: Relation)
    requires WellFormed(rel) && WellTyped(ops + [op], rel.fields)
    ensures WellTyped(ops, rel.fields) && WellTyped([op], Meaning(reading, ops, rel).fields)
    ensures Meaning(reading, ops + [op], rel) == Apply(reading, op, Meaning(reading, ops, rel))
    decreases |ops|
  {
    if ops == [] {
      assert ops + [op] == [op] && [op][1..] == [];
    } else {
      assert (ops + [op])[1..] == ops[1..] + [op];
      LastOperation(reading, ops[1..], op, Apply(reading, ops[0], rel));
    }
  }

  // ----- when both readings agree -----

  /** Every literal can be compared exactly with the type of its column. */
  predicate ExactIn(fields: seq<Field>, e: BooleanExpr)
    requires Resolves(fields, e)
  {
    match e
    case Compare(name, op, literal) => ExactLiteral(fields[FieldIndex(fields, name)].t, op, literal)
    case Predicate(l, r, _) => ExactIn(fields, l) && ExactIn(fields, r)
  }

  predicate Exact(ops: seq<Op>, fields: seq<Field>)
    requires WellTyped(ops, fields)
    decreases |ops|
  {
    if ops == [] then true
    else
      match ops[0]
      case Select(names) => Exact(ops[1..], PickFields(fields, names))
      case Where(e) => ExactIn(fields, e) && Exact(ops[1..], fields)
  }

  /** The values of a row lie in the ranges of their columns' types. */
  predicate InRanges(fields: seq<Field>, row: Row)
    requires |row| == |fields|
  {
    forall j | 0 <= j < |row| :: InRange(fields[j].t, row[j])
  }

  predicate AllInRanges(rel: Relation)
    requires WellFormed(rel)
  {
    forall k | 0 <= k < |rel.rows| :: InRanges(rel.fields, rel.rows[k])
  }

  lemma {:induction false} ReadingsAgreeOnRow(fields: seq<Field>, row: Row, e: BooleanExpr)
    requires Resolves(fields, e) && ExactIn(fields, e)
    requires |row| == |fields| && InRanges(fields, row)
    ensures RowSatisfies(Narrowed, fields, row, e) == RowSatisfies(Numeric, fields, row, e)
  {
    match e {
      case Compare(name, op, literal) =>
        var j := FieldIndex(fields, name);
        ComparisonExact(fields[j].t, op, row[j], literal);
        MachineCompareIsNarrowed(fields[j].t, op, row[j], literal);
      case Predicate(l, r, _) =>
        ReadingsAgreeOnRow(fields, row, l);
        ReadingsAgreeOnRow(fields, row, r);
    }
  }

  lemma {:induction false} ReadingsKeepSameRows(rel: Relation, e: BooleanExpr)
    requires Resolves(rel.fields, e) && ExactIn(rel.fields, e) && WellFormed(rel) && AllInRanges(rel)
    ensures KeepRows(Narrowed, rel.fields, rel.rows, e) == KeepRows(Numeric, rel.fields, rel.rows, e)
    ensures AllInRanges(Apply(Numeric, Where(e), rel))
    decreases |rel.rows|
  {
    if rel.rows != [] {
      var last := |rel.rows| - 1;
      ReadingsAgreeOnRow(rel.fields, rel.rows[last], e);
      ReadingsKeepSameRows(Relation(rel.fields, rel.rows[..last]), e);
    }
  }

  lemma PickedInRanges(rel: Relation, names: seq<string>)
    requires WellFormed(rel) && AllInRanges(rel) && WellTyped([Select(names)], rel.fields)
    ensures AllInRanges(Apply(Numeric, Select(names), rel))
  {
    var picked := Apply(Numeric, Select(names), rel);
    forall k | 0 <= k < |picked.rows|
      ensures InRanges(picked.fields, picked.rows[k])
    {
      assert InRanges(rel.fields, rel.rows[k]);
    }
  }

  /** If its literals can be compared exactly, a query means the same in both readings. */
  lemma {:induction false} ReadingsAgree(ops: seq<Op>, rel: Relation)
    requires WellFormed(rel) && AllInRanges(rel) && WellTyped(ops, rel.fields) && Exact(ops, rel.fields)
    ensures Meaning(Narrowed, ops, rel) == Meaning(Numeric, ops, rel)
    decreases |ops|
  {
    if ops != [] {
      match ops[0] {
        case Select(names) => PickedInRanges(rel, names);
        case Where(e) => ReadingsKeepSameRows(rel, e);
      }
      ReadingsAgree(ops[1..], Apply(Numeric, ops[0], rel));
    }
  }

  // ----- the plan QueryCompiler builds for a query -----

  function LowerOp(op: Op): seq<Step> {
    match op
    case Select(names) => [Project(names)]
    case Where(e) => [Filter(e), Materialize]
  }

  function Lower(ops: seq<Op>): seq<Step> {
    if ops == [] then [] else LowerOp(ops[0]) + Lower(ops[1..])
  }

  lemma {:induction false} LowerAppend(a: seq<Op>, b: seq<Op>)
    ensures Lower(a + b) == Lower(a) + Lower(b)
  {
    if a == [] {
      assert a + b == b;
    } else {
      assert (a + b)[1..] == a[1..] + b;
      LowerAppend(a[1..], b);
    }
  }

  lemma LowerOne(ops: seq<Op>, op: Op)
    ensures Lower(ops + [op]) == Lower(ops) + LowerOp(op)
  {
    LowerAppend(ops, [op]);
    assert Lower([op]) == LowerOp(op) + [];
  }

  // ----- fusing adjacent filters -----

  /** One more operation on top: a filter right after a filter joins it. */
  function FuseOp(below: seq<Op>, op: Op): seq<Op> {
    if op.Where? && below != [] && below[|below| - 1].Where?
    then below[..|below| - 1] + [Where(below[|below| - 1].expr.And(op.expr))]
    else below + [op]
  }

  function FuseOnto(below: seq<Op>, ops: seq<Op>): seq<Op>
    decreases |ops|
  {
    if ops == [] then below else FuseOnto(FuseOp(below, ops[0]), ops[1..])
  }

  function Fuse(ops: seq<Op>): seq<Op> {
    FuseOnto([], ops)
  }

  /** JoinFilterPass on the plan of a query gives the plan of the fused query. */
  lemma {:induction false} JoinFiltersIsFuse(below: seq<Op>, ops: seq<Op>)
    ensures Rewrite(true, Lower(below), Lower(ops)) == Lower(FuseOnto(below, ops))
    decreases |ops|
  {
    if ops != [] {
      RewriteAppend(true, Lower(below), LowerOp(ops[0]), Lower(ops[1..]));
      JoinOp(below, ops[0]);
      JoinFiltersIsFuse(FuseOp(below, ops[0]), ops[1..]);
    }
  }

  lemma JoinOp(below: seq<Op>, op: Op)
    ensures Rewrite(true, Lower(below), LowerOp(op)) == Lower(FuseOp(below, op))
  {
    LowerOne(below, op);
    match op {
      case Select(names) =>
        RewriteOne(true, Lower(below), [], Project(names));
        assert [] + [Project(names)] == [Project(names)];
      case Where(e) =>
        assert [Filter(e)] + [Materialize] == LowerOp(op);
        RewriteOne(true, Lower(below), [Filter(e)], Materialize);
        assert [] + [Filter(e)] == [Filter(e)];
        RewriteOne(true, Lower(below), [], Filter(e));
        JoinOntoLowered(below, e);
    }
  }

  lemma JoinOntoLowered(below: seq<Op>, e: BooleanExpr)
    ensures JoinFilter(Lower(below), e) + [Materialize] == Lower(FuseOp(below, Where(e)))
  {
    if below != [] && below[|below| - 1].Where? {
      var before, p := below[..|below| - 1], below[|below| - 1].expr;
      assert below == before + [Where(p)];
      LowerOne(before, Where(p));
      JoinPastMaterialize(Lower(before), p, e);
      LowerOne(before, Where(p.And(e)));
    } else {
      LowerOne(below, Where(e));
      if below != [] {
        var before, last := below[..|below| - 1], below[|below| - 1];
        assert below == before + [last];
        LowerOne(before, last);
        JoinPastProject(Lower(before), last.fields, e);
      }
    }
  }

  lemma JoinPastProject(rest: seq<Step>, names: seq<string>, e: BooleanExpr)
    ensures JoinFilter(rest + [Project(names)], e) + [Materialize]
         == rest + [Project(names)] + [Filter(e), Materialize]
  {
  }

  lemma JoinPastMaterialize(rest: seq<Step>, p: BooleanExpr, e: BooleanExpr)
    ensures JoinFilter(rest + [Filter(p), Materialize], e) == rest + [Filter(p.And(e))]
  {
    var below := rest + [Filter(p), Materialize];
    assert below[..|below| - 1] == rest + [Filter(p)];
    assert (rest + [Filter(p)])[..|rest|] == rest;
  }

  // ----- the fused query -----

  /** No filter directly follows a filter. */
  predicate Fused(ops: seq<Op>) {
    forall i | 0 <= i < |ops| - 1 :: !(ops[i].Where? && ops[i + 1].Where?)
  }

  lemma {:induction false} FuseIsFused(below: seq<Op>, ops: seq<Op>)
    requires Fused(below)
    ensures Fused(FuseOnto(below, ops))
    decreases |ops|
  {
    if ops != [] {
      FuseIsFused(FuseOp(below, ops[0]), ops[1..]);
    }
  }

  /** A fused query is left as it is: a second run of the pass changes nothing. */
  lemma {:induction false} FuseKeepsFused(below: seq<Op>, ops: seq<Op>)
    requires Fused(below + ops)
    ensures FuseOnto(below, ops) == below + ops
    decreases |ops|
  {
    if ops == [] {
      assert below + ops == below;
    } else {
      if below != [] {
        assert (below + ops)[|below| - 1] == below[|below| - 1] && (below + ops)[|below| - 1 + 1] == ops[0];
      }
      assert below + [ops[0]] + ops[1..] == below + ops;
      FuseKeepsFused(below + [ops[0]], ops[1..]);
    }
  }

  lemma FuseIdempotent(ops: seq<Op>)
    ensures Fuse(Fuse(ops)) == Fuse(ops)
  {
    FuseIsFused([], ops);
    assert [] + Fuse(ops) == Fuse(ops);
    FuseKeepsFused([], Fuse(ops));
  }

  /** The filters of a list of expressions, one after the other. */
  function Filters(es: seq<BooleanExpr>): seq<Op> {
    seq(|es|, i requires 0 <= i < |es| => Where(es[i]))
  }

  /** (((e0 AND e1) AND e2) ...) */
  function LeftAnd(es: seq<BooleanExpr>): BooleanExpr
    requires es != []
  {
    if |es| == 1 then es[0] else LeftAnd(es[..|es| - 1]).And(es[|es| - 1])
  }

  /** A run of filters becomes one filter by the left-nested AND, in source order. */
  lemma {:induction false} FuseRun(below: seq<Op>, es: seq<BooleanExpr>)
    requires es != [] && (below == [] || below[|below| - 1].Select?)
    ensures FuseOnto(below, Filters(es)) == below + [Where(LeftAnd(es))]
    decreases |es|
  {
    var last := |es| - 1;
    var before := es[..last];
    assert Filters(es) == Filters(before) + [Where(es[last])];
    FuseOntoAppend(below, Filters(before), [Where(es[last])]);
    if before == [] {
      assert Filters(before) == [];
    } else {
      FuseRun(below, before);
      assert (below + [Where(LeftAnd(before))])[..|below|] == below;
    }
    assert [Where(es[last])][1..] == [];
  }

  lemma {:induction false} FuseOntoAppend(below: seq<Op>, a: seq<Op>, b: seq<Op>)
    ensures FuseOnto(below, a + b) == FuseOnto(FuseOnto(below, a), b)
    decreases |a|
  {
    if a == [] {
      assert a + b == b;
    } else {
      assert (a + b)[1..] == a[1..] + b;
      FuseOntoAppend(FuseOp(below, a[0]), a[1..], b);
    }
  }

  /** Two filters become one by the conjunction, the first filter's expression first. */
  lemma FusePair(p: BooleanExpr, e: BooleanExpr)
    ensures Fuse([Where(p), Where(e)]) == [Where(Predicate(p, e, AND))]
  {
    var es := [p, e];
    assert es[..1] == [p] && [Where(p), Where(e)] == Filters(es);
    FuseRun([], es);
  }

  function Selects(ops: seq<Op>): seq<Op> {
    if ops == [] then []
    else Selects(ops[..|ops| - 1]) + (if ops[|ops| - 1].Select? then [ops[|ops| - 1]] else [])
  }

  lemma SelectsOne(ops: seq<Op>, op: Op)
    ensures Selects(ops + [op]) == Selects(ops) + (if op.Select? then [op] else [])
  {
    assert (ops + [op])[..|ops|] == ops;
  }

  lemma {:induction false} SelectsAppend(a: seq<Op>, b: seq<Op>)
    ensures Selects(a + b) == Selects(a) + Selects(b)
    decreases |b|
  {
    if b == [] {
      assert a + b == a;
    } else {
      assert (a + b)[..|a + b| - 1] == a + b[..|b| - 1];
      SelectsAppend(a, b[..|b| - 1]);
    }
  }

  /** The projections stay, in the same order. */
  lemma {:induction false} FuseKeepsSelects(below: seq<Op>, ops: seq<Op>)
    ensures Selects(FuseOnto(below, ops)) == Selects(below) + Selects(ops)
    decreases |ops|
  {
    if ops == [] {
      assert Selects(below) + [] == Selects(below);
    } else {
      FuseKeepsSelects(FuseOp(below, ops[0]), ops[1..]);
      FuseOpKeepsSelects(below, ops[0]);
      SelectsHead(ops);
      Regroup(Selects(below), Selects([ops[0]]), Selects(ops[1..]));
    }
  }

  lemma SelectsHead(ops: seq<Op>)
    requires ops != []
    ensures Selects(ops) == Selects([ops[0]]) + Selects(ops[1..])
  {
    SelectsAppend([ops[0]], ops[1..]);
    assert ops == [ops[0]] + ops[1..];
  }

  lemma Regroup<T>(a: seq<T>, b: seq<T>, c: seq<T>)
    ensures a + b + c == a + (b + c)
  {
  }

  lemma FuseOpKeepsSelects(below: seq<Op>, op: Op)
    ensures Selects(FuseOp(below, op)) == Selects(below) + Selects([op])
  {
    SelectsAppend(below, [op]);
    if op.Where? && below != [] && below[|below| - 1].Where? {
      var before, p := below[..|below| - 1], below[|below| - 1];
      assert below == before + [p];
      SelectsOne(before, p);
      SelectsOne(below, op);
      SelectsOne(before, Where(p.expr.And(op.expr)));
    }
  }

  /** In an optimised plan every filter stands directly on a projection or on the input,
      and directly below one materialisation. */
  predicate NormalSteps(steps: seq<Step>) {
    forall i | 0 <= i < |steps| :: steps[i].Filter? ==>
      && (i > 0 ==> steps[i - 1].Project?)
      && i + 1 < |steps| && steps[i + 1].Materialize?
  }

  lemma FusedTail(ops: seq<Op>)
    requires Fused(ops) && ops != []
    ensures Fused(ops[1..])
  {
    var tail := ops[1..];
    forall i | 0 <= i < |tail| - 1
      ensures !(tail[i].Where? && tail[i + 1].Where?)
    {
      assert ops[i + 1] == tail[i] && ops[(i + 1) + 1] == tail[i + 1];
    }
  }

  lemma {:induction false} LowerFusedIsNormal(ops: seq<Op>)
    requires Fused(ops)
    ensures NormalSteps(Lower(ops))
    ensures ops != [] ==> Lower(ops) != [] && (Lower(ops)[0].Project? <==> ops[0].Select?)
  {
    if ops != [] {
      FusedTail(ops);
      LowerFusedIsNormal(ops[1..]);
      var head: seq<Step>, tail: seq<Step> := LowerOp(ops[0]), Lower(ops[1..]);
      if ops[0].Where? && tail != [] {
        assert ops[1..] != [];
        assert ops[1].Select?;
      }
      forall i | 0 <= i < |head + tail| && (head + tail)[i].Filter?
        ensures i > 0 ==> (head + tail)[i - 1].Project?
        ensures i + 1 < |head + tail| && (head + tail)[i + 1].Materialize?
      {
        if i >= |head| {
          assert tail[i - |head|].Filter?;
        }
      }
    }
  }

  // ----- fusing preserves the meaning, however the query is read -----

  lemma KeepRowsOne(reading: Reading, fields: seq<Field>, rows: seq<Row>, row: Row, e: BooleanExpr)
    requires Resolves(fields, e) && WellFormed(Relation(fields, rows)) && |row| == |fields|
    ensures WellFormed(Relation(fields, rows + [row]))
    ensures KeepRows(reading, fields, rows + [row], e)
         == KeepRows(reading, fields, rows, e) + (if RowSatisfies(reading, fields, row, e) then [row] else [])
  {
    assert (rows + [row])[..|rows|] == rows;
  }

  lemma {:induction false} KeepRowsTwice(reading: Reading, fields: seq<Field>, rows: seq<Row>,
                                         p: BooleanExpr, e: BooleanExpr)
    requires Resolves(fields, p) && Resolves(fields, e)
    requires WellFormed(Relation(fields, rows))
    ensures WellFormed(Relation(fields, KeepRows(reading, fields, rows, p)))
    ensures KeepRows(reading, fields, KeepRows(reading, fields, rows, p), e)
         == KeepRows(reading, fields, rows, p.And(e))
  {
    KeepRowsWellFormed(reading, Relation(fields, rows), p);
    if rows != [] {
      var last := |rows| - 1;
      var row, kept := rows[last], KeepRows(reading, fields, rows[..last], p);
      KeepRowsTwice(reading, fields, rows[..last], p, e);
      if RowSatisfies(reading, fields, row, p) {
        KeepRowsOne(reading, fields, kept, row, e);
      } else {
        assert kept + [] == kept;
      }
    }
  }

  lemma {:induction false} JoinedFilterMeans(reading: Reading, before: seq<Op>, p: BooleanExpr, e: BooleanExpr,
                                            rest: seq<Op>, rel: Relation)
    requires WellFormed(rel) && WellTyped(before + [Where(p), Where(e)] + rest, rel.fields)
    ensures WellTyped(before + [Where(p.And(e))] + rest, rel.fields)
    ensures Meaning(reading, before + [Where(p.And(e))] + rest, rel)
         == Meaning(reading, before + [Where(p), Where(e)] + rest, rel)
  {
    var split, joined := before + [Where(p), Where(e)] + rest, before + [Where(p.And(e))] + rest;
    if before == [] {
      assert split[1..] == [Where(e)] + rest && split[1..][1..] == rest && joined[1..] == rest;
      KeepRowsTwice(reading, rel.fields, rel.rows, p, e);
    } else {
      assert split[1..] == before[1..] + [Where(p), Where(e)] + rest;
      assert joined[1..] == before[1..] + [Where(p.And(e))] + rest;
      JoinedFilterMeans(reading, before[1..], p, e, rest, Apply(reading, before[0], rel));
    }
  }

  lemma {:induction false} FusePreservesMeaning(reading: Reading, below: seq<Op>, ops: seq<Op>, rel: Relation)
    requires WellFormed(rel) && WellTyped(below + ops, rel.fields)
    ensures WellTyped(FuseOnto(below, ops), rel.fields)
    ensures Meaning(reading, FuseOnto(below, ops), rel) == Meaning(reading, below + ops, rel)
    decreases |ops|
  {
    if ops == [] {
      assert below + ops == below;
    } else {
      assert below + [ops[0]] + ops[1..] == below + ops;
      if FuseOp(below, ops[0]) != below + [ops[0]] {
        var last := |below| - 1;
        assert below[..last] + [below[last], ops[0]] + ops[1..] == below + ops;
        JoinedFilterMeans(reading, below[..last], below[last].expr, ops[0].expr, ops[1..], rel);
      }
      FusePreservesMeaning(reading, FuseOp(below, ops[0]), ops[1..], rel);
    }
  }
}
