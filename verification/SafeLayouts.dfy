/** Queries on tables whose layouts need not be admissible: execution is defined exactly
    where the first filter compares columns of safe layout, it is known exactly what it
    gives there, no row is lost, and admissibility is exactly what rules out extra rows. */
module SafeLayouts {
  import opened Wrappers
  import opened FixedWidth
  import opened Expressions
  import opened Layout
  import opened Tables
  import opened FilterExecution
  import opened Compaction
  import opened PlanSteps
  import opened Queries
  import opened Correctness

  // ----- rows among rows -----

  /** The rows a are some of the rows b, in order. */
  ghost predicate Among(a: seq<Row>, b: seq<Row>) {
    exists sel: seq<bool> :: |sel| == |b| && a == Compact(b, sel)
  }

  /** That is, there are ascending positions in b that hold them. */
  lemma AmongWritten(a: seq<Row>, b: seq<Row>) returns (ps: seq<nat>)
    requires Among(a, b)
    ensures |ps| == |a| && (forall i, j | 0 <= i < j < |ps| :: ps[i] < ps[j])
    ensures forall i | 0 <= i < |ps| :: ps[i] < |b| && a[i] == b[ps[i]]
  {
    var sel :| |sel| == |b| && a == Compact(b, sel);
    ps := Positions(sel);
    PositionsSound(sel);
    CompactAt(b, sel);
  }

  lemma {:induction false} CompactAll<T>(rows: seq<T>, sel: seq<bool>)
    requires |sel| == |rows| && forall k | 0 <= k < |sel| :: sel[k]
    ensures Compact(rows, sel) == rows
  {
    if rows != [] {
      CompactAll(rows[..|rows| - 1], sel[..|rows| - 1]);
    }
  }

  lemma AmongItself(rows: seq<Row>)
    ensures Among(rows, rows)
  {
    CompactAll(rows, Ones(|rows|));
  }

  /** The truth of an expression on each of some rows. */
  function RowTruths(fields: seq<Field>, rows: seq<Row>, e: BooleanExpr): (r: seq<bool>)
    requires Resolves(fields, e) && WellFormed(Relation(fields, rows))
    ensures |r| == |rows|
  {
    seq(|rows|, k requires 0 <= k < |rows| => RowSatisfies(Narrowed, fields, rows[k], e))
  }

  lemma SelectedTruths(fields: seq<Field>, rows: seq<Row>, sel: seq<bool>, e: BooleanExpr)
    requires Resolves(fields, e) && WellFormed(Relation(fields, rows)) && |sel| == |rows|
    ensures WellFormed(Relation(fields, Compact(rows, sel)))
    ensures RowTruths(fields, Compact(rows, sel), e) == Compact(RowTruths(fields, rows, e), sel)
  {
    CompactAt(rows, sel);
    CompactAt(RowTruths(fields, rows, e), sel);
  }

  /** The matching rows among selected rows are the rows that are selected and match. */
  lemma MatchesAmongSelected(fields: seq<Field>, rows: seq<Row>, sel: seq<bool>, e: BooleanExpr)
    requires Resolves(fields, e) && WellFormed(Relation(fields, rows)) && |sel| == |rows|
    ensures WellFormed(Relation(fields, Compact(rows, sel)))
    ensures KeepRows(Narrowed, fields, Compact(rows, sel), e)
         == Compact(rows, BothSelect(sel, RowTruths(fields, rows, e)))
  {
    var truths := RowTruths(fields, rows, e);
    SelectedTruths(fields, rows, sel, e);
    KeepRowsCompacts(Narrowed, fields, Compact(rows, sel), e, RowTruths(fields, Compact(rows, sel), e));
    CompactCompose(rows, sel, truths);
  }

  /** Fewer selected rows are among more. */
  lemma SelectedAmong(rows: seq<Row>, fewer: seq<bool>, more: seq<bool>)
    requires |fewer| == |more| == |rows| && forall k | 0 <= k < |rows| :: fewer[k] ==> more[k]
    ensures Among(Compact(rows, fewer), Compact(rows, more))
  {
    assert BothSelect(more, fewer) == fewer;
    CompactCompose(rows, more, fewer);
  }

  /** The matching rows among selected rows are among those that any bitmap selects which
      has ones for selected rows that match. */
  lemma KeptAmongSelected(fields: seq<Field>, rows: seq<Row>, sel: seq<bool>, e: BooleanExpr, s: seq<bool>)
    requires Resolves(fields, e) && WellFormed(Relation(fields, rows)) && |sel| == |s| == |rows|
    requires forall k | 0 <= k < |rows| :: sel[k] && RowSatisfies(Narrowed, fields, rows[k], e) ==> s[k]
    ensures WellFormed(Relation(fields, Compact(rows, sel)))
    ensures Among(KeepRows(Narrowed, fields, Compact(rows, sel), e), Compact(rows, s))
  {
    MatchesAmongSelected(fields, rows, sel, e);
    SelectedAmong(rows, BothSelect(sel, RowTruths(fields, rows, e)), s);
  }

  lemma PickedAmong(fields: seq<Field>, a: seq<Row>, b: seq<Row>, names: seq<string>)
    requires Names(fields, names) && Among(a, b)
    requires WellFormed(Relation(fields, a)) && WellFormed(Relation(fields, b))
    ensures Among(PickRows(fields, a, names), PickRows(fields, b, names))
  {
    if names == [] {
      AmongItself([]);
    } else {
      var sel :| |sel| == |b| && a == Compact(b, sel);
      var picked := PickRows(fields, b, names);
      CompactAt(b, sel);
      CompactAt(picked, sel);
      assert PickRows(fields, a, names) == Compact(picked, sel);
    }
  }

  // ----- queries on safe tables -----

  lemma LaterSafe(ops: seq<Op>, t: Table)
    requires Rectangular(t) && WellTyped(ops, Schema(t)) && AllAdmissible(t)
    ensures FirstSafe(ops, t)
  {
    AllAdmissibleFirst(ops, t);
    FirstAdmissibleIsSafe(ops, t);
  }

  /** A well-typed query executes without undefined behaviour if and only if its first
      filter compares columns of safe layout.  Then it throws exactly when that filter
      meets a first column without chunks. */
  lemma {:induction false} QueryIsDefinedIff(ops: seq<Op>, t: Table)
    requires Rectangular(t) && WellTyped(ops, Schema(t))
    ensures var o := Run(Lower(ops), Context(t, None));
      if !FirstSafe(ops, t) then o == Undefined
      else if FindsNoChunks(ops, t) then o == Thrown
      else o.Done? && Rectangular(o.context.table)
    decreases |ops|
  {
    if ops != [] {
      RunAppend(LowerOp(ops[0]), Lower(ops[1..]), Context(t, None));
      match ops[0] {
        case Select(names) =>
          ProjectStep(t, names);
          QueryIsDefinedIff(ops[1..], ProjectTable(t, names));
        case Where(e) =>
          if NothingToFilter(t) || SafeFor(t, e) {
            SelectionStep(t, e);
          } else {
            UnsafeFilterIsUndefined(t, e);
          }
          if !NothingToFilter(t) && SafeFor(t, e) {
            var next := MaterialiseTable(t, TreeBits(t, e)[..NumRows(t)]);
            ChunksAreFound(ops[1..], next);
            LaterSafe(ops[1..], next);
            QueryIsDefinedIff(ops[1..], next);
          }
      }
    }
  }

  lemma UnsafeFilterIsUndefined(t: Table, e: BooleanExpr)
    requires Rectangular(t) && Resolves(Schema(t), e) && !NothingToFilter(t) && !SafeFor(t, e)
    ensures Run(LowerOp(Where(e)), Context(t, None)) == Undefined
  {
    FilterableIff(t, e);
    RunTwo(Filter(e), Materialize, Context(t, None));
  }

  /** The same for the optimised plan, whose first filter is the query's first run of
      filters. */
  lemma {:induction false} OptimisedQueryIsDefinedIff(ops: seq<Op>, t: Table)
    requires Rectangular(t) && WellTyped(ops, Schema(t))
    ensures var o := Run(Rewrite(true, [], Lower(ops)), Context(t, None));
      if !FirstSafe(Fuse(ops), t) then o == Undefined
      else if FindsNoChunks(ops, t) then o == Thrown
      else o.Done? && Rectangular(o.context.table)
  {
    assert [] + ops == ops;
    JoinFiltersIsFuse([], ops);
    FuseKeepsChecks([], ops, t);
    QueryIsDefinedIff(Fuse(ops), t);
  }

  /** One operation: the rows it means on some of a table's rows are among those that
      executing it on the table gives. */
  lemma StepLosesNoRow(op: Op, t: Table, rel: Relation)
    requires Rectangular(t) && WellTyped([op], Schema(t))
    requires op.Where? ==> !NothingToFilter(t) && SafeFor(t, op.expr)
    requires rel.fields == Schema(t) && WellFormed(rel) && Among(rel.rows, RelationOf(t).rows)
    ensures var o := Run(LowerOp(op), Context(t, None));
      && o.Done? && o.context.bitmap == None
      && Rectangular(o.context.table)
      && Apply(Narrowed, op, rel).fields == Schema(o.context.table)
      && Among(Apply(Narrowed, op, rel).rows, RelationOf(o.context.table).rows)
      && (op.Where? ==> HasChunks(o.context.table) && AllAdmissible(o.context.table))
      && (op.Select? ==> o.context.table == ProjectTable(t, op.fields))
  {
    match op {
      case Select(names) =>
        ProjectStep(t, names);
        PickedAmong(Schema(t), rel.rows, RelationOf(t).rows, names);
      case Where(e) =>
        SelectionStep(t, e);
        MatchesAmongBits(t, e, rel.rows);
    }
  }

  lemma MatchesAmongBits(t: Table, e: BooleanExpr, some: seq<Row>)
    requires Rectangular(t) && Resolves(Schema(t), e) && Filterable(t, e)
    requires WellFormed(Relation(Schema(t), some)) && Among(some, RelationOf(t).rows)
    ensures Among(KeepRows(Narrowed, Schema(t), some, e),
                  Compact(RelationOf(t).rows, TreeBits(t, e)[..NumRows(t)]))
  {
    var rows, bits := RelationOf(t).rows, TreeBits(t, e)[..NumRows(t)];
    var sel :| |sel| == |rows| && some == Compact(rows, sel);
    forall k | 0 <= k < |rows|
      ensures RowSatisfies(Narrowed, Schema(t), rows[k], e) ==> bits[k]
    {
      MatchingRowKept(t, e, k);
    }
    KeptAmongSelected(Schema(t), rows, sel, e, bits);
  }

  // ----- exactly what execution gives -----

  function PassingRows(t: Table, e: BooleanExpr): (r: seq<bool>)
    requires Rectangular(t) && Resolves(Schema(t), e)
    ensures |r| == NumRows(t)
  {
    seq(NumRows(t), k requires 0 <= k < NumRows(t) => Passes(t, e, k))
  }

  /** The rows of a table that pass an expression. */
  function Passing(t: Table, e: BooleanExpr): (rel: Relation)
    requires Rectangular(t) && Resolves(Schema(t), e)
    ensures WellFormed(rel) && rel.fields == Schema(t)
  {
    CompactAt(RelationOf(t).rows, PassingRows(t, e));
    Relation(Schema(t), Compact(RelationOf(t).rows, PassingRows(t, e)))
  }

  lemma SelectedIsPassing(t: Table, e: BooleanExpr)
    requires Rectangular(t) && Resolves(Schema(t), e) && Filterable(t, e)
    ensures Passing(t, e) == Relation(Schema(t), Compact(RelationOf(t).rows, TreeBits(t, e)[..NumRows(t)]))
  {
    var bits := TreeBits(t, e)[..NumRows(t)];
    forall k | 0 <= k < NumRows(t)
      ensures PassingRows(t, e)[k] == bits[k]
    {
      BitIsPasses(t, e, k);
    }
    assert PassingRows(t, e) == bits;
  }

  /** What a query gives on a table, rows being skipped as its layouts have it: the first
      filter keeps the rows that pass, and everything after it is exact. */
  function Given(ops: seq<Op>, t: Table): (rel: Relation)
    requires Rectangular(t) && WellTyped(ops, Schema(t))
    ensures WellFormed(rel)
    decreases |ops|
  {
    if ops == [] then RelationOf(t)
    else
      match ops[0]
      case Select(names) =>
        ProjectedTable(t, names);
        Given(ops[1..], ProjectTable(t, names))
      case Where(e) => Meaning(Narrowed, ops[1..], Passing(t, e))
  }

  /** After a filter, execution gives what the rest of the query means on the rows that
      pass it. */
  lemma AfterFirstFilter(t: Table, e: BooleanExpr, rest: seq<Op>)
    requires Rectangular(t) && WellTyped([Where(e)] + rest, Schema(t)) && !NothingToFilter(t) && SafeFor(t, e)
    ensures var o := Run(Lower([Where(e)] + rest), Context(t, None));
      && WellTyped(rest, Schema(t)) && Resolves(Schema(t), e)
      && o.Done? && Rectangular(o.context.table)
      && RelationOf(o.context.table) == Meaning(Narrowed, rest, Passing(t, e))
  {
    assert ([Where(e)] + rest)[1..] == rest;
    SelectionStep(t, e);
    SelectedIsPassing(t, e);
    RunAppend(LowerOp(Where(e)), Lower(rest), Context(t, None));
    var next := MaterialiseTable(t, TreeBits(t, e)[..NumRows(t)]);
    ChunksAreFound(rest, next);
    AllAdmissibleFirst(rest, next);
    ExecutionIsMeaning(rest, next);
  }

  /** Wherever execution is defined, this is what it gives. */
  lemma {:induction false} ExecutionGives(ops: seq<Op>, t: Table)
    requires Rectangular(t) && WellTyped(ops, Schema(t)) && FirstSafe(ops, t) && !FindsNoChunks(ops, t)
    ensures var o := Run(Lower(ops), Context(t, None));
      o.Done? && Rectangular(o.context.table) && RelationOf(o.context.table) == Given(ops, t)
    decreases |ops|
  {
    if ops != [] {
      assert ops == [ops[0]] + ops[1..];
      match ops[0] {
        case Select(names) =>
          ProjectStep(t, names);
          RunAppend(LowerOp(ops[0]), Lower(ops[1..]), Context(t, None));
          ExecutionGives(ops[1..], ProjectTable(t, names));
        case Where(e) => AfterFirstFilter(t, e, ops[1..]);
      }
    }
  }

  lemma AmongInRanges(fields: seq<Field>, a: seq<Row>, b: seq<Row>)
    requires WellFormed(Relation(fields, a)) && WellFormed(Relation(fields, b))
    requires Among(a, b) && AllInRanges(Relation(fields, b))
    ensures AllInRanges(Relation(fields, a))
  {
    var sel :| |sel| == |b| && a == Compact(b, sel);
    CompactAt(b, sel);
  }

  /** No row the query means is ever lost where execution is defined: the rows meant by the
      query are among the rows that execution gives. */
  lemma {:induction false} LosesNoRow(ops: seq<Op>, t: Table, rel: Relation)
    requires Rectangular(t) && WellTyped(ops, Schema(t))
    requires FirstSafe(ops, t) && !FindsNoChunks(ops, t)
    requires rel.fields == Schema(t) && WellFormed(rel) && Among(rel.rows, RelationOf(t).rows)
    ensures var o := Run(Lower(ops), Context(t, None));
      && o.Done? && Rectangular(o.context.table)
      && Meaning(Narrowed, ops, rel).fields == Schema(o.context.table)
      && Among(Meaning(Narrowed, ops, rel).rows, RelationOf(o.context.table).rows)
    decreases |ops|
  {
    if ops != [] {
      assert [ops[0]][1..] == [];
      RunAppend(LowerOp(ops[0]), Lower(ops[1..]), Context(t, None));
      StepLosesNoRow(ops[0], t, rel);
      var next := Run(LowerOp(ops[0]), Context(t, None)).context.table;
      if ops[0].Where? {
        ChunksAreFound(ops[1..], next);
        LaterSafe(ops[1..], next);
      }
      LosesNoRow(ops[1..], next, Apply(Narrowed, ops[0], rel));
    }
  }

  /** With literals that can be compared exactly, no row is lost that the query means as
      numbers. */
  lemma LosesNoRowAsNumbers(ops: seq<Op>, t: Table, rel: Relation)
    requires Sound(t) && WellTyped(ops, Schema(t)) && Exact(ops, Schema(t))
    requires FirstSafe(ops, t) && !FindsNoChunks(ops, t)
    requires rel.fields == Schema(t) && WellFormed(rel) && Among(rel.rows, RelationOf(t).rows)
    ensures var o := Run(Lower(ops), Context(t, None));
      && o.Done? && Rectangular(o.context.table)
      && Meaning(Numeric, ops, rel).fields == Schema(o.context.table)
      && Among(Meaning(Numeric, ops, rel).rows, RelationOf(o.context.table).rows)
  {
    forall k | 0 <= k < NumRows(t)
      ensures InRanges(Schema(t), RelationOf(t).rows[k])
    {
      RowInRanges(t, k);
    }
    AmongInRanges(Schema(t), rel.rows, RelationOf(t).rows);
    ReadingsAgree(ops, rel);
    LosesNoRow(ops, t, rel);
  }

  /** The same for the optimised plan. */
  lemma OptimisedLosesNoRow(ops: seq<Op>, t: Table)
    requires Rectangular(t) && WellTyped(ops, Schema(t))
    requires FirstSafe(Fuse(ops), t) && !FindsNoChunks(ops, t)
    ensures var o := Run(Rewrite(true, [], Lower(ops)), Context(t, None));
      && o.Done? && Rectangular(o.context.table)
      && Meaning(Narrowed, ops, RelationOf(t)).fields == Schema(o.context.table)
      && Among(Meaning(Narrowed, ops, RelationOf(t)).rows, RelationOf(o.context.table).rows)
  {
    assert [] + ops == ops;
    JoinFiltersIsFuse([], ops);
    FuseKeepsChecks([], ops, t);
    FusePreservesMeaning(Narrowed, [], ops, RelationOf(t));
    AmongItself(RelationOf(t).rows);
    LosesNoRow(Fuse(ops), t, RelationOf(t));
  }

  /** A query that ends in a projection gives a field for each name, in order. */
  lemma LastNames(reading: Reading, ops: seq<Op>, rel: Relation)
    requires WellFormed(rel) && WellTyped(ops, rel.fields) && ops != [] && ops[|ops| - 1].Select?
    ensures var fields, names := Meaning(reading, ops, rel).fields, ops[|ops| - 1].fields;
      |fields| == |names| && forall i | 0 <= i < |names| :: fields[i].name == names[i]
  {
    var before, last := ops[..|ops| - 1], ops[|ops| - 1];
    assert ops == before + [last];
    LastOperation(reading, before, last, rel);
    ProjectionWritten(reading, Meaning(reading, before, rel), last.fields);
  }

  lemma OptimisedExecutionGives(ops: seq<Op>, t: Table)
    requires Rectangular(t) && WellTyped(ops, Schema(t))
    requires FirstSafe(Fuse(ops), t) && !FindsNoChunks(ops, t)
    ensures var o := Run(Rewrite(true, [], Lower(ops)), Context(t, None));
      && WellTyped(Fuse(ops), Schema(t))
      && o.Done? && Rectangular(o.context.table) && RelationOf(o.context.table) == Given(Fuse(ops), t)
  {
    assert [] + ops == ops;
    JoinFiltersIsFuse([], ops);
    FuseKeepsChecks([], ops, t);
    ExecutionGives(Fuse(ops), t);
  }

  /** What executing a query's optimised plan delivers, for every literal, and what that
      is as numbers. */
  lemma ExecutionDelivers(ops: seq<Op>, t: Table)
    requires Rectangular(t) && WellTyped(ops, Schema(t)) && FirstSafe(Fuse(ops), t)
    ensures var o := Run(Rewrite(true, [], Lower(ops)), Context(t, None));
      && !o.Undefined? && (o.Thrown? <==> FindsNoChunks(ops, t))
      && (o.Done? ==>
            && Rectangular(o.context.table)
            && WellTyped(Fuse(ops), Schema(t)) && RelationOf(o.context.table) == Given(Fuse(ops), t)
            && Schema(o.context.table) == Meaning(Narrowed, ops, RelationOf(t)).fields
            && Among(Meaning(Narrowed, ops, RelationOf(t)).rows, RelationOf(o.context.table).rows))
      && (o.Done? && FirstAdmissible(Fuse(ops), t) ==>
            RelationOf(o.context.table) == Meaning(Narrowed, ops, RelationOf(t)))
    ensures Typed(t) && Exact(ops, Schema(t)) ==>
      Meaning(Narrowed, ops, RelationOf(t)) == Meaning(Numeric, ops, RelationOf(t))
  {
    OptimisedQueryIsDefinedIff(ops, t);
    if !FindsNoChunks(ops, t) {
      OptimisedExecutionGives(ops, t);
      OptimisedLosesNoRow(ops, t);
      if FirstAdmissible(Fuse(ops), t) {
        OptimisedExecutionIsMeaning(ops, t);
      }
    }
    if Typed(t) && Exact(ops, Schema(t)) {
      QueryReadAsNumbers(ops, t);
    }
  }

  lemma NamesOf(t: Table, fields: seq<Field>)
    requires Schema(t) == fields
    ensures |t.columns| == |fields|
    ensures forall i | 0 <= i < |fields| :: t.columns[i].field.name == fields[i].name
  {
    assert forall i | 0 <= i < |fields| :: Schema(t)[i] == fields[i];
  }

  lemma FirstFilterThrows(ops: seq<Op>, t: Table)
    requires Rectangular(t) && WellTyped(ops, Schema(t))
    ensures ops != [] && ops[0].Where? ==>
      |t.columns| > 0 && (FindsNoChunks(ops, t) <==> |t.columns[0].chunks| == 0)
  {
    if ops != [] && ops[0].Where? {
      FindsNoChunksWritten(ops, t, 0);
    }
  }

  lemma LastProjectionNames(ops: seq<Op>, t: Table, result: Table)
    requires Rectangular(t) && WellTyped(ops, Schema(t))
    requires Schema(result) == Meaning(Narrowed, ops, RelationOf(t)).fields
    ensures ops != [] && ops[|ops| - 1].Select? ==>
      && |result.columns| == |ops[|ops| - 1].fields|
      && forall i | 0 <= i < |result.columns| :: result.columns[i].field.name == ops[|ops| - 1].fields[i]
  {
    if ops != [] && ops[|ops| - 1].Select? {
      LastNames(Narrowed, ops, RelationOf(t));
      NamesOf(result, Meaning(Narrowed, ops, RelationOf(t)).fields);
    }
  }

  /** In plain terms: a query that begins with a filter throws exactly if the table's first
      column has no chunks, and one that ends in a projection has its names for columns. */
  lemma ExecutionWritten(ops: seq<Op>, t: Table)
    requires Rectangular(t) && WellTyped(ops, Schema(t)) && FirstSafe(Fuse(ops), t)
    ensures var o := Run(Rewrite(true, [], Lower(ops)), Context(t, None));
      && (ops != [] && ops[0].Where? ==> |t.columns| > 0 && (o.Thrown? <==> |t.columns[0].chunks| == 0))
      && (o.Done? && ops != [] && ops[|ops| - 1].Select? ==>
            && |o.context.table.columns| == |ops[|ops| - 1].fields|
            && forall i | 0 <= i < |o.context.table.columns| ::
                 o.context.table.columns[i].field.name == ops[|ops| - 1].fields[i])
  {
    ExecutionDelivers(ops, t);
    FirstFilterThrows(ops, t);
    var o := Run(Rewrite(true, [], Lower(ops)), Context(t, None));
    if o.Done? {
      LastProjectionNames(ops, t, o.context.table);
    }
  }

  // ----- admissibility is exactly what rules out extra rows -----

  /** The optimised plan gives exactly what the query means. */
  ghost predicate Answers(reading: Reading, ops: seq<Op>, t: Table)
    requires Rectangular(t) && WellTyped(ops, Schema(t))
  {
    var o := Run(Rewrite(true, [], Lower(ops)), Context(t, None));
    o.Done? && Rectangular(o.context.table) && RelationOf(o.context.table) == Meaning(reading, ops, RelationOf(t))
  }

  /** A table whose columns all have the given layout, and a query it can run.  Read as
      numbers, its literals must be comparable exactly. */
  ghost predicate LaidOut(reading: Reading, ops: seq<Op>, t: Table, lens: Lengths) {
    && Sound(t)
    && (forall j | 0 <= j < |t.columns| :: Lens(t.columns[j].chunks) == lens)
    && WellTyped(ops, Schema(t)) && !FindsNoChunks(ops, t)
    && (reading.Numeric? ==> Exact(ops, Schema(t)))
  }

  // ----- tables of zeros -----

  function Zeros(lens: Lengths): (chunks: seq<seq<int>>)
    ensures Lens(chunks) == lens
  {
    seq(|lens|, c requires 0 <= c < |lens| => seq(lens[c], _ => 0))
  }

  function ZeroColumn(name: string, lens: Lengths): Column {
    Column(Field(name, Int8), Zeros(lens))
  }

  lemma {:induction false} AllZero(chunks: seq<seq<int>>)
    requires forall c | 0 <= c < |chunks| :: forall i | 0 <= i < |chunks[c]| :: chunks[c][i] == 0
    ensures forall k | 0 <= k < |Flatten(chunks)| :: Flatten(chunks)[k] == 0
  {
    if chunks != [] {
      AllZero(chunks[..|chunks| - 1]);
    }
  }

  lemma ZeroColumnFits(name: string, lens: Lengths)
    requires Total(lens) < 0x8000_0000 && |lens| < 0x8000_0000
    ensures var c := ZeroColumn(name, lens);
      && Fits(c.chunks, Total(lens)) && HoldsValuesOf(c, Int8) && Lens(c.chunks) == lens
      && forall k | 0 <= k < Total(lens) :: Flatten(c.chunks)[k] == 0
  {
    FlattenLength(Zeros(lens));
    AllZero(Zeros(lens));
  }

  /** In a column of zeros every row is zero and no row is not, in either reading. */
  lemma ZeroRow(reading: Reading, t: Table, name: string, lens: Lengths, k: nat)
    requires Rectangular(t) && k < NumRows(t) == Total(lens) && |lens| < 0x8000_0000
    requires HasField(Schema(t), name) && ColumnNamed(t, name) == ZeroColumn(name, lens)
    ensures RowSatisfies(reading, Schema(t), RowOf(t, k), Compare(name, EQ, 0))
    ensures !RowSatisfies(reading, Schema(t), RowOf(t, k), Compare(name, NEQ, 0))
  {
    var j := FieldIndex(Schema(t), name);
    assert Fits(t.columns[j].chunks, NumRows(t));
    ZeroColumnFits(name, lens);
    assert RowOf(t, k)[j] == 0;
  }

  lemma OneChunkIsAdmissible(n: nat)
    ensures Total([n]) == n && Admissible([n]) && Safe([n])
  {
    assert Start([n], 0) == 0;
    AdmissibleIsSafe([n]);
  }

  /** A single column of zeros. */
  function ZeroTable(lens: Lengths): Table {
    Table([ZeroColumn("c", lens)])
  }

  const NOT_ZERO: BooleanExpr := Compare("c", NEQ, 0)

  const IS_ZERO: BooleanExpr := Compare("c", EQ, 0)

  lemma ZeroTableRuns(reading: Reading, lens: Lengths)
    requires Total(lens) < 0x8000_0000 && 0 < |lens| < 0x8000_0000
    ensures var t := ZeroTable(lens);
      && NumRows(t) == Total(lens) && LaidOut(reading, [Where(NOT_ZERO)], t, lens)
      && HasField(Schema(t), "c") && ColumnNamed(t, "c") == ZeroColumn("c", lens)
  {
    var t := ZeroTable(lens);
    ZeroColumnFits("c", lens);
    assert Schema(t)[0] == Field("c", Int8);
    assert HasField(Schema(t), "c");
    assert Fits(t.columns[0].chunks, NumRows(t)) && HoldsValuesOf(t.columns[0], Int8);
  }

  // ----- rows that no kernel call looks at -----

  lemma SingleFilter(reading: Reading, e: BooleanExpr, rel: Relation)
    requires WellFormed(rel) && Resolves(rel.fields, e)
    ensures Rewrite(true, [], Lower([Where(e)])) == LowerOp(Where(e))
    ensures WellTyped([Where(e)], rel.fields) && Meaning(reading, [Where(e)], rel) == Apply(reading, Where(e), rel)
  {
    var ops := [Where(e)];
    assert [] + ops == ops && ops[1..] == [] && Lower(ops) == LowerOp(Where(e)) + [];
    JoinFiltersIsFuse([], ops);
    FuseKeepsFused([], ops);
  }

  lemma SetBitKeepsARow(t: Table, e: BooleanExpr, k: nat)
    requires Rectangular(t) && Resolves(Schema(t), e) && SafeFor(t, e) && !NothingToFilter(t)
    requires Filterable(t, e) && k < NumRows(t) && TreeBits(t, e)[k]
    ensures var o := Run(LowerOp(Where(e)), Context(t, None));
      o.Done? && Rectangular(o.context.table) && RelationOf(o.context.table).rows != []
  {
    var sel := TreeBits(t, e)[..NumRows(t)];
    SelectionStep(t, e);
    PositionsSound(sel);
    CompactAt(RelationOf(t).rows, sel);
    assert k in Positions(sel);
  }

  /** A comparison keeps a row that no kernel call looks at, whether it matches or not. */
  lemma SkippedRowKept(t: Table, e: BooleanExpr, k: nat)
    requires e.Compare? && Rectangular(t) && SafeFor(t, e) && !NothingToFilter(t)
    requires k < NumRows(t) && Skipped(Lens(ColumnNamed(t, e.column).chunks), k)
    ensures var o := Run(LowerOp(Where(e)), Context(t, None));
      o.Done? && Rectangular(o.context.table) && RelationOf(o.context.table).rows != []
  {
    FilterableIff(t, e);
    CompareBit(t, e, k);
    SetBitKeepsARow(t, e, k);
  }

  lemma {:induction false} KeepsNone(reading: Reading, fields: seq<Field>, rows: seq<Row>, e: BooleanExpr)
    requires Resolves(fields, e) && WellFormed(Relation(fields, rows))
    requires forall k | 0 <= k < |rows| :: !RowSatisfies(reading, fields, rows[k], e)
    ensures KeepRows(reading, fields, rows, e) == []
    decreases |rows|
  {
    if rows != [] {
      KeepsNone(reading, fields, rows[..|rows| - 1], e);
    }
  }

  lemma KeepsAll(fields: seq<Field>, rows: seq<Row>, e: BooleanExpr)
    requires Resolves(fields, e) && WellFormed(Relation(fields, rows))
    requires forall k | 0 <= k < |rows| :: RowSatisfies(Narrowed, fields, rows[k], e)
    ensures KeepRows(Narrowed, fields, rows, e) == rows
  {
    KeepRowsCompacts(Narrowed, fields, rows, e, Ones(|rows|));
    CompactAll(rows, Ones(|rows|));
  }

  lemma NoZeroIsNonZero(reading: Reading, t: Table, name: string, lens: Lengths)
    requires Rectangular(t) && NumRows(t) == Total(lens) && |lens| < 0x8000_0000
    requires HasField(Schema(t), name) && ColumnNamed(t, name) == ZeroColumn(name, lens)
    ensures KeepRows(reading, Schema(t), RelationOf(t).rows, Compare(name, NEQ, 0)) == []
  {
    forall k | 0 <= k < NumRows(t)
      ensures !RowSatisfies(reading, Schema(t), RelationOf(t).rows[k], Compare(name, NEQ, 0))
    {
      ZeroRow(reading, t, name, lens, k);
    }
    KeepsNone(reading, Schema(t), RelationOf(t).rows, Compare(name, NEQ, 0));
  }

  /** On a safe layout that is not admissible, a query none of whose rows match keeps the
      rows that no kernel call looks at. */
  lemma InadmissibleKeepsExtraRows(reading: Reading, lens: Lengths)
    requires Safe(lens) && !Admissible(lens)
    requires Total(lens) < 0x8000_0000 && |lens| < 0x8000_0000
    ensures LaidOut(reading, [Where(NOT_ZERO)], ZeroTable(lens), lens)
    ensures !Answers(reading, [Where(NOT_ZERO)], ZeroTable(lens))
  {
    var t := ZeroTable(lens);
    ZeroTableRuns(reading, lens);
    NothingSkippedIff(lens);
    var k :| 0 <= k < Total(lens) && Skipped(lens, k);
    SkippedRowKept(t, NOT_ZERO, k);
    NoZeroIsNonZero(reading, t, "c", lens);
    SingleFilter(reading, NOT_ZERO, RelationOf(t));
  }

  /** On a layout that is not safe, the same query has no defined behaviour. */
  lemma UnsafeIsUndefined(reading: Reading, lens: Lengths)
    requires !Safe(lens) && Total(lens) < 0x8000_0000 && |lens| < 0x8000_0000
    ensures var t := ZeroTable(lens);
      && LaidOut(reading, [Where(NOT_ZERO)], t, lens)
      && Run(Rewrite(true, [], Lower([Where(NOT_ZERO)])), Context(t, None)) == Undefined
  {
    var t := ZeroTable(lens);
    ZeroTableRuns(reading, lens);
    SingleFilter(reading, NOT_ZERO, RelationOf(t));
    UnsafeFilterIsUndefined(t, NOT_ZERO);
  }

  /** Queries on tables of a layout are all answered exactly if and only if the layout is
      admissible, in either reading. */
  lemma QueriesAnsweredIff(reading: Reading, lens: Lengths)
    requires Total(lens) < 0x8000_0000 && |lens| < 0x8000_0000
    ensures Admissible(lens) <==> forall ops, t | LaidOut(reading, ops, t, lens) :: Answers(reading, ops, t)
  {
    if Admissible(lens) {
      forall ops, t | LaidOut(reading, ops, t, lens)
        ensures Answers(reading, ops, t)
      {
        assert [] + ops == ops;
        FuseKeepsChecks([], ops, t);
        AllAdmissibleFirst(Fuse(ops), t);
        OptimisedExecutionIsMeaning(ops, t);
      }
    } else if Safe(lens) {
      InadmissibleKeepsExtraRows(reading, lens);
    } else {
      UnsafeIsUndefined(reading, lens);
    }
  }
}
