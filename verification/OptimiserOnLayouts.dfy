/** What joining filters does on layouts that are not admissible.  The optimised plan
    filters all columns of a run of filters as they came, where the plan as built filters
    all but the first after materialisation: the optimiser can lose definedness, and can
    add rows, but loses none. */
module OptimiserOnLayouts {
  import opened Wrappers
  import opened FixedWidth
  import opened Expressions
  import opened Layout
  import opened Tables
  import opened FilterExecution
  import opened Compaction
  import opened PlanSteps
  import opened Queries
  import opened Correctness
  import opened SafeLayouts

  // ----- some rows of some rows -----

  /** A choice among selected rows, as a selection of all rows. */
  function Widen(choice: seq<bool>, sel: seq<bool>): (r: seq<bool>)
    ensures |r| == |sel|
  {
    if sel == [] then []
    else
      var last := |sel| - 1;
      if sel[last] && choice != []
      then Widen(choice[..|choice| - 1], sel[..last]) + [choice[|choice| - 1]]
      else Widen(choice, sel[..last]) + [false]
  }

  lemma {:induction false} WidenNarrows<T>(rows: seq<T>, sel: seq<bool>, choice: seq<bool>)
    requires |rows| == |sel| && |choice| == |Compact(rows, sel)|
    ensures Compact(Widen(choice, sel), sel) == choice
  {
    if rows != [] {
      var last := |rows| - 1;
      if sel[last] {
        WidenNarrows(rows[..last], sel[..last], choice[..|choice| - 1]);
      } else {
        WidenNarrows(rows[..last], sel[..last], choice);
      }
    }
  }

  lemma AmongTransitive(a: seq<Row>, b: seq<Row>, c: seq<Row>)
    requires Among(a, b) && Among(b, c)
    ensures Among(a, c)
  {
    var choice :| |choice| == |b| && a == Compact(b, choice);
    var sel :| |sel| == |c| && b == Compact(c, sel);
    WidenNarrows(c, sel, choice);
    CompactCompose(c, sel, Widen(choice, sel));
  }

  /** More rows mean more rows. */
  lemma {:induction false} MeaningKeepsAmong(ops: seq<Op>, a: Relation, b: Relation)
    requires WellFormed(a) && WellFormed(b) && a.fields == b.fields && WellTyped(ops, a.fields)
    requires Among(a.rows, b.rows)
    ensures Meaning(Narrowed, ops, a).fields == Meaning(Narrowed, ops, b).fields
    ensures Among(Meaning(Narrowed, ops, a).rows, Meaning(Narrowed, ops, b).rows)
    decreases |ops|
  {
    if ops != [] {
      match ops[0] {
        case Select(names) => PickedAmong(a.fields, a.rows, b.rows, names);
        case Where(e) => MatchesKeepAmong(a.fields, a.rows, b.rows, e);
      }
      MeaningKeepsAmong(ops[1..], Apply(Narrowed, ops[0], a), Apply(Narrowed, ops[0], b));
    }
  }

  lemma MatchesKeepAmong(fields: seq<Field>, a: seq<Row>, b: seq<Row>, e: BooleanExpr)
    requires Resolves(fields, e) && WellFormed(Relation(fields, a)) && WellFormed(Relation(fields, b))
    requires Among(a, b)
    ensures Among(KeepRows(Narrowed, fields, a, e), KeepRows(Narrowed, fields, b, e))
  {
    var sel :| |sel| == |b| && a == Compact(b, sel);
    var truths := RowTruths(fields, b, e);
    KeptAmongSelected(fields, b, sel, e, truths);
    KeepRowsCompacts(Narrowed, fields, b, e, truths);
  }

  // ----- joining filters only adds rows -----

  /** Both executions throw, or both go through with the same fields, and the rows of the
      first are among those of the second. */
  ghost predicate AddsRows(a: Outcome, b: Outcome) {
    || (a == Thrown && b == Thrown)
    || (a.Done? && b.Done?
        && Rectangular(a.context.table) && Rectangular(b.context.table)
        && Schema(a.context.table) == Schema(b.context.table)
        && Among(RelationOf(a.context.table).rows, RelationOf(b.context.table).rows))
  }

  /** Filtering by p, and what is left by e, keeps no row that does not pass both. */
  lemma JoinedFilterPassesMore(t: Table, p: BooleanExpr, e: BooleanExpr)
    requires Rectangular(t) && Resolves(Schema(t), p) && Resolves(Schema(t), e)
    ensures Among(KeepRows(Narrowed, Schema(t), Passing(t, p).rows, e), Passing(t, p.And(e)).rows)
  {
    var rows, some, more := RelationOf(t).rows, PassingRows(t, p), PassingRows(t, p.And(e));
    forall k | 0 <= k < NumRows(t)
      ensures some[k] && RowSatisfies(Narrowed, Schema(t), rows[k], e) ==> more[k]
    {
      PassesBetween(t, e, k);
    }
    KeptAmongSelected(Schema(t), rows, some, e, more);
  }

  /** The first relation has the fields of the second, and some of its rows. */
  ghost predicate SomeOf(a: Relation, b: Relation) {
    a.fields == b.fields && Among(a.rows, b.rows)
  }

  lemma JoinedFirstFilterGivesMore(p: BooleanExpr, e: BooleanExpr, rest: seq<Op>, t: Table)
    requires Rectangular(t) && WellTyped([Where(p)] + ([Where(e)] + rest), Schema(t))
    requires WellTyped([Where(p.And(e))] + rest, Schema(t))
    ensures SomeOf(Given([Where(p)] + ([Where(e)] + rest), t), Given([Where(p.And(e))] + rest, t))
  {
    var next := [Where(e)] + rest;
    assert ([Where(p)] + next)[1..] == next && next[1..] == rest && ([Where(p.And(e))] + rest)[1..] == rest;
    JoinedFilterPassesMore(t, p, e);
    MeaningKeepsAmong(rest, Apply(Narrowed, Where(e), Passing(t, p)), Passing(t, p.And(e)));
  }

  /** Behind an operation, a query is that operation and the rest of the query. */
  lemma TailOfMiddle(before: seq<Op>, middle: seq<Op>, rest: seq<Op>)
    requires before != []
    ensures before + middle + rest == [before[0]] + (before[1..] + middle + rest)
    ensures (before + middle + rest)[1..] == before[1..] + middle + rest
  {
  }

  lemma NothingBefore(p: BooleanExpr, e: BooleanExpr, rest: seq<Op>)
    ensures [] + [Where(p), Where(e)] + rest == [Where(p)] + ([Where(e)] + rest)
    ensures [] + [Where(p.And(e))] + rest == [Where(p.And(e))] + rest
  {
  }

  /** Joining two adjacent filters anywhere in a query adds rows at most. */
  lemma {:induction false} JoinedFilterGivesMore(before: seq<Op>, p: BooleanExpr, e: BooleanExpr,
                                                 rest: seq<Op>, t: Table)
    requires Rectangular(t) && WellTyped(before + [Where(p), Where(e)] + rest, Schema(t))
    requires WellTyped(before + [Where(p.And(e))] + rest, Schema(t))
    ensures SomeOf(Given(before + [Where(p), Where(e)] + rest, t), Given(before + [Where(p.And(e))] + rest, t))
    decreases |before|
  {
    if before == [] {
      NothingBefore(p, e, rest);
      JoinedFirstFilterGivesMore(p, e, rest, t);
    } else {
      TailOfMiddle(before, [Where(p), Where(e)], rest);
      TailOfMiddle(before, [Where(p.And(e))], rest);
      match before[0] {
        case Select(names) =>
          ProjectedTable(t, names);
          JoinedFilterGivesMore(before[1..], p, e, rest, ProjectTable(t, names));
        case Where(first) =>
          // after a filter joining later ones changes nothing
          JoinedFilterMeans(Narrowed, before[1..], p, e, rest, Passing(t, first));
          AmongItself(Given(before + [Where(p), Where(e)] + rest, t).rows);
      }
    }
  }

  lemma {:induction false} FusingGivesMore(below: seq<Op>, ops: seq<Op>, t: Table)
    requires Rectangular(t) && WellTyped(below + ops, Schema(t)) && WellTyped(FuseOnto(below, ops), Schema(t))
    ensures SomeOf(Given(below + ops, t), Given(FuseOnto(below, ops), t))
    decreases |ops|
  {
    if ops == [] {
      assert below + ops == below;
      AmongItself(Given(below, t).rows);
    } else {
      var next, rest := FuseOp(below, ops[0]), ops[1..];
      assert below + [ops[0]] + rest == below + ops;
      if next != below + [ops[0]] {
        var last := |below| - 1;
        var p, e := below[last].expr, ops[0].expr;
        assert below[..last] + [Where(p), Where(e)] + rest == below + ops;
        JoinedFilterMeans(Narrowed, below[..last], p, e, rest, RelationOf(t));
        JoinedFilterGivesMore(below[..last], p, e, rest, t);
        FusingGivesMore(next, rest, t);
        AmongTransitive(Given(below + ops, t).rows, Given(next + rest, t).rows, Given(FuseOnto(next, rest), t).rows);
      } else {
        FusingGivesMore(next, rest, t);
      }
    }
  }

  /** Where the optimised plan is defined, both plans throw, or the rows of the plan as
      built are among those of the optimised one. */
  lemma DefinedAddsRows(ops: seq<Op>, t: Table)
    requires Rectangular(t) && WellTyped(ops, Schema(t)) && FirstSafe(ops, t) && FirstSafe(Fuse(ops), t)
    ensures AddsRows(Run(Lower(ops), Context(t, None)), Run(Rewrite(true, [], Lower(ops)), Context(t, None)))
  {
    if FindsNoChunks(ops, t) {
      QueryIsDefinedIff(ops, t);
      OptimisedQueryIsDefinedIff(ops, t);
    } else {
      DoneAddsRows(ops, t);
    }
  }

  lemma DoneAddsRows(ops: seq<Op>, t: Table)
    requires Rectangular(t) && WellTyped(ops, Schema(t)) && FirstSafe(ops, t) && FirstSafe(Fuse(ops), t)
    requires !FindsNoChunks(ops, t)
    ensures AddsRows(Run(Lower(ops), Context(t, None)), Run(Rewrite(true, [], Lower(ops)), Context(t, None)))
  {
    ExecutionGives(ops, t);
    OptimisedExecutionGives(ops, t);
    assert [] + ops == ops;
    FusingGivesMore([], ops, t);
    var built, optimised := Run(Lower(ops), Context(t, None)), Run(Rewrite(true, [], Lower(ops)), Context(t, None));
    assert SomeOf(RelationOf(built.context.table), RelationOf(optimised.context.table));
  }

  /** The optimiser on any table: where the plan as built has no defined behaviour, the
      optimised plan has none either; where the plan as built is defined, the optimised one
      is if and only if the first run of filters compares columns of safe layout; and then
      it gives all the rows of the plan as built, in order, and possibly more. */
  lemma OptimiserAddsRows(ops: seq<Op>, t: Table)
    requires Rectangular(t) && WellTyped(ops, Schema(t))
    ensures var built := Run(Lower(ops), Context(t, None));
      var optimised := Run(Rewrite(true, [], Lower(ops)), Context(t, None));
      && (built.Undefined? ==> optimised.Undefined?)
      && (optimised.Undefined? <==> !FirstSafe(Fuse(ops), t))
      && (optimised.Done? <==> built.Done? && FirstSafe(Fuse(ops), t))
      && (optimised.Done? ==>
            && Rectangular(built.context.table) && Rectangular(optimised.context.table)
            && Schema(built.context.table) == Schema(optimised.context.table)
            && Among(RelationOf(built.context.table).rows, RelationOf(optimised.context.table).rows))
  {
    assert [] + ops == ops;
    FuseKeepsChecks([], ops, t);
    QueryIsDefinedIff(ops, t);
    OptimisedQueryIsDefinedIff(ops, t);
    if FirstSafe(Fuse(ops), t) {
      DefinedAddsRows(ops, t);
    }
  }

  // ----- both happen, for every layout that is not admissible -----

  /** Zeros in one chunk, and zeros in chunks of the given lengths. */
  function TwoColumns(lens: Lengths): Table {
    Table([ZeroColumn("a", [Total(lens)]), ZeroColumn("b", lens)])
  }

  /** Every row satisfies this one. */
  const A_IS_ZERO: BooleanExpr := Compare("a", EQ, 0)

  /** And none this one. */
  const B_IS_NOT_ZERO: BooleanExpr := Compare("b", NEQ, 0)

  const BOTH: seq<Op> := [Where(A_IS_ZERO), Where(B_IS_NOT_ZERO)]

  lemma TwoColumnsSound(lens: Lengths)
    requires Total(lens) < 0x8000_0000 && |lens| < 0x8000_0000
    ensures var t := TwoColumns(lens); Sound(t) && NumRows(t) == Total(lens) && !NothingToFilter(t)
  {
    OneChunkIsAdmissible(Total(lens));
    ZeroColumnFits("a", [Total(lens)]);
    ZeroColumnFits("b", lens);
  }

  lemma TwoNames(fields: seq<Field>)
    requires |fields| == 2 && fields[0].name == "a" && fields[1].name == "b"
    ensures HasField(fields, "a") && FieldIndex(fields, "a") == 0
    ensures HasField(fields, "b") && FieldIndex(fields, "b") == 1
  {
    assert "a"[0] != "b"[0];
    assert forall j | 0 <= j < |fields| :: fields[j].name == "a" ==> j == 0;
    assert forall j | 0 <= j < |fields| :: fields[j].name == "b" ==> j == 1;
  }

  lemma BothTyped(fields: seq<Field>)
    requires HasField(fields, "a") && HasField(fields, "b")
    ensures WellTyped(BOTH, fields)
  {
    assert BOTH[1..] == [Where(B_IS_NOT_ZERO)] && BOTH[1..][1..] == [];
  }

  lemma TwoColumnsFit(lens: Lengths)
    requires Total(lens) < 0x8000_0000 && |lens| < 0x8000_0000
    ensures var t := TwoColumns(lens);
      && Sound(t) && NumRows(t) == Total(lens) && !NothingToFilter(t)
      && HasField(Schema(t), "a") && ColumnNamed(t, "a") == ZeroColumn("a", [Total(lens)])
      && HasField(Schema(t), "b") && ColumnNamed(t, "b") == ZeroColumn("b", lens)
      && WellTyped(BOTH, Schema(t))
  {
    TwoColumnsSound(lens);
    TwoNames(Schema(TwoColumns(lens)));
    BothTyped(Schema(TwoColumns(lens)));
  }

  lemma BothFused()
    ensures Fuse(BOTH) == [Where(A_IS_ZERO.And(B_IS_NOT_ZERO))]
    ensures Rewrite(true, [], Lower(BOTH)) == LowerOp(Where(A_IS_ZERO.And(B_IS_NOT_ZERO)))
  {
    var es := [A_IS_ZERO, B_IS_NOT_ZERO];
    assert es[..1] == [A_IS_ZERO] && BOTH == Filters(es);
    FuseRun([], es);
    JoinFiltersIsFuse([], BOTH);
    var joined := [Where(A_IS_ZERO.And(B_IS_NOT_ZERO))];
    assert [] + joined == joined && joined[1..] == [];
    assert Lower(joined) == LowerOp(joined[0]) + [];
  }

  /** As built, the query is defined and gives no rows. */
  lemma BuiltGivesNone(lens: Lengths)
    requires Total(lens) < 0x8000_0000 && |lens| < 0x8000_0000
    ensures var o := Run(Lower(BOTH), Context(TwoColumns(lens), None));
      o.Done? && Rectangular(o.context.table) && RelationOf(o.context.table).rows == []
  {
    var t := TwoColumns(lens);
    TwoColumnsFit(lens);
    OneChunkIsAdmissible(Total(lens));
    ExecutionIsMeaning(BOTH, t);
    BothMeanNone(lens);
  }

  lemma BothMeanNone(lens: Lengths)
    requires Total(lens) < 0x8000_0000 && |lens| < 0x8000_0000
    ensures var t := TwoColumns(lens);
      Rectangular(t) && WellTyped(BOTH, Schema(t)) && Meaning(Narrowed, BOTH, RelationOf(t)).rows == []
  {
    var t := TwoColumns(lens);
    TwoColumnsFit(lens);
    var rel := RelationOf(t);
    forall k | 0 <= k < NumRows(t)
      ensures !RowSatisfies(Narrowed, Schema(t), rel.rows[k], A_IS_ZERO.And(B_IS_NOT_ZERO))
    {
      ZeroRow(Narrowed, t, "b", lens, k);
    }
    KeepsNone(Narrowed, Schema(t), rel.rows, A_IS_ZERO.And(B_IS_NOT_ZERO));
    KeepRowsTwice(Narrowed, Schema(t), rel.rows, A_IS_ZERO, B_IS_NOT_ZERO);
    assert BOTH[1..] == [Where(B_IS_NOT_ZERO)];
    SingleFilter(Narrowed, B_IS_NOT_ZERO, Apply(Narrowed, Where(A_IS_ZERO), rel));
  }

  /** On a layout that is not safe, the optimised plan has no defined behaviour though the
      plan as built has. */
  lemma OptimiserLosesDefinedness(lens: Lengths)
    requires !Safe(lens) && Total(lens) < 0x8000_0000 && |lens| < 0x8000_0000
    ensures var c := Context(TwoColumns(lens), None);
      Run(Lower(BOTH), c).Done? && Run(Rewrite(true, [], Lower(BOTH)), c).Undefined?
  {
    BuiltGivesNone(lens);
    TwoColumnsFit(lens);
    BothFused();
    UnsafeFilterIsUndefined(TwoColumns(lens), A_IS_ZERO.And(B_IS_NOT_ZERO));
  }

  lemma ExampleColumns()
    ensures TwoColumns([3, 2]).columns[0].chunks == [[0, 0, 0, 0, 0]]
    ensures TwoColumns([3, 2]).columns[1].chunks == [[0, 0, 0], [0, 0]]
  {
    var lens: Lengths := [3, 2];
    assert Start(lens, 1) == 3 && Total(lens) == 5;
    assert seq(5, _ => 0) == [0, 0, 0, 0, 0] && seq(3, _ => 0) == [0, 0, 0] && seq(2, _ => 0) == [0, 0];
  }

  /** Five rows, in one chunk of the first column and chunks of 3 and 2 of the second. */
  lemma LosesDefinednessExample()
    ensures TwoColumns([3, 2]).columns[0].chunks == [[0, 0, 0, 0, 0]]
    ensures TwoColumns([3, 2]).columns[1].chunks == [[0, 0, 0], [0, 0]]
    ensures var c := Context(TwoColumns([3, 2]), None);
      Run(Lower(BOTH), c).Done? && Run(Rewrite(true, [], Lower(BOTH)), c).Undefined?
  {
    WrapExample();
    OptimiserLosesDefinedness([3, 2]);
    ExampleColumns();
  }

  /** On a safe layout that is not admissible, the optimised plan gives rows that the plan
      as built does not. */
  lemma OptimiserGivesExtraRows(lens: Lengths)
    requires Safe(lens) && !Admissible(lens) && Total(lens) < 0x8000_0000 && |lens| < 0x8000_0000
    ensures var c := Context(TwoColumns(lens), None);
      var built, optimised := Run(Lower(BOTH), c), Run(Rewrite(true, [], Lower(BOTH)), c);
      && built.Done? && Rectangular(built.context.table) && RelationOf(built.context.table).rows == []
      && optimised.Done? && Rectangular(optimised.context.table) && RelationOf(optimised.context.table).rows != []
  {
    var t := TwoColumns(lens);
    BuiltGivesNone(lens);
    TwoColumnsFit(lens);
    BothFused();
    NothingSkippedIff(lens);
    var k :| 0 <= k < Total(lens) && Skipped(lens, k);
    SkippedRowSelected(lens, k);
    SetBitKeepsARow(t, A_IS_ZERO.And(B_IS_NOT_ZERO), k);
  }

  lemma SkippedRowSelected(lens: Lengths, k: nat)
    requires Safe(lens) && Total(lens) < 0x8000_0000 && |lens| < 0x8000_0000
    requires k < Total(lens) && Skipped(lens, k)
    ensures var t, e := TwoColumns(lens), A_IS_ZERO.And(B_IS_NOT_ZERO);
      SafeFor(t, e) && Filterable(t, e) && k < NumRows(t) && TreeBits(t, e)[k]
  {
    var t := TwoColumns(lens);
    TwoColumnsFit(lens);
    OneChunkIsAdmissible(Total(lens));
    FilterableIff(t, A_IS_ZERO);
    FilterableIff(t, B_IS_NOT_ZERO);
    ZeroRow(Narrowed, t, "a", [Total(lens)], k);
    MatchingRowKept(t, A_IS_ZERO, k);
    CompareBit(t, B_IS_NOT_ZERO, k);
  }

  /** As built and as optimised, a query ends the same way on a table, and with the same
      fields and rows if it ends with a table. */
  ghost predicate Preserved(ops: seq<Op>, t: Table) {
    var built := Run(Lower(ops), Context(t, None));
    var optimised := Run(Rewrite(true, [], Lower(ops)), Context(t, None));
    || (built == Thrown && optimised == Thrown)
    || (built == Undefined && optimised == Undefined)
    || (built.Done? && optimised.Done?
        && Rectangular(built.context.table) && Rectangular(optimised.context.table)
        && RelationOf(built.context.table) == RelationOf(optimised.context.table))
  }

  /** Every column is in one chunk or has the given layout. */
  ghost predicate LaidOutAs(ops: seq<Op>, t: Table, lens: Lengths) {
    && Rectangular(t) && WellTyped(ops, Schema(t))
    && forall j | 0 <= j < |t.columns| ::
         Lens(t.columns[j].chunks) == lens || Lens(t.columns[j].chunks) == [Total(lens)]
  }

  lemma AdmissiblePreserved(ops: seq<Op>, t: Table, lens: Lengths)
    requires Admissible(lens) && LaidOutAs(ops, t, lens)
    ensures Preserved(ops, t)
  {
    OneChunkIsAdmissible(Total(lens));
    assert [] + ops == ops;
    FusePreservesMeaning(Narrowed, [], ops, RelationOf(t));
    AllAdmissibleFirst(Fuse(ops), t);
    OptimiserPreservesExecution(ops, t);
  }

  lemma BothLaidOutAs(lens: Lengths)
    requires Total(lens) < 0x8000_0000 && |lens| < 0x8000_0000
    ensures LaidOutAs(BOTH, TwoColumns(lens), lens)
  {
    TwoColumnsFit(lens);
  }

  lemma InadmissibleNotPreserved(lens: Lengths)
    requires !Admissible(lens) && Total(lens) < 0x8000_0000 && |lens| < 0x8000_0000
    ensures !Preserved(BOTH, TwoColumns(lens))
  {
    if Safe(lens) {
      OptimiserGivesExtraRows(lens);
    } else {
      OptimiserLosesDefinedness(lens);
    }
  }

  /** The optimiser preserves the execution of all queries on all tables whose columns have
      a layout, or are in one chunk, if and only if that layout is admissible. */
  lemma OptimiserPreservesIff(lens: Lengths)
    requires Total(lens) < 0x8000_0000 && |lens| < 0x8000_0000
    ensures Admissible(lens) <==> forall ops, t | LaidOutAs(ops, t, lens) :: Preserved(ops, t)
  {
    if Admissible(lens) {
      forall ops, t | LaidOutAs(ops, t, lens)
        ensures Preserved(ops, t)
      {
        AdmissiblePreserved(ops, t, lens);
      }
    } else {
      BothLaidOutAs(lens);
      InadmissibleNotPreserved(lens);
    }
  }

  // ----- a plan that no query has -----

  lemma ZerosKept(t: Table, lens: Lengths)
    requires t == ZeroTable(lens) && Rectangular(t) && NumRows(t) == Total(lens) && |lens| < 0x8000_0000
    requires HasField(Schema(t), "c") && ColumnNamed(t, "c") == ZeroColumn("c", lens)
    ensures KeepRows(Narrowed, Schema(t), RelationOf(t).rows, IS_ZERO) == RelationOf(t).rows
    ensures KeepRows(Narrowed, Schema(t), RelationOf(t).rows, NOT_ZERO.And(IS_ZERO)) == []
  {
    forall k | 0 <= k < NumRows(t)
      ensures RowSatisfies(Narrowed, Schema(t), RelationOf(t).rows[k], IS_ZERO)
      ensures !RowSatisfies(Narrowed, Schema(t), RelationOf(t).rows[k], NOT_ZERO.And(IS_ZERO))
    {
      ZeroRow(Narrowed, t, "c", lens, k);
    }
    KeepsAll(Schema(t), RelationOf(t).rows, IS_ZERO);
    KeepsNone(Narrowed, Schema(t), RelationOf(t).rows, NOT_ZERO.And(IS_ZERO));
  }

  /** One row, of value 0: a filter for 0 directly on a filter for other values keeps it as
      built, where the upper bitmap replaces the lower one, and drops it as optimised. */
  lemma BareFiltersExample()
    ensures var bare, c := [Filter(NOT_ZERO), Filter(IS_ZERO), Materialize], Context(ZeroTable([1]), None);
      var built, optimised := Run(bare, c), Run(Rewrite(true, [], bare), c);
      && built.Done? && Rectangular(built.context.table) && |RelationOf(built.context.table).rows| == 1
      && optimised.Done? && Rectangular(optimised.context.table) && RelationOf(optimised.context.table).rows == []
  {
    var t := ZeroTable([1]);
    OneChunkIsAdmissible(1);
    ZeroTableRuns(Narrowed, [1]);
    ZerosKept(t, [1]);
    BareFiltersOutcome(t, NOT_ZERO, IS_ZERO);
  }
}
