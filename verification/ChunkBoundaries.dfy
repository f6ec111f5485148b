/** Where the chunks of a query's result end, as built and as optimised.  Fields and rows
    are the same; the boundaries need not be. */
module ChunkBoundaries {
  import opened Wrappers
  import opened FixedWidth
  import opened Expressions
  import opened Tables
  import opened FilterExecution
  import opened Compaction
  import opened PlanSteps
  import opened Queries
  import opened Correctness
  import opened SafeLayouts

  predicate KeepsLastRow(rel: Relation, e: BooleanExpr)
    requires WellFormed(rel) && Resolves(rel.fields, e)
  {
    rel.rows != [] && RowSatisfies(Narrowed, rel.fields, rel.rows[|rel.rows| - 1], e)
  }

  /** Whether the last filter of a query keeps the last of the rows it is given; none if
      the query has no filter, unless one came before. */
  function LastRowKept(ops: seq<Op>, rel: Relation, before: Option<bool>): Option<bool>
    requires WellFormed(rel) && WellTyped(ops, rel.fields)
    decreases |ops|
  {
    if ops == [] then before
    else
      LastRowKept(ops[1..], Apply(Narrowed, ops[0], rel),
                  if ops[0].Where? then Some(KeepsLastRow(rel, ops[0].expr)) else before)
  }

  /** The layout of all columns, if a filter came before. */
  predicate LaidOutBy(t: Table, kept: Option<bool>) {
    kept.Some? ==> forall j | 0 <= j < |t.columns| :: Lens(t.columns[j].chunks) == ChunkLens(NumRows(t), kept.value)
  }

  lemma SelectionLayout(t: Table, sel: seq<bool>)
    requires Rectangular(t) && |sel| == NumRows(t) && t.columns != []
    ensures LaidOutBy(MaterialiseTable(t, sel), Some(EndsSelected(sel)))
  {
    var m := MaterialiseTable(t, sel);
    MaterialisedTable(t, sel);
    forall j | 0 <= j < |t.columns|
      ensures Lens(m.columns[j].chunks) == ChunkLens(NumRows(m), EndsSelected(sel))
    {
      assert Fits(t.columns[j].chunks, NumRows(t));
      MaterialisedLens(Flatten(t.columns[j].chunks), sel);
      CompactAt(Flatten(t.columns[j].chunks), sel);
    }
  }

  lemma BitsAreTruths(t: Table, e: BooleanExpr)
    requires Rectangular(t) && Resolves(Schema(t), e) && AdmissibleFor(t, e) && Filterable(t, e)
    ensures TreeBits(t, e)[..NumRows(t)] == RowTruths(Schema(t), RelationOf(t).rows, e)
  {
    var bits, truths := TreeBits(t, e)[..NumRows(t)], RowTruths(Schema(t), RelationOf(t).rows, e);
    forall k | 0 <= k < NumRows(t)
      ensures bits[k] == truths[k]
    {
      BitmapExact(t, e, k);
    }
    assert bits == truths;
  }

  lemma LastTruth(rel: Relation, e: BooleanExpr)
    requires WellFormed(rel) && Resolves(rel.fields, e)
    ensures EndsSelected(RowTruths(rel.fields, rel.rows, e)) == KeepsLastRow(rel, e)
  {
    var truths := RowTruths(rel.fields, rel.rows, e);
    if truths != [] {
      assert truths[|truths| - 1] == RowSatisfies(Narrowed, rel.fields, rel.rows[|truths| - 1], e);
    }
  }

  lemma FilterLayout(t: Table, e: BooleanExpr)
    requires Rectangular(t) && Resolves(Schema(t), e) && AdmissibleFor(t, e) && !NothingToFilter(t)
    ensures var o := Run(LowerOp(Where(e)), Context(t, None));
      o.Done? && LaidOutBy(o.context.table, Some(KeepsLastRow(RelationOf(t), e)))
  {
    AdmissibleForIsSafe(t, e);
    SelectionStep(t, e);
    var sel := TreeBits(t, e)[..NumRows(t)];
    SelectionLayout(t, sel);
    BitsAreTruths(t, e);
    LastTruth(RelationOf(t), e);
  }

  lemma ProjectLayout(t: Table, names: seq<string>, kept: Option<bool>)
    requires Rectangular(t) && Names(Schema(t), names) && LaidOutBy(t, kept)
    ensures LaidOutBy(ProjectTable(t, names), kept)
  {
    var p := ProjectTable(t, names);
    ProjectedTable(t, names);
    forall i | 0 <= i < |names|
      ensures p.columns[i] == t.columns[FieldIndex(Schema(t), names[i])]
    {
      assert HasField(Schema(t), names[i]);
    }
    if names != [] {
      assert Fits(t.columns[FieldIndex(Schema(t), names[0])].chunks, NumRows(t));
    }
  }

  /** The layout of the result, from the meaning of the query. */
  lemma {:induction false} LayoutOfResult(ops: seq<Op>, t: Table, before: Option<bool>)
    requires Rectangular(t) && WellTyped(ops, Schema(t)) && FirstAdmissible(ops, t) && !FindsNoChunks(ops, t)
    requires LaidOutBy(t, before)
    ensures var o := Run(Lower(ops), Context(t, None));
      o.Done? && LaidOutBy(o.context.table, LastRowKept(ops, RelationOf(t), before))
    decreases |ops|
  {
    if ops != [] {
      RunAppend(LowerOp(ops[0]), Lower(ops[1..]), Context(t, None));
      match ops[0] {
        case Select(names) =>
          ProjectStep(t, names);
          ProjectLayout(t, names, before);
          LayoutOfResult(ops[1..], ProjectTable(t, names), before);
        case Where(e) =>
          FilterStep(t, e);
          FilterLayout(t, e);
          var next := Run(LowerOp(ops[0]), Context(t, None)).context.table;
          ChunksAreFound(ops[1..], next);
          AllAdmissibleFirst(ops[1..], next);
          LayoutOfResult(ops[1..], next, Some(KeepsLastRow(RelationOf(t), e)));
      }
    }
  }

  // ----- queries with a filter -----

  predicate HasFilter(ops: seq<Op>) {
    exists i | 0 <= i < |ops| :: ops[i].Where?
  }

  lemma {:induction false} FilterDecides(ops: seq<Op>, rel: Relation, before: Option<bool>)
    requires WellFormed(rel) && WellTyped(ops, rel.fields)
    ensures HasFilter(ops) || before.Some? ==> LastRowKept(ops, rel, before).Some?
    decreases |ops|
  {
    if ops != [] {
      var next := if ops[0].Where? then Some(KeepsLastRow(rel, ops[0].expr)) else before;
      FilterDecides(ops[1..], Apply(Narrowed, ops[0], rel), next);
      if HasFilter(ops) {
        FilterInTail(ops);
      }
    }
  }

  lemma FilterInTail(ops: seq<Op>)
    requires ops != [] && HasFilter(ops)
    ensures ops[0].Where? || HasFilter(ops[1..])
  {
    var i :| 0 <= i < |ops| && ops[i].Where?;
    if i > 0 {
      assert ops[1..][i - 1].Where?;
    }
  }

  lemma {:induction false} FuseKeepsFilters(below: seq<Op>, ops: seq<Op>)
    requires HasFilter(below) || HasFilter(ops)
    ensures HasFilter(FuseOnto(below, ops))
    decreases |ops|
  {
    if ops != [] {
      var next := FuseOp(below, ops[0]);
      if ops[0].Where? {
        assert next[|next| - 1].Where?;
      } else if HasFilter(below) {
        var i :| 0 <= i < |below| && below[i].Where?;
        assert next[i].Where?;
      } else {
        var i :| 0 <= i < |ops| && ops[i].Where?;
        assert ops[1..][i - 1].Where?;
      }
      FuseKeepsFilters(next, ops[1..]);
    }
  }

  /** The boundaries of two tables agree. */
  predicate SameBoundaries(a: Table, b: Table)
    requires |a.columns| == |b.columns|
  {
    forall j | 0 <= j < |a.columns| :: Lens(a.columns[j].chunks) == Lens(b.columns[j].chunks)
  }

  lemma LaidOutAgreeIff(a: Table, b: Table, keptA: bool, keptB: bool)
    requires |a.columns| == |b.columns| && NumRows(a) == NumRows(b)
    requires LaidOutBy(a, Some(keptA)) && LaidOutBy(b, Some(keptB))
    ensures SameBoundaries(a, b)
       <==> a.columns == [] || keptA == keptB || NumRows(a) == 0 || NumRows(a) % CHUNK_SIZE != 0
  {
    ChunkLensAgreeIff(NumRows(a), keptA, keptB);
    if a.columns != [] {
      assert Lens(a.columns[0].chunks) == ChunkLens(NumRows(a), keptA);
      assert Lens(b.columns[0].chunks) == ChunkLens(NumRows(a), keptB);
    }
  }

  /** The results of the plan as built and as optimised have the same chunk boundaries if
      and only if there is no column or no filter, the rows do not fill their chunks
      exactly, or the last row that the last filter of the query is given is kept by it
      just when the last row that the last run of filters is given is kept by all of them. */
  lemma BoundariesAgreeIff(ops: seq<Op>, t: Table)
    requires Rectangular(t) && WellTyped(ops, Schema(t)) && FirstAdmissible(Fuse(ops), t) && !FindsNoChunks(ops, t)
    ensures WellTyped(Fuse(ops), Schema(t))
    ensures var built := Run(Lower(ops), Context(t, None));
      var optimised := Run(Rewrite(true, [], Lower(ops)), Context(t, None));
      var kept := LastRowKept(ops, RelationOf(t), None);
      var keptByAll := LastRowKept(Fuse(ops), RelationOf(t), None);
      && built.Done? && optimised.Done?
      && |built.context.table.columns| == |optimised.context.table.columns|
      && var n := NumRows(built.context.table);
         SameBoundaries(built.context.table, optimised.context.table)
         <==> (|| built.context.table.columns == [] || !HasFilter(ops)
               || n == 0 || n % CHUNK_SIZE != 0 || kept == keptByAll)
  {
    assert [] + ops == ops;
    FuseKeepsChecks([], ops, t);
    JoinFiltersIsFuse([], ops);
    if HasFilter(ops) {
      BoundariesWithFilter(ops, t);
    } else {
      FuseKeepsFused([], ops);
      ExecutionIsMeaning(ops, t);
    }
  }

  lemma BoundariesWithFilter(ops: seq<Op>, t: Table)
    requires Rectangular(t) && WellTyped(ops, Schema(t)) && WellTyped(Fuse(ops), Schema(t)) && HasFilter(ops)
    requires FirstAdmissible(ops, t) && !FindsNoChunks(ops, t)
    requires FirstAdmissible(Fuse(ops), t) && !FindsNoChunks(Fuse(ops), t)
    ensures var built := Run(Lower(ops), Context(t, None));
      var optimised := Run(Lower(Fuse(ops)), Context(t, None));
      var kept := LastRowKept(ops, RelationOf(t), None);
      var keptByAll := LastRowKept(Fuse(ops), RelationOf(t), None);
      && built.Done? && optimised.Done?
      && |built.context.table.columns| == |optimised.context.table.columns|
      && var n := NumRows(built.context.table);
         SameBoundaries(built.context.table, optimised.context.table)
         <==> built.context.table.columns == [] || n == 0 || n % CHUNK_SIZE != 0 || kept == keptByAll
  {
    SameRowsAndFields(ops, t);
    FilterDecides(ops, RelationOf(t), None);
    FuseKeepsFilters([], ops);
    FilterDecides(Fuse(ops), RelationOf(t), None);
    LayoutOfResult(ops, t, None);
    LayoutOfResult(Fuse(ops), t, None);
    var built := Run(Lower(ops), Context(t, None)).context.table;
    var optimised := Run(Lower(Fuse(ops)), Context(t, None)).context.table;
    LaidOutAgreeIff(built, optimised, LastRowKept(ops, RelationOf(t), None).value,
                    LastRowKept(Fuse(ops), RelationOf(t), None).value);
  }

  lemma SameRowsAndFields(ops: seq<Op>, t: Table)
    requires Rectangular(t) && WellTyped(ops, Schema(t)) && WellTyped(Fuse(ops), Schema(t))
    requires FirstAdmissible(ops, t) && !FindsNoChunks(ops, t)
    requires FirstAdmissible(Fuse(ops), t) && !FindsNoChunks(Fuse(ops), t)
    ensures var built, optimised := Run(Lower(ops), Context(t, None)), Run(Lower(Fuse(ops)), Context(t, None));
      && built.Done? && optimised.Done?
      && |built.context.table.columns| == |optimised.context.table.columns|
      && NumRows(built.context.table) == NumRows(optimised.context.table)
  {
    ExecutionIsMeaning(ops, t);
    ExecutionIsMeaning(Fuse(ops), t);
    assert [] + ops == ops;
    FusePreservesMeaning(Narrowed, [], ops, RelationOf(t));
    var built := Run(Lower(ops), Context(t, None)).context.table;
    var optimised := Run(Lower(Fuse(ops)), Context(t, None)).context.table;
    assert |Schema(built)| == |Schema(optimised)| && |RelationOf(built).rows| == |RelationOf(optimised).rows|;
  }

  // ----- an instance -----

  /** A full output chunk of zeros and a one. */
  const ROWS: seq<int> := seq(16384, _ => 0) + [1]

  const ZEROS_AND_ONE: Table := Table([Column(Field("c", Int8), [ROWS])])

  const TWICE: seq<Op> := [Where(IS_ZERO), Where(IS_ZERO)]

  lemma ExampleRuns()
    ensures var t := ZEROS_AND_ONE;
      && Rectangular(t) && NumRows(t) == 16385 && WellTyped(TWICE, Schema(t))
      && HasField(Schema(t), "c") && ColumnNamed(t, "c") == t.columns[0]
      && AllAdmissible(t) && HasChunks(t) && Flatten(t.columns[0].chunks) == ROWS
  {
    var t := ZEROS_AND_ONE;
    assert [ROWS][..0] == [] && [] + ROWS == ROWS;
    assert Flatten([ROWS]) == ROWS;
    assert Lens([ROWS]) == [16385];
    OneChunkIsAdmissible(16385);
    assert Schema(t)[0] == Field("c", Int8);
    assert TWICE[1..] == [Where(IS_ZERO)] && TWICE[1..][1..] == [];
  }

  lemma ExampleRow(k: nat)
    requires k < 16385 && Rectangular(ZEROS_AND_ONE) && NumRows(ZEROS_AND_ONE) == 16385
    requires HasField(Schema(ZEROS_AND_ONE), "c") && Flatten(ZEROS_AND_ONE.columns[0].chunks) == ROWS
    ensures RowSatisfies(Narrowed, Schema(ZEROS_AND_ONE), RowOf(ZEROS_AND_ONE, k), IS_ZERO) <==> k < 16384
  {
    assert RowOf(ZEROS_AND_ONE, k)[0] == if k < 16384 then 0 else 1;
  }

  /** The first filter keeps all rows but the last, and the second keeps them all. */
  lemma ExampleMeaning()
    ensures Rectangular(ZEROS_AND_ONE) && WellTyped(TWICE, Schema(ZEROS_AND_ONE))
    ensures var rel := RelationOf(ZEROS_AND_ONE);
      && |rel.rows| == 16385
      && Apply(Narrowed, Where(IS_ZERO), rel).rows == rel.rows[..16384]
      && Apply(Narrowed, Where(IS_ZERO), Relation(rel.fields, rel.rows[..16384])).rows == rel.rows[..16384]
      && KeepsLastRow(Relation(rel.fields, rel.rows[..16384]), IS_ZERO) && !KeepsLastRow(rel, IS_ZERO)
  {
    ExampleRuns();
    var rel := RelationOf(ZEROS_AND_ONE);
    var zeros := rel.rows[..16384];
    forall k | 0 <= k < 16385
      ensures RowSatisfies(Narrowed, rel.fields, rel.rows[k], IS_ZERO) <==> k < 16384
    {
      ExampleRow(k);
    }
    KeepsAll(rel.fields, zeros, IS_ZERO);
    KeepRowsOne(Narrowed, rel.fields, zeros, rel.rows[16384], IS_ZERO);
    assert rel.rows == zeros + [rel.rows[16384]];
  }

  lemma ExampleKept()
    ensures Rectangular(ZEROS_AND_ONE)
    ensures WellTyped(TWICE, Schema(ZEROS_AND_ONE)) && WellTyped(Fuse(TWICE), Schema(ZEROS_AND_ONE))
    ensures var rel := RelationOf(ZEROS_AND_ONE);
      && LastRowKept(TWICE, rel, None) == Some(true)
      && LastRowKept(Fuse(TWICE), rel, None) == Some(false)
      && |Meaning(Narrowed, TWICE, rel).rows| == 16384 && |Meaning(Narrowed, TWICE, rel).fields| == 1
  {
    ExampleMeaning();
    var e, rel := IS_ZERO, RelationOf(ZEROS_AND_ONE);
    var es := [e, e];
    assert es[..1] == [e] && TWICE == Filters(es);
    FuseRun([], es);
    assert [] + [Where(e.And(e))] == [Where(e.And(e))] && [Where(e.And(e))][1..] == [];
    assert TWICE[1..] == [Where(e)] && TWICE[1..][1..] == [];
    var first := Apply(Narrowed, Where(e), rel);
    var second := Apply(Narrowed, Where(e), first);
    assert LastRowKept(TWICE[1..], first, Some(false)) == LastRowKept([], second, Some(true));
    assert Meaning(Narrowed, TWICE[1..], first) == Meaning(Narrowed, [], second);
  }

  /** 16384 zeros and a one, filtered for zeros twice: as built the result is one full
      chunk; the optimised plan leaves an empty chunk behind it. */
  lemma BoundariesExample()
    ensures var c := Context(ZEROS_AND_ONE, None);
      var built, optimised := Run(Lower(TWICE), c), Run(Rewrite(true, [], Lower(TWICE)), c);
      && built.Done? && |built.context.table.columns| == 1
      && optimised.Done? && |optimised.context.table.columns| == 1
      && Lens(built.context.table.columns[0].chunks) == [16384]
      && Lens(optimised.context.table.columns[0].chunks) == [16384, 0]
  {
    ExampleKept();
    ExampleChecks();
    JoinFiltersIsFuse([], TWICE);
    SameRowsAndFields(TWICE, ZEROS_AND_ONE);
    ExecutionIsMeaning(TWICE, ZEROS_AND_ONE);
    var built := Run(Lower(TWICE), Context(ZEROS_AND_ONE, None)).context.table;
    OneColumn(built, Meaning(Narrowed, TWICE, RelationOf(ZEROS_AND_ONE)));
    LayoutOfResult(TWICE, ZEROS_AND_ONE, None);
    LayoutOfResult(Fuse(TWICE), ZEROS_AND_ONE, None);
    FullChunk();
  }

  lemma ExampleChecks()
    ensures var t := ZEROS_AND_ONE;
      && Rectangular(t) && WellTyped(TWICE, Schema(t)) && WellTyped(Fuse(TWICE), Schema(t))
      && !FindsNoChunks(TWICE, t) && FirstAdmissible(TWICE, t)
      && !FindsNoChunks(Fuse(TWICE), t) && FirstAdmissible(Fuse(TWICE), t)
  {
    ExampleRuns();
    assert [] + TWICE == TWICE;
    FuseKeepsChecks([], TWICE, ZEROS_AND_ONE);
    ChunksAreFound(TWICE, ZEROS_AND_ONE);
    AllAdmissibleFirst(TWICE, ZEROS_AND_ONE);
    AllAdmissibleFirst(Fuse(TWICE), ZEROS_AND_ONE);
  }

  lemma OneColumn(t: Table, rel: Relation)
    requires Rectangular(t) && RelationOf(t) == rel && |rel.fields| == 1
    ensures |t.columns| == 1 && NumRows(t) == |rel.rows|
  {
  }

  lemma FullChunk()
    ensures ChunkLens(16384, true) == [16384] && ChunkLens(16384, false) == [16384, 0]
  {
    assert seq(1, _ => CHUNK_SIZE) == [CHUNK_SIZE];
  }
}
