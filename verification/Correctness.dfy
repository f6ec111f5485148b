/** Executing the plan of a query, on chunked columns and bitmaps, against the meaning of
    the query on rows. */
module Correctness {
  import opened Wrappers
  import opened FixedWidth
  import opened Expressions
  import opened Bitmaps
  import opened Layout
  import opened Tables
  import opened FilterExecution
  import opened Compaction
  import opened PlanSteps
  import opened Queries

  // ----- tables as relations -----

  function RowOf(t: Table, k: nat): Row
    requires Rectangular(t) && k < NumRows(t)
  {
    seq(|t.columns|, j requires 0 <= j < |t.columns| => ValueAt(t, j, k))
  }

  function ValueAt(t: Table, j: nat, k: nat): int
    requires Rectangular(t) && j < |t.columns| && k < NumRows(t)
  {
    assert Fits(t.columns[j].chunks, NumRows(t));
    Flatten(t.columns[j].chunks)[k]
  }

  /** The values of a row, in the order of the columns. */
  lemma RowWritten(t: Table, k: nat)
    requires Rectangular(t) && k < NumRows(t)
    ensures |RowOf(t, k)| == |t.columns|
    ensures forall j | 0 <= j < |t.columns| ::
      |Flatten(t.columns[j].chunks)| == NumRows(t) && RowOf(t, k)[j] == Flatten(t.columns[j].chunks)[k]
  {
    forall j | 0 <= j < |t.columns|
      ensures |Flatten(t.columns[j].chunks)| == NumRows(t) && RowOf(t, k)[j] == Flatten(t.columns[j].chunks)[k]
    {
      assert Fits(t.columns[j].chunks, NumRows(t));
    }
  }

  /** The rows of a table, whatever the chunking of its columns. */
  function RelationOf(t: Table): (rel: Relation)
    requires Rectangular(t)
    ensures WellFormed(rel)
  {
    Relation(Schema(t), seq(NumRows(t), k requires 0 <= k < NumRows(t) => RowOf(t, k)))
  }

  predicate AllAdmissible(t: Table) {
    forall j | 0 <= j < |t.columns| :: Admissible(Lens(t.columns[j].chunks))
  }

  /** The columns an expression compares have safe layouts. */
  predicate SafeFor(t: Table, e: BooleanExpr) {
    match e
    case Compare(name, _, _) => HasField(Schema(t), name) && Safe(Lens(ColumnNamed(t, name).chunks))
    case Predicate(l, r, _) => SafeFor(t, l) && SafeFor(t, r)
  }

  /** The columns an expression compares have admissible layouts. */
  predicate AdmissibleFor(t: Table, e: BooleanExpr) {
    match e
    case Compare(name, _, _) => HasField(Schema(t), name) && Admissible(Lens(ColumnNamed(t, name).chunks))
    case Predicate(l, r, _) => AdmissibleFor(t, l) && AdmissibleFor(t, r)
  }

  lemma {:induction false} AdmissibleForIsSafe(t: Table, e: BooleanExpr)
    requires AdmissibleFor(t, e)
    ensures SafeFor(t, e)
  {
    match e {
      case Compare(name, _, _) => AdmissibleIsSafe(Lens(ColumnNamed(t, name).chunks));
      case Predicate(l, r, _) =>
        AdmissibleForIsSafe(t, l);
        AdmissibleForIsSafe(t, r);
    }
  }

  lemma {:induction false} AllAdmissibleFor(t: Table, e: BooleanExpr)
    requires AllAdmissible(t) && Resolves(Schema(t), e)
    ensures AdmissibleFor(t, e)
  {
    match e {
      case Compare(name, _, _) =>
        assert ColumnNamed(t, name) == t.columns[FieldIndex(Schema(t), name)];
      case Predicate(l, r, _) =>
        AllAdmissibleFor(t, l);
        AllAdmissibleFor(t, r);
    }
  }

  predicate HoldsValuesOf(c: Column, t: DataType) {
    forall k | 0 <= k < |Flatten(c.chunks)| :: InRange(t, Flatten(c.chunks)[k])
  }

  /** Every column holds values of its type. */
  predicate Typed(t: Table) {
    forall j | 0 <= j < |t.columns| :: HoldsValuesOf(t.columns[j], t.columns[j].field.t)
  }

  /** A table as Arrow delivers it: equally long, not too long columns of typed values. */
  predicate Sound(t: Table) {
    Rectangular(t) && Typed(t)
  }

  /** Every column has a chunk. */
  predicate HasChunks(t: Table) {
    forall j | 0 <= j < |t.columns| :: t.columns[j].chunks != []
  }

  lemma RowInRanges(t: Table, k: nat)
    requires Sound(t) && k < NumRows(t)
    ensures InRanges(Schema(t), RowOf(t, k))
  {
    forall j | 0 <= j < |t.columns|
      ensures InRange(Schema(t)[j].t, RowOf(t, k)[j])
    {
      assert HoldsValuesOf(t.columns[j], t.columns[j].field.t) && Fits(t.columns[j].chunks, NumRows(t));
    }
  }

  /** On a table of typed values, literals that can be compared exactly are read as numbers. */
  lemma ReadAsNumbers(t: Table, e: BooleanExpr, k: nat)
    requires Sound(t) && Resolves(Schema(t), e) && ExactIn(Schema(t), e) && k < NumRows(t)
    ensures RowSatisfies(Narrowed, Schema(t), RowOf(t, k), e) == RowSatisfies(Numeric, Schema(t), RowOf(t, k), e)
  {
    RowInRanges(t, k);
    ReadingsAgreeOnRow(Schema(t), RowOf(t, k), e);
  }

  lemma QueryReadAsNumbers(ops: seq<Op>, t: Table)
    requires Sound(t) && WellTyped(ops, Schema(t)) && Exact(ops, Schema(t))
    ensures Meaning(Narrowed, ops, RelationOf(t)) == Meaning(Numeric, ops, RelationOf(t))
  {
    forall k | 0 <= k < NumRows(t)
      ensures InRanges(Schema(t), RelationOf(t).rows[k])
    {
      RowInRanges(t, k);
    }
    ReadingsAgree(ops, RelationOf(t));
  }

  // ----- the bitmap of an expression, bit by bit -----

  /** The expressions that can be filtered on a table are those whose compared columns have
      safe layouts. */
  lemma {:induction false} FilterableIff(t: Table, e: BooleanExpr)
    requires Rectangular(t) && Resolves(Schema(t), e)
    ensures Filterable(t, e) <==> SafeFor(t, e)
  {
    match e {
      case Compare(name, _, _) =>
        var chunks := ColumnNamed(t, name).chunks;
        assert Fits(t.columns[FieldIndex(Schema(t), name)].chunks, NumRows(t));
        FlattenLength(chunks);
        KernelsStayInsideIff(Lens(chunks));
      case Predicate(l, r, _) =>
        FilterableIff(t, l);
        FilterableIff(t, r);
    }
  }

  lemma {:induction false} SafeForResolves(t: Table, e: BooleanExpr)
    requires SafeFor(t, e)
    ensures Resolves(Schema(t), e)
  {
    match e {
      case Compare(_, _, _) =>
      case Predicate(l, r, _) =>
        SafeForResolves(t, l);
        SafeForResolves(t, r);
    }
  }

  /** The bit of a comparison is the comparison on the row, or one where no kernel call
      looks at the row. */
  lemma CompareBit(t: Table, e: BooleanExpr, k: nat)
    requires e.Compare? && Filterable(t, e) && k < NumRows(t) && Rectangular(t)
    ensures Resolves(Schema(t), e)
    ensures TreeBits(t, e)[k] == (RowSatisfies(Narrowed, Schema(t), RowOf(t, k), e)
                                  || Skipped(Lens(ColumnNamed(t, e.column).chunks), k))
    ensures Typed(t) && ExactIn(Schema(t), e) ==>
      TreeBits(t, e)[k] == (RowSatisfies(Numeric, Schema(t), RowOf(t, k), e)
                            || Skipped(Lens(ColumnNamed(t, e.column).chunks), k))
  {
    var j := FieldIndex(Schema(t), e.column);
    var column := t.columns[j];
    assert column == ColumnNamed(t, e.column);
    var v := Flatten(column.chunks)[k];
    MachineCompareIsNarrowed(column.field.t, e.op, v, e.literal);
    assert RowOf(t, k)[j] == v;
    if Typed(t) && ExactIn(Schema(t), e) {
      ReadAsNumbers(t, e, k);
    }
  }

  /** Row k counts as matching: a comparison counts as true where no kernel call looks at
      the row. */
  predicate Passes(t: Table, e: BooleanExpr, k: nat)
    requires Rectangular(t) && Resolves(Schema(t), e) && k < NumRows(t)
  {
    match e
    case Compare(name, _, _) =>
      RowSatisfies(Narrowed, Schema(t), RowOf(t, k), e) || Skipped(Lens(ColumnNamed(t, name).chunks), k)
    case Predicate(l, r, op) => Join(op, Passes(t, l, k), Passes(t, r, k))
  }

  /** No kernel call looks at row k for some comparison. */
  predicate SkippedIn(t: Table, e: BooleanExpr, k: nat)
    requires Resolves(Schema(t), e)
  {
    match e
    case Compare(name, _, _) => Skipped(Lens(ColumnNamed(t, name).chunks), k)
    case Predicate(l, r, _) => SkippedIn(t, l, k) || SkippedIn(t, r, k)
  }

  /** Every row that matches passes, and where no comparison skips it no other row does. */
  lemma {:induction false} PassesBetween(t: Table, e: BooleanExpr, k: nat)
    requires Rectangular(t) && Resolves(Schema(t), e) && k < NumRows(t)
    ensures RowSatisfies(Narrowed, Schema(t), RowOf(t, k), e) ==> Passes(t, e, k)
    ensures Passes(t, e, k) ==> RowSatisfies(Narrowed, Schema(t), RowOf(t, k), e) || SkippedIn(t, e, k)
  {
    match e {
      case Compare(_, _, _) =>
      case Predicate(l, r, _) =>
        PassesBetween(t, l, k);
        PassesBetween(t, r, k);
    }
  }

  /** The bit of a row, exactly, on every layout the kernels can handle. */
  lemma {:induction false} BitIsPasses(t: Table, e: BooleanExpr, k: nat)
    requires Filterable(t, e) && k < NumRows(t) && Resolves(Schema(t), e) && Rectangular(t)
    ensures TreeBits(t, e)[k] == Passes(t, e, k)
  {
    match e {
      case Compare(_, _, _) => CompareBit(t, e, k);
      case Predicate(l, r, _) =>
        BitIsPasses(t, l, k);
        BitIsPasses(t, r, k);
    }
  }

  /** No bit of a matching row is ever cleared, on every layout the kernels can handle. */
  lemma {:induction false} MatchingRowKept(t: Table, e: BooleanExpr, k: nat)
    requires Filterable(t, e) && k < NumRows(t) && Resolves(Schema(t), e) && Rectangular(t)
    ensures RowSatisfies(Narrowed, Schema(t), RowOf(t, k), e) ==> TreeBits(t, e)[k]
    ensures Typed(t) && ExactIn(Schema(t), e) && RowSatisfies(Numeric, Schema(t), RowOf(t, k), e) ==>
      TreeBits(t, e)[k]
  {
    BitIsPasses(t, e, k);
    PassesBetween(t, e, k);
    if Typed(t) && ExactIn(Schema(t), e) {
      ReadAsNumbers(t, e, k);
    }
  }

  /** The bitmap holds the expression's value for every row that no comparison skips. */
  lemma {:induction false} BitExactUnlessSkipped(t: Table, e: BooleanExpr, k: nat)
    requires Filterable(t, e) && k < NumRows(t) && Resolves(Schema(t), e)
    requires Rectangular(t) && !SkippedIn(t, e, k)
    ensures TreeBits(t, e)[k] == RowSatisfies(Narrowed, Schema(t), RowOf(t, k), e)
    ensures Typed(t) && ExactIn(Schema(t), e) ==>
      TreeBits(t, e)[k] == RowSatisfies(Numeric, Schema(t), RowOf(t, k), e)
  {
    BitIsPasses(t, e, k);
    PassesBetween(t, e, k);
    if Typed(t) && ExactIn(Schema(t), e) {
      ReadAsNumbers(t, e, k);
    }
  }

  lemma {:induction false} AdmissibleSkipsNone(t: Table, e: BooleanExpr, k: nat)
    requires Rectangular(t) && Resolves(Schema(t), e) && AdmissibleFor(t, e) && k < NumRows(t)
    ensures !SkippedIn(t, e, k)
  {
    match e {
      case Compare(name, _, _) =>
        var chunks := ColumnNamed(t, name).chunks;
        assert Fits(t.columns[FieldIndex(Schema(t), name)].chunks, NumRows(t));
        AdmissibleIsSafe(Lens(chunks));
        NothingSkippedIff(Lens(chunks));
        FlattenLength(chunks);
      case Predicate(l, r, _) =>
        AdmissibleSkipsNone(t, l, k);
        AdmissibleSkipsNone(t, r, k);
    }
  }

  /** On admissible layouts the bitmap holds the expression's value for every row. */
  lemma {:induction false} BitmapExact(t: Table, e: BooleanExpr, k: nat)
    requires Filterable(t, e) && k < NumRows(t) && Resolves(Schema(t), e)
    requires Rectangular(t) && AdmissibleFor(t, e)
    ensures TreeBits(t, e)[k] == RowSatisfies(Narrowed, Schema(t), RowOf(t, k), e)
    ensures Typed(t) && ExactIn(Schema(t), e) ==>
      TreeBits(t, e)[k] == RowSatisfies(Numeric, Schema(t), RowOf(t, k), e)
  {
    AdmissibleSkipsNone(t, e, k);
    BitExactUnlessSkipped(t, e, k);
  }

  /** Fewer than eight padding bits follow the rows. */
  lemma FewPaddingBits(t: Table, e: BooleanExpr)
    requires Filterable(t, e)
    ensures NumRows(t) <= |TreeBits(t, e)| < NumRows(t) + 8
  {
    BytesForBounds(NumRows(t));
  }

  /** All padding bits stay one. */
  lemma {:induction false} PaddingStaysOne(t: Table, e: BooleanExpr, k: nat)
    requires Filterable(t, e) && NumRows(t) <= k < 8 * BytesFor(NumRows(t))
    ensures TreeBits(t, e)[k]
  {
    match e {
      case Compare(_, _, _) =>
      case Predicate(l, r, _) =>
        PaddingStaysOne(t, l, k);
        PaddingStaysOne(t, r, k);
    }
  }

  // ----- one step on a table, against one operation on its rows -----

  lemma {:induction false} KeepRowsCompacts(reading: Reading, fields: seq<Field>, rows: seq<Row>, e: BooleanExpr,
                                            sel: seq<bool>)
    requires Resolves(fields, e) && WellFormed(Relation(fields, rows)) && |sel| == |rows|
    requires forall k | 0 <= k < |rows| :: sel[k] == RowSatisfies(reading, fields, rows[k], e)
    ensures KeepRows(reading, fields, rows, e) == Compact(rows, sel)
    decreases |rows|
  {
    if rows != [] {
      var last := |rows| - 1;
      KeepRowsCompacts(reading, fields, rows[..last], e, sel[..last]);
    }
  }

  /** The rows kept are those that satisfy the expression, each once, in order. */
  lemma KeptPositions(reading: Reading, fields: seq<Field>, rows: seq<Row>, e: BooleanExpr) returns (ps: seq<nat>)
    requires Resolves(fields, e) && WellFormed(Relation(fields, rows))
    ensures forall i, j | 0 <= i < j < |ps| :: ps[i] < ps[j]
    ensures forall i | 0 <= i < |ps| :: ps[i] < |rows|
    ensures forall k | 0 <= k < |rows| :: k in ps <==> RowSatisfies(reading, fields, rows[k], e)
    ensures var kept := KeepRows(reading, fields, rows, e);
      |kept| == |ps| && forall i | 0 <= i < |ps| :: kept[i] == rows[ps[i]]
  {
    var sel := seq(|rows|, k requires 0 <= k < |rows| => RowSatisfies(reading, fields, rows[k], e));
    ps := Positions(sel);
    PositionsSound(sel);
    KeepRowsCompacts(reading, fields, rows, e, sel);
    CompactAt(rows, sel);
  }

  /** A materialised column: the selected rows, in an admissible layout with a chunk. */
  lemma MaterialisedColumn(c: Column, sel: seq<bool>)
    requires Fits(c.chunks, |sel|)
    ensures var m := MaterialiseColumn(c, sel);
      && Fits(m.chunks, |Positions(sel)|) && (HoldsValuesOf(c, c.field.t) ==> HoldsValuesOf(m, m.field.t))
      && Admissible(Lens(m.chunks)) && m.chunks != []
      && forall i | 0 <= i < |Positions(sel)| :: Flatten(m.chunks)[i] == Flatten(c.chunks)[Positions(sel)[i]]
  {
    var rows := Flatten(c.chunks);
    var m := MaterialiseColumn(c, sel);
    MaterialisedIsCompaction(rows, sel);
    WellChunkedIsAdmissible(Lens(m.chunks));
    CompactAt(rows, sel);
    FlattenLength(m.chunks);
    FewChunks(Lens(m.chunks));
  }

  lemma FewChunks(lens: Lengths)
    requires WellChunked(lens)
    ensures (|lens| - 1) * CHUNK_SIZE <= Total(lens)
  {
    WellChunkedStart(lens, |lens| - 1);
    StartMonotone(lens, |lens| - 1, |lens|);
  }

  lemma MaterialisedTable(t: Table, sel: seq<bool>)
    requires Rectangular(t) && |sel| == NumRows(t) && t.columns != []
    ensures var m := MaterialiseTable(t, sel);
      && Rectangular(m) && (Typed(t) ==> Typed(m)) && AllAdmissible(m) && HasChunks(m)
      && Schema(m) == Schema(t) && NumRows(m) == |Positions(sel)|
      && RelationOf(m).rows == Compact(RelationOf(t).rows, sel)
  {
    var m := MaterialiseTable(t, sel);
    forall j | 0 <= j < |t.columns|
      ensures m.columns[j] == MaterialiseColumn(t.columns[j], sel)
      ensures Fits(m.columns[j].chunks, |Positions(sel)|)
      ensures Typed(t) ==> HoldsValuesOf(m.columns[j], m.columns[j].field.t)
      ensures Admissible(Lens(m.columns[j].chunks)) && m.columns[j].chunks != []
    {
      assert Fits(t.columns[j].chunks, NumRows(t));
      assert Typed(t) ==> HoldsValuesOf(t.columns[j], t.columns[j].field.t);
      MaterialisedColumn(t.columns[j], sel);
    }
    var rows := RelationOf(t).rows;
    CompactAt(rows, sel);
    forall i | 0 <= i < |Positions(sel)|
      ensures RowOf(m, i) == rows[Positions(sel)[i]]
    {
      MaterialisedRow(t, sel, i);
    }
  }

  /** All columns of a materialised table share one layout, whatever their chunks were. */
  lemma OneLayout(t: Table, sel: seq<bool>, i: nat, j: nat)
    requires Rectangular(t) && |sel| == NumRows(t) && i < |t.columns| && j < |t.columns|
    ensures var m := MaterialiseTable(t, sel);
      Lens(m.columns[i].chunks) == Lens(m.columns[j].chunks)
  {
    assert Fits(t.columns[i].chunks, NumRows(t)) && Fits(t.columns[j].chunks, NumRows(t));
    MaterialisedLayout(Flatten(t.columns[i].chunks), Flatten(t.columns[j].chunks), sel);
  }

  lemma MaterialisedRow(t: Table, sel: seq<bool>, i: nat)
    requires Rectangular(t) && |sel| == NumRows(t)
    requires Rectangular(MaterialiseTable(t, sel)) && NumRows(MaterialiseTable(t, sel)) == |Positions(sel)|
    requires i < |Positions(sel)|
    ensures RowOf(MaterialiseTable(t, sel), i) == RowOf(t, Positions(sel)[i])
  {
    var m := MaterialiseTable(t, sel);
    forall j | 0 <= j < |t.columns|
      ensures ValueAt(m, j, i) == ValueAt(t, j, Positions(sel)[i])
    {
      assert Fits(t.columns[j].chunks, NumRows(t));
      MaterialisedColumn(t.columns[j], sel);
    }
  }

  /** Filter and materialisation, together, keep the rows with a one in the bitmap; only a
      first column without chunks makes them throw. */
  lemma {:induction false} SelectionStep(t: Table, e: BooleanExpr)
    requires Rectangular(t) && Resolves(Schema(t), e) && (NothingToFilter(t) || SafeFor(t, e))
    ensures var o := Run(LowerOp(Where(e)), Context(t, None));
      if NothingToFilter(t) then o == Thrown
      else
        && Filterable(t, e)
        && var sel := TreeBits(t, e)[..NumRows(t)];
           var m := MaterialiseTable(t, sel);
           && o == Done(Context(m, None))
           && Rectangular(m) && AllAdmissible(m) && HasChunks(m) && (Typed(t) ==> Typed(m))
           && Schema(m) == Schema(t)
           && RelationOf(m).rows == Compact(RelationOf(t).rows, sel)
  {
    SomeColumn(Schema(t), e);
    RunTwo(Filter(e), Materialize, Context(t, None));
    if !NothingToFilter(t) {
      FilterableIff(t, e);
      assert Fits(t.columns[0].chunks, NumRows(t));
      MaterialisedTable(t, TreeBits(t, e)[..NumRows(t)]);
    }
  }

  /** Where the compared columns have admissible layouts, these are exactly the rows that
      satisfy the expression. */
  lemma {:induction false} FilterStep(t: Table, e: BooleanExpr)
    requires Rectangular(t) && Resolves(Schema(t), e)
    requires NothingToFilter(t) || AdmissibleFor(t, e)
    ensures var o := Run(LowerOp(Where(e)), Context(t, None));
      if NothingToFilter(t) then o == Thrown
      else
        && o.Done? && o.context.bitmap == None
        && Rectangular(o.context.table) && AllAdmissible(o.context.table) && HasChunks(o.context.table)
        && (Typed(t) ==> Typed(o.context.table))
        && RelationOf(o.context.table) == Apply(Narrowed, Where(e), RelationOf(t))
        && (Typed(t) && ExactIn(Schema(t), e) ==>
              RelationOf(o.context.table) == Apply(Numeric, Where(e), RelationOf(t)))
  {
    if !NothingToFilter(t) {
      AdmissibleForIsSafe(t, e);
      SelectionStep(t, e);
      SelectionKeepsMatches(t, e);
    } else {
      SelectionStep(t, e);
    }
    if Typed(t) && ExactIn(Schema(t), e) {
      assert [Where(e)][1..] == [];
      QueryReadAsNumbers([Where(e)], t);
    }
  }

  lemma SelectionKeepsMatches(t: Table, e: BooleanExpr)
    requires Rectangular(t) && Resolves(Schema(t), e) && AdmissibleFor(t, e) && Filterable(t, e)
    ensures KeepRows(Narrowed, Schema(t), RelationOf(t).rows, e)
         == Compact(RelationOf(t).rows, TreeBits(t, e)[..NumRows(t)])
  {
    var sel := TreeBits(t, e)[..NumRows(t)];
    forall k | 0 <= k < NumRows(t)
      ensures sel[k] == RowSatisfies(Narrowed, Schema(t), RelationOf(t).rows[k], e)
    {
      BitmapExact(t, e, k);
    }
    KeepRowsCompacts(Narrowed, Schema(t), RelationOf(t).rows, e, sel);
  }

  lemma RunTwo(s: Step, next: Step, c: Context)
    ensures Run([s, next], c) == if RunStep(s, c).Done? then RunStep(next, RunStep(s, c).context) else RunStep(s, c)
  {
    assert [s, next][1..] == [next];
    if RunStep(s, c).Done? {
      RunOne(next, RunStep(s, c).context);
    }
  }

  lemma RunOne(s: Step, c: Context)
    ensures Run([s], c) == RunStep(s, c)
  {
    assert [s][1..] == [];
  }

  lemma SomeColumn(fields: seq<Field>, e: BooleanExpr)
    requires Resolves(fields, e)
    ensures fields != []
  {
  }

  /** Projection narrows every row. */
  lemma {:induction false} ProjectStep(t: Table, names: seq<string>)
    requires Rectangular(t) && Names(Schema(t), names) && |names| < 0x8000_0000
    ensures var p := ProjectTable(t, names);
      && Run(LowerOp(Select(names)), Context(t, None)) == Done(Context(p, None))
      && Rectangular(p) && (AllAdmissible(t) ==> AllAdmissible(p))
      && (Typed(t) ==> Typed(p)) && (HasChunks(t) ==> HasChunks(p))
      && RelationOf(p) == Apply(Narrowed, Select(names), RelationOf(t)) == Apply(Numeric, Select(names), RelationOf(t))
  {
    RunOne(Project(names), Context(t, None));
    ProjectedTable(t, names);
  }

  lemma ProjectedTable(t: Table, names: seq<string>)
    requires Rectangular(t) && Names(Schema(t), names)
    ensures var p := ProjectTable(t, names);
      && Rectangular(p) && (Typed(t) ==> Typed(p)) && (AllAdmissible(t) ==> AllAdmissible(p))
      && (HasChunks(t) ==> HasChunks(p))
      && Schema(p) == PickFields(Schema(t), names)
      && RelationOf(p).rows == PickRows(Schema(t), RelationOf(t).rows, names)
  {
    var p := ProjectTable(t, names);
    forall i | 0 <= i < |names|
      ensures p.columns[i] == t.columns[FieldIndex(Schema(t), names[i])]
      ensures Fits(p.columns[i].chunks, NumRows(t)) && (Typed(t) ==> HoldsValuesOf(p.columns[i], p.columns[i].field.t))
      ensures AllAdmissible(t) ==> Admissible(Lens(p.columns[i].chunks))
      ensures HasChunks(t) ==> p.columns[i].chunks != []
    {
      assert HasField(Schema(t), names[i]);
      var j := FieldIndex(Schema(t), names[i]);
      assert Fits(t.columns[j].chunks, NumRows(t)) && (Typed(t) ==> HoldsValuesOf(t.columns[j], t.columns[j].field.t));
    }
    if names != [] {
      forall k | 0 <= k < NumRows(t)
        ensures RowOf(p, k) == PickValues(Schema(t), RowOf(t, k), names)
      {
        ProjectedRow(t, names, k);
      }
    }
  }

  lemma ProjectedRow(t: Table, names: seq<string>, k: nat)
    requires Rectangular(t) && Names(Schema(t), names) && k < NumRows(t)
    requires Rectangular(ProjectTable(t, names)) && NumRows(ProjectTable(t, names)) == NumRows(t)
    ensures RowOf(ProjectTable(t, names), k) == PickValues(Schema(t), RowOf(t, k), names)
  {
    var p := ProjectTable(t, names);
    forall i | 0 <= i < |names|
      ensures ValueAt(p, i, k) == ValueAt(t, FieldIndex(Schema(t), names[i]), k)
    {
      assert HasField(Schema(t), names[i]);
    }
  }

  // ----- whole queries -----

  /** The first filter of the query meets a first column without chunks. */
  predicate FindsNoChunks(ops: seq<Op>, t: Table)
    requires WellTyped(ops, Schema(t))
    decreases |ops|
  {
    if ops == [] then false
    else
      match ops[0]
      case Select(names) =>
        SchemaOfProject(t, names);
        FindsNoChunks(ops[1..], ProjectTable(t, names))
      case Where(_) => NothingToFilter(t)
  }

  /** If only projections stand before the first filter, operation i, then it meets a first
      column without chunks exactly when the column is without chunks that its table begins
      with: the table's first one, or the one named first by the projection before it. */
  lemma {:induction false} FindsNoChunksWritten(ops: seq<Op>, t: Table, i: nat)
    requires WellTyped(ops, Schema(t))
    requires i < |ops| && ops[i].Where? && forall j | 0 <= j < i :: ops[j].Select?
    ensures i == 0 ==> |t.columns| > 0 && (FindsNoChunks(ops, t) <==> |t.columns[0].chunks| == 0)
    ensures i > 0 ==>
      && |ops[i - 1].fields| > 0 && HasField(Schema(t), ops[i - 1].fields[0])
      && (FindsNoChunks(ops, t) <==> |ColumnNamed(t, ops[i - 1].fields[0]).chunks| == 0)
    decreases |ops|
  {
    if i == 0 {
      SomeColumn(Schema(t), ops[0].expr);
    } else {
      var p := ProjectTable(t, ops[0].fields);
      SchemaOfProject(t, ops[0].fields);
      FindsNoChunksWritten(ops[1..], p, i - 1);
      if i == 1 {
        assert HasField(Schema(t), ops[0].fields[0]);
      } else {
        NamedInProject(t, ops[0].fields, ops[i - 1].fields[0]);
      }
    }
  }

  lemma NamedInProject(t: Table, names: seq<string>, name: string)
    requires Names(Schema(t), names) && HasField(Schema(ProjectTable(t, names)), name)
    ensures HasField(Schema(t), name) && ColumnNamed(ProjectTable(t, names), name) == ColumnNamed(t, name)
  {
    var i := FieldIndex(Schema(ProjectTable(t, names)), name);
    assert HasField(Schema(t), names[i]);
  }

  /** Without a filter none meets such a column. */
  lemma {:induction false} OnlyProjections(ops: seq<Op>, t: Table)
    requires WellTyped(ops, Schema(t)) && forall j | 0 <= j < |ops| :: ops[j].Select?
    ensures !FindsNoChunks(ops, t)
    decreases |ops|
  {
    if ops != [] {
      SchemaOfProject(t, ops[0].fields);
      OnlyProjections(ops[1..], ProjectTable(t, ops[0].fields));
    }
  }

  /** The columns that the first filter compares, where it stands, have safe layouts.
      Later filters meet columns that have been materialised. */
  predicate FirstSafe(ops: seq<Op>, t: Table)
    decreases |ops|
  {
    if ops == [] then true
    else
      match ops[0]
      case Select(names) => Names(Schema(t), names) && FirstSafe(ops[1..], ProjectTable(t, names))
      case Where(e) => NothingToFilter(t) || SafeFor(t, e)
  }

  /** The same for admissible layouts. */
  predicate FirstAdmissible(ops: seq<Op>, t: Table)
    decreases |ops|
  {
    if ops == [] then true
    else
      match ops[0]
      case Select(names) => Names(Schema(t), names) && FirstAdmissible(ops[1..], ProjectTable(t, names))
      case Where(e) => NothingToFilter(t) || AdmissibleFor(t, e)
  }

  lemma {:induction false} AllAdmissibleFirst(ops: seq<Op>, t: Table)
    requires Rectangular(t) && WellTyped(ops, Schema(t)) && AllAdmissible(t)
    ensures FirstAdmissible(ops, t)
    decreases |ops|
  {
    if ops != [] {
      match ops[0] {
        case Select(names) =>
          ProjectedTable(t, names);
          AllAdmissibleFirst(ops[1..], ProjectTable(t, names));
        case Where(e) => AllAdmissibleFor(t, e);
      }
    }
  }

  lemma {:induction false} FirstAdmissibleIsSafe(ops: seq<Op>, t: Table)
    requires FirstAdmissible(ops, t)
    ensures FirstSafe(ops, t)
    decreases |ops|
  {
    if ops != [] {
      match ops[0] {
        case Select(names) => FirstAdmissibleIsSafe(ops[1..], ProjectTable(t, names));
        case Where(e) =>
          if AdmissibleFor(t, e) {
            AdmissibleForIsSafe(t, e);
          }
      }
    }
  }

  lemma SchemaOfProject(t: Table, names: seq<string>)
    requires Names(Schema(t), names)
    ensures Schema(ProjectTable(t, names)) == PickFields(Schema(t), names)
  {
    var p := ProjectTable(t, names);
    forall i | 0 <= i < |names|
      ensures p.columns[i].field == PickFields(Schema(t), names)[i]
    {
      assert HasField(Schema(t), names[i]);
    }
  }

  lemma {:induction false} ChunksAreFound(ops: seq<Op>, t: Table)
    requires Rectangular(t) && WellTyped(ops, Schema(t)) && HasChunks(t)
    ensures !FindsNoChunks(ops, t)
    decreases |ops|
  {
    if ops != [] {
      match ops[0] {
        case Select(names) =>
          ProjectedTable(t, names);
          ChunksAreFound(ops[1..], ProjectTable(t, names));
        case Where(e) =>
          SomeColumn(Schema(t), e);
          assert t.columns[0].chunks != [];
      }
    }
  }

  /** Executing the plan of a query gives exactly the rows the query means, in order; it
      throws exactly when the first filter meets a first column without chunks. */
  lemma {:induction false} ExecutionIsMeaning(ops: seq<Op>, t: Table)
    requires Rectangular(t) && WellTyped(ops, Schema(t)) && FirstAdmissible(ops, t)
    ensures var o := Run(Lower(ops), Context(t, None));
      if FindsNoChunks(ops, t) then o == Thrown
      else
        && o.Done? && Rectangular(o.context.table) && (Typed(t) ==> Typed(o.context.table))
        && RelationOf(o.context.table) == Meaning(Narrowed, ops, RelationOf(t))
        && (Typed(t) && Exact(ops, Schema(t)) ==>
              RelationOf(o.context.table) == Meaning(Numeric, ops, RelationOf(t)))
    decreases |ops|
  {
    if ops != [] {
      var c := Context(t, None);
      RunAppend(LowerOp(ops[0]), Lower(ops[1..]), c);
      match ops[0] {
        case Select(names) =>
          ProjectStep(t, names);
          ExecutionIsMeaning(ops[1..], ProjectTable(t, names));
        case Where(e) =>
          FilterStep(t, e);
          if !NothingToFilter(t) {
            var next := Run(LowerOp(ops[0]), c).context.table;
            assert Run(LowerOp(ops[0]), c).context == Context(next, None);
            ChunksAreFound(ops[1..], next);
            AllAdmissibleFirst(ops[1..], next);
            ExecutionIsMeaning(ops[1..], next);
          }
      }
    }
    if Typed(t) && Exact(ops, Schema(t)) {
      QueryReadAsNumbers(ops, t);
    }
  }

  /** Joining two adjacent filters changes neither which literals are exact nor whether
      chunks are found; it can only add to the columns that the first filter compares. */
  lemma {:induction false} JoinedFilterChecks(before: seq<Op>, p: BooleanExpr, e: BooleanExpr,
                                              rest: seq<Op>, t: Table)
    requires WellTyped(before + [Where(p), Where(e)] + rest, Schema(t))
    requires WellTyped(before + [Where(p.And(e))] + rest, Schema(t))
    ensures var split, joined := before + [Where(p), Where(e)] + rest, before + [Where(p.And(e))] + rest;
      && Exact(joined, Schema(t)) == Exact(split, Schema(t))
      && FindsNoChunks(joined, t) == FindsNoChunks(split, t)
      && (FirstSafe(joined, t) ==> FirstSafe(split, t))
      && (FirstAdmissible(joined, t) ==> FirstAdmissible(split, t))
    decreases |before|
  {
    var split, joined := before + [Where(p), Where(e)] + rest, before + [Where(p.And(e))] + rest;
    if before == [] {
      assert split[1..] == [Where(e)] + rest && split[1..][1..] == rest && joined[1..] == rest;
    } else {
      assert split[1..] == before[1..] + [Where(p), Where(e)] + rest;
      assert joined[1..] == before[1..] + [Where(p.And(e))] + rest;
      match before[0] {
        case Select(names) =>
          SchemaOfProject(t, names);
          JoinedFilterChecks(before[1..], p, e, rest, ProjectTable(t, names));
        case Where(_) => JoinedFilterChecks(before[1..], p, e, rest, t);
      }
    }
  }

  lemma {:induction false} FuseKeepsChecks(below: seq<Op>, ops: seq<Op>, t: Table)
    requires Rectangular(t) && WellTyped(below + ops, Schema(t))
    ensures WellTyped(FuseOnto(below, ops), Schema(t))
    ensures Exact(FuseOnto(below, ops), Schema(t)) == Exact(below + ops, Schema(t))
    ensures FindsNoChunks(FuseOnto(below, ops), t) == FindsNoChunks(below + ops, t)
    ensures FirstSafe(FuseOnto(below, ops), t) ==> FirstSafe(below + ops, t)
    ensures FirstAdmissible(FuseOnto(below, ops), t) ==> FirstAdmissible(below + ops, t)
    decreases |ops|
  {
    if ops == [] {
      assert below + ops == below;
    } else {
      assert below + [ops[0]] + ops[1..] == below + ops;
      if FuseOp(below, ops[0]) != below + [ops[0]] {
        var last := |below| - 1;
        assert below[..last] + [below[last], ops[0]] + ops[1..] == below + ops;
        JoinedFilterMeans(Narrowed, below[..last], below[last].expr, ops[0].expr, ops[1..], RelationOf(t));
        JoinedFilterChecks(below[..last], below[last].expr, ops[0].expr, ops[1..], t);
      }
      FuseKeepsChecks(FuseOp(below, ops[0]), ops[1..], t);
    }
  }

  /** The plan that JoinFilterPass makes of a query's plan executes to what the query
      means as well, and throws in the same cases. */
  lemma OptimisedExecutionIsMeaning(ops: seq<Op>, t: Table)
    requires Rectangular(t) && WellTyped(ops, Schema(t)) && FirstAdmissible(Fuse(ops), t)
    ensures var o := Run(Rewrite(true, [], Lower(ops)), Context(t, None));
      if FindsNoChunks(ops, t) then o == Thrown
      else
        && o.Done? && Rectangular(o.context.table) && (Typed(t) ==> Typed(o.context.table))
        && RelationOf(o.context.table) == Meaning(Narrowed, ops, RelationOf(t))
        && (Typed(t) && Exact(ops, Schema(t)) ==>
              RelationOf(o.context.table) == Meaning(Numeric, ops, RelationOf(t)))
  {
    assert [] + ops == ops;
    JoinFiltersIsFuse([], ops);
    FuseKeepsChecks([], ops, t);
    FusePreservesMeaning(Narrowed, [], ops, RelationOf(t));
    FusePreservesMeaning(Numeric, [], ops, RelationOf(t));
    ExecutionIsMeaning(Fuse(ops), t);
  }

  /** The optimiser preserves meaning: executing the plan as built and as optimised either
      throws both times or gives the same fields and rows. */
  lemma OptimiserPreservesExecution(ops: seq<Op>, t: Table)
    requires Rectangular(t) && WellTyped(ops, Schema(t)) && FirstAdmissible(Fuse(ops), t)
    ensures var built := Run(Lower(ops), Context(t, None));
      var optimised := Run(Rewrite(true, [], Lower(ops)), Context(t, None));
      || (built == Thrown && optimised == Thrown)
      || (built.Done? && optimised.Done?
          && Rectangular(built.context.table) && Rectangular(optimised.context.table)
          && RelationOf(optimised.context.table) == RelationOf(built.context.table))
  {
    assert [] + ops == ops;
    FuseKeepsChecks([], ops, t);
    ExecutionIsMeaning(ops, t);
    OptimisedExecutionIsMeaning(ops, t);
  }

  // ----- composing filters on bitmaps -----

  /** Materialising by any bitmap, filtering what is left by e and materialising again
      gives the rows that one materialisation by the AND of that bitmap with the bitmap
      of e on the original table gives. */
  lemma {:induction false} FiltersCompose(t: Table, sel: seq<bool>, e: BooleanExpr)
    requires Rectangular(t) && t.columns != [] && |sel| == NumRows(t)
    requires Resolves(Schema(t), e) && AdmissibleFor(t, e)
    ensures var m := MaterialiseTable(t, sel);
      && Filterable(t, e) && Filterable(m, e) && Rectangular(m)
      && var both := BothSelect(sel, TreeBits(t, e)[..NumRows(t)]);
         var twice := MaterialiseTable(m, TreeBits(m, e)[..NumRows(m)]);
         && Rectangular(twice) && Rectangular(MaterialiseTable(t, both))
         && RelationOf(twice) == RelationOf(MaterialiseTable(t, both))
  {
    var m := MaterialiseTable(t, sel);
    MaterialisedTable(t, sel);
    AdmissibleForIsSafe(t, e);
    AllAdmissibleFor(m, e);
    AdmissibleForIsSafe(m, e);
    FilterableIff(t, e);
    FilterableIff(m, e);
    var rows, all, left := RelationOf(t).rows, TreeBits(t, e)[..NumRows(t)], TreeBits(m, e)[..NumRows(m)];
    CompactAt(all, sel);
    CompactAt(rows, sel);
    forall i | 0 <= i < NumRows(m)
      ensures left[i] == Compact(all, sel)[i]
    {
      BitmapExact(m, e, i);
      BitmapExact(t, e, Positions(sel)[i]);
      assert RelationOf(m).rows[i] == rows[Positions(sel)[i]];
    }
    assert left == Compact(all, sel);
    MaterialisedTable(m, left);
    MaterialisedTable(t, BothSelect(sel, all));
    CompactCompose(rows, sel, all);
  }

  /** The pass leaves plans of queries in normal form, and a second fresh pass changes
      nothing more. */
  lemma OptimiserNormalises(ops: seq<Op>)
    ensures var optimised := Rewrite(true, [], Lower(ops));
      && optimised == Lower(Fuse(ops)) && NormalSteps(optimised)
      && Rewrite(true, [], optimised) == optimised
      && forall i | 0 <= i < |optimised| && optimised[i].Filter? ::
           && (i > 0 ==> optimised[i - 1].Project?)
           && i + 1 < |optimised| && optimised[i + 1].Materialize?
  {
    JoinFiltersIsFuse([], ops);
    FuseIsFused([], ops);
    LowerFusedIsNormal(Fuse(ops));
    JoinFiltersIsFuse([], Fuse(ops));
    FuseIdempotent(ops);
  }

  // ----- plans that no query has -----

  predicate RowImplies(reading: Reading, fields: seq<Field>, row: Row, e: BooleanExpr, p: BooleanExpr)
    requires Resolves(fields, e) && Resolves(fields, p) && |row| == |fields|
  {
    RowSatisfies(reading, fields, row, e) ==> RowSatisfies(reading, fields, row, p)
  }

  /** Every row that satisfies e satisfies p. */
  predicate Implies(reading: Reading, rel: Relation, e: BooleanExpr, p: BooleanExpr)
    requires WellFormed(rel) && Resolves(rel.fields, e) && Resolves(rel.fields, p)
  {
    forall k | 0 <= k < |rel.rows| :: RowImplies(reading, rel.fields, rel.rows[k], e, p)
  }

  lemma {:induction false} StrongerFilterKeepsFewer(fields: seq<Field>, rows: seq<Row>, p: BooleanExpr, e: BooleanExpr)
    requires Resolves(fields, p) && Resolves(fields, e) && WellFormed(Relation(fields, rows))
    ensures |KeepRows(Narrowed, fields, rows, p.And(e))| <= |KeepRows(Narrowed, fields, rows, e)|
    ensures KeepRows(Narrowed, fields, rows, p.And(e)) == KeepRows(Narrowed, fields, rows, e)
       <==> Implies(Narrowed, Relation(fields, rows), e, p)
    ensures |KeepRows(Narrowed, fields, rows, p.And(e))| == |KeepRows(Narrowed, fields, rows, e)|
        ==> KeepRows(Narrowed, fields, rows, p.And(e)) == KeepRows(Narrowed, fields, rows, e)
    decreases |rows|
  {
    if rows != [] {
      var last := |rows| - 1;
      StrongerFilterKeepsFewer(fields, rows[..last], p, e);
    }
  }

  lemma JoinedFilterAgrees(t: Table, p: BooleanExpr, e: BooleanExpr)
    requires Rectangular(t) && Resolves(Schema(t), p) && Resolves(Schema(t), e)
    ensures Apply(Narrowed, Where(e), RelationOf(t)) == Apply(Narrowed, Where(p.And(e)), RelationOf(t))
       <==> Implies(Narrowed, RelationOf(t), e, p)
  {
    StrongerFilterKeepsFewer(Schema(t), RelationOf(t).rows, p, e);
  }

  lemma BareFiltersRun(t: Table, p: BooleanExpr, e: BooleanExpr)
    requires Rectangular(t) && !NothingToFilter(t) && SafeFor(t, p)
    ensures Run([Filter(p), Filter(e), Materialize], Context(t, None)) == Run(LowerOp(Where(e)), Context(t, None))
  {
    var bare := [Filter(p), Filter(e), Materialize];
    SafeForResolves(t, p);
    FilterableIff(t, p);
    assert Fits(t.columns[0].chunks, NumRows(t));
    assert bare[1..] == LowerOp(Where(e)) && LowerOp(Where(e))[0] == Filter(e);
  }

  lemma BareFiltersRewritten(p: BooleanExpr, e: BooleanExpr)
    ensures Rewrite(true, [], [Filter(p), Filter(e), Materialize]) == LowerOp(Where(p.And(e)))
  {
    RewriteOne(true, [], [Filter(p), Filter(e)], Materialize);
    RewriteOne(true, [], [Filter(p)], Filter(e));
    RewriteOne(true, [], [], Filter(p));
    assert [Filter(p), Filter(e), Materialize] == [Filter(p), Filter(e)] + [Materialize];
    assert [Filter(p), Filter(e)] == [Filter(p)] + [Filter(e)] && [] + [Filter(p)] == [Filter(p)];
  }

  lemma BareFiltersOutcome(t: Table, p: BooleanExpr, e: BooleanExpr)
    requires Rectangular(t) && !NothingToFilter(t)
    requires Resolves(Schema(t), p) && AdmissibleFor(t, p)
    requires Resolves(Schema(t), e) && AdmissibleFor(t, e)
    ensures var bare := [Filter(p), Filter(e), Materialize];
      var built, optimised := Run(bare, Context(t, None)), Run(Rewrite(true, [], bare), Context(t, None));
      && built.Done? && optimised.Done?
      && Rectangular(built.context.table) && Rectangular(optimised.context.table)
      && RelationOf(built.context.table) == Apply(Narrowed, Where(e), RelationOf(t))
      && RelationOf(optimised.context.table) == Apply(Narrowed, Where(p.And(e)), RelationOf(t))
  {
    AdmissibleForIsSafe(t, p);
    BareFiltersRun(t, p, e);
    BareFiltersRewritten(p, e);
    FilterStep(t, e);
    FilterStep(t, p.And(e));
  }

  /** A filter that stands directly on another replaces its bitmap when executed, while
      the pass joins the two.  On such a plan the pass preserves execution exactly when
      every row the upper filter keeps satisfies the lower one as well. */
  lemma {:induction false} BareFiltersAgreeIff(t: Table, p: BooleanExpr, e: BooleanExpr)
    requires Rectangular(t) && !NothingToFilter(t)
    requires Resolves(Schema(t), p) && AdmissibleFor(t, p)
    requires Resolves(Schema(t), e) && AdmissibleFor(t, e)
    ensures var bare := [Filter(p), Filter(e), Materialize];
      var built, optimised := Run(bare, Context(t, None)), Run(Rewrite(true, [], bare), Context(t, None));
      && built.Done? && optimised.Done?
      && Rectangular(built.context.table) && Rectangular(optimised.context.table)
      && (RelationOf(built.context.table) == RelationOf(optimised.context.table)
          <==> Implies(Narrowed, RelationOf(t), e, p))
  {
    BareFiltersOutcome(t, p, e);
    JoinedFilterAgrees(t, p, e);
  }

  /** The same condition as numbers. */
  lemma {:induction false} BareFiltersAsNumbers(t: Table, p: BooleanExpr, e: BooleanExpr)
    requires Sound(t) && Resolves(Schema(t), p) && Resolves(Schema(t), e)
    requires ExactIn(Schema(t), p) && ExactIn(Schema(t), e)
    ensures Implies(Narrowed, RelationOf(t), e, p) <==> Implies(Numeric, RelationOf(t), e, p)
  {
    forall k | 0 <= k < NumRows(t)
      ensures RowImplies(Narrowed, Schema(t), RowOf(t, k), e, p) == RowImplies(Numeric, Schema(t), RowOf(t, k), e, p)
    {
      ReadAsNumbers(t, e, k);
      ReadAsNumbers(t, p, k);
    }
  }
}
