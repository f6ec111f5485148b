/** pefa/execution/execution.cpp: the expression executor, which joins bitmaps in place,
    and the three operations on execution contexts. */
module Execution {
  import opened Wrappers
  import opened FixedWidth
  import opened Expressions
  import opened Bitmaps
  import opened Tables
  import opened FilterKernels
  import opened FilterExecution
  import opened Materialization
  import opened PlanSteps

  // ----- joining bitmaps -----

  function JoinByte(op: PredicateOp, a: bv8, b: bv8): bv8 {
    if op == AND then a & b else a | b
  }

  lemma BitOfJoin(op: PredicateOp, a: bv8, b: bv8, k: nat)
    requires k < 8
    ensures Bit(JoinByte(op, a, b), k) == Join(op, Bit(a, k), Bit(b, k))
  {
    BitOfAnd(a, b, k);
    BitOfOr(a, b, k);
  }

  lemma BitsOfJoin(op: PredicateOp, a: seq<bv8>, b: seq<bv8>, joined: seq<bv8>)
    requires |a| == |b| == |joined|
    requires forall i | 0 <= i < |a| :: joined[i] == JoinByte(op, a[i], b[i])
    ensures Bits(joined) == JoinBits(op, Bits(a), Bits(b))
  {
    forall k | 0 <= k < 8 * |a|
      ensures Bits(joined)[k] == JoinBits(op, Bits(a), Bits(b))[k]
    {
      BitOfJoin(op, a[k / 8], b[k / 8], k % 8);
    }
  }

  /** lhs[i] &= rhs[i], or |=, for all bytes. */
  method JoinInPlace(op: PredicateOp, lhs: array<bv8>, rhs: array<bv8>)
    requires lhs != rhs && lhs.Length == rhs.Length < 0x8000_0000
    modifies lhs
    ensures op == AND ==> forall i | 0 <= i < lhs.Length :: lhs[i] == old(lhs[i]) & old(rhs[i])
    ensures op == OR ==> forall i | 0 <= i < lhs.Length :: lhs[i] == old(lhs[i]) | old(rhs[i])
    ensures Bits(lhs[..]) == JoinBits(op, old(Bits(lhs[..])), old(Bits(rhs[..])))
  {
    ghost var a, b := lhs[..], rhs[..];
    var i: CInt := 0;
    if op == AND {
      while i < lhs.Length
        invariant 0 <= i <= lhs.Length && rhs[..] == b
        invariant forall k | 0 <= k < i :: lhs[k] == JoinByte(op, a[k], b[k])
        invariant forall k | i <= k < lhs.Length :: lhs[k] == a[k]
      {
        lhs[i] := lhs[i] & rhs[i];
        i := i + 1;
      }
    } else {
      while i < lhs.Length
        invariant 0 <= i <= lhs.Length && rhs[..] == b
        invariant forall k | 0 <= k < i :: lhs[k] == JoinByte(op, a[k], b[k])
        invariant forall k | i <= k < lhs.Length :: lhs[k] == a[k]
      {
        lhs[i] := lhs[i] | rhs[i];
        i := i + 1;
      }
    }
    BitsOfJoin(op, a, b, lhs[..]);
  }

  // ----- one kernel -----

  /** Compiles an expression over one column and runs both passes with it.  For a compound
      expression this gives the bitmap that the executor gets by joining those of its
      comparisons. */
  method FilterByKernel(table: Table, name: string, e: BooleanExpr) returns (buffer: array<bv8>)
    requires OverColumn(e, name) && Filterable(table, e)
    ensures fresh(buffer) && buffer.Length == BytesFor(NumRows(table))
    ensures Bits(buffer[..]) == TreeBits(table, e)
  {
    OneColumnFilterable(table, e, name);
    RoutesAgree(table, e, name);
    var column := ColumnNamed(table, name);
    var kernel := new FilterKernel.CreateCpu(name, column.field.t, e);
    kernel.Compile();
    PredicateRows(kernel.matches, e, column.field.t, Flatten(column.chunks));
    buffer := FilterColumn(kernel, column.chunks, NumRows(table));
  }

  // ----- the expression executor -----

  class FilterExprExecutor {
    const table: Table
    var buffer: array?<bv8>

    constructor (table: Table)
      ensures this.table == table && buffer == null
    {
      this.table := table;
      buffer := null;
    }

    /** Leaves the bitmap of the expression in a fresh buffer.  No existing object but
        this field changes; in particular not the buffer a previous visit left. */
    method Visit(e: BooleanExpr)
      requires Filterable(table, e) && NumRows(table) < 0x8000_0000
      modifies `buffer
      ensures buffer != null && fresh(buffer) && buffer.Length == BytesFor(NumRows(table))
      ensures NumRows(table) <= 8 * buffer.Length < NumRows(table) + 8
      ensures Bits(buffer[..]) == TreeBits(table, e)
      decreases e, 1
    {
      BytesForBounds(NumRows(table));
      match e {
        case Compare(_, _, _) => VisitCompare(e);
        case Predicate(_, _, _) => VisitPredicate(e);
      }
    }

    method VisitPredicate(e: BooleanExpr)
      requires e.Predicate?
      requires Filterable(table, e) && NumRows(table) < 0x8000_0000
      modifies `buffer
      ensures buffer != null && fresh(buffer) && buffer.Length == BytesFor(NumRows(table))
      ensures Bits(buffer[..]) == TreeBits(table, e)
      decreases e, 0
    {
      Visit(e.lhs);
      var lhsBuf := buffer;
      ghost var lhsBytes := lhsBuf[..];
      Visit(e.rhs);
      var rhsBuf := buffer;
      assert lhsBuf[..] == lhsBytes;
      JoinInPlace(e.pop, lhsBuf, rhsBuf);
      buffer := lhsBuf;
    }

    method VisitCompare(e: BooleanExpr)
      requires e.Compare?
      requires Filterable(table, e)
      modifies `buffer
      ensures buffer != null && fresh(buffer) && buffer.Length == BytesFor(NumRows(table))
      ensures Bits(buffer[..]) == TreeBits(table, e)
      decreases e, 0
    {
      buffer := FilterByKernel(table, e.column, e);
    }
  }

  // ----- execution contexts -----

  class ExecutionContext {
    const table: Table
    var filterBitmap: array?<bv8>

    constructor (table: Table)
      ensures this.table == table && filterBitmap == null
    {
      this.table := table;
      filterBitmap := null;
    }

    /** The context as a value. */
    ghost function View(): Context
      reads this, filterBitmap
    {
      Context(table, if filterBitmap == null then None else Some(Bits(filterBitmap[..])))
    }
  }

  /** A context for the named columns; a filter bitmap is not carried over. */
  method ProjectContext(ctx: ExecutionContext, names: seq<string>) returns (res: ExecutionContext)
    requires RunStep(Project(names), ctx.View()).Done?
    ensures fresh(res) && res.filterBitmap == null
    ensures Done(res.View()) == RunStep(Project(names), ctx.View())
    ensures |res.table.columns| == |names|
    ensures forall i | 0 <= i < |names| ::
      res.table.columns[i].field.name == names[i] && res.table.columns[i] in ctx.table.columns
  {
    var columns: seq<Column> := [];
    var i: CInt := 0;
    while i < |names|
      invariant 0 <= i <= |names|
      invariant columns == ProjectTable(ctx.table, names).columns[..i]
      invariant forall j | 0 <= j < i :: columns[j].field.name == names[j] && columns[j] in ctx.table.columns
    {
      columns := columns + [ColumnNamed(ctx.table, names[i])];
      i := i + 1;
    }
    res := new ExecutionContext(Table(columns));
  }

  /** A context with the bitmap of the expression; an earlier bitmap is not carried over. */
  method GenerateFilterBitmap(ctx: ExecutionContext, e: BooleanExpr) returns (res: ExecutionContext)
    requires RunStep(Filter(e), ctx.View()).Done?
    ensures fresh(res) && (res.filterBitmap != null ==> fresh(res.filterBitmap))
    ensures Done(res.View()) == RunStep(Filter(e), ctx.View())
    ensures res.table == ctx.table
    ensures res.filterBitmap == null <==> |ctx.table.columns| == 0 || |ctx.table.columns[0].chunks| == 0
    ensures res.filterBitmap != null ==>
      NumRows(ctx.table) <= 8 * res.filterBitmap.Length < NumRows(ctx.table) + 8
  {
    if |ctx.table.columns| == 0 || |ctx.table.columns[0].chunks| == 0 {
      res := new ExecutionContext(ctx.table);
      return;
    }
    var executor := new FilterExprExecutor(ctx.table);
    executor.Visit(e);
    res := new ExecutionContext(ctx.table);
    res.filterBitmap := executor.buffer;
  }

  /** A context with every column materialised by the filter bitmap, or an exception if
      there is none. */
  method MaterializeFilter(ctx: ExecutionContext) returns (res: Option<ExecutionContext>)
    requires !RunStep(Materialize, ctx.View()).Undefined?
    ensures res.None? <==> ctx.filterBitmap == null
    ensures res.None? <==> RunStep(Materialize, ctx.View()).Thrown?
    ensures res.Some? ==> fresh(res.value) && res.value.filterBitmap == null
    ensures res.Some? ==> Done(res.value.View()) == RunStep(Materialize, ctx.View())
  {
    if ctx.filterBitmap == null {
      return None;
    }
    var bitmap := ctx.filterBitmap;
    ghost var sel := Bits(bitmap[..])[..NumRows(ctx.table)];
    var columns: seq<Column> := [];
    var colNum := 0;
    while colNum < |ctx.table.columns|
      invariant 0 <= colNum <= |ctx.table.columns|
      invariant columns == MaterialiseTable(ctx.table, sel).columns[..colNum]
      invariant Bits(bitmap[..])[..NumRows(ctx.table)] == sel
    {
      var column := ctx.table.columns[colNum];
      var chunks := MaterializeColumn(column.chunks, bitmap);
      columns := columns + [column.(chunks := chunks)];
      colNum := colNum + 1;
    }
    var made := new ExecutionContext(Table(columns));
    return Some(made);
  }
}
