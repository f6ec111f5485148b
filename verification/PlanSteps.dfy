/** What the steps of a plan do to an execution context, as values.  A plan is a list of
    steps, the one executed first at the front. */
module PlanSteps {
  import opened Wrappers
  import opened Expressions
  import opened Tables
  import opened Compaction
  import opened FilterExecution

  datatype Step = Project(fields: seq<string>) | Filter(expr: BooleanExpr) | Materialize

  /** A table, and the bits of its filter bitmap if one has been generated. */
  datatype Context = Context(table: Table, bitmap: Option<seq<bool>>)

  /** Execution goes through, throws UnreachableException, or does something the program
      gives no meaning to: a null column, a wrapped length, an access out of bounds. */
  datatype Outcome = Done(context: Context) | Thrown | Undefined

  function ProjectTable(t: Table, names: seq<string>): Table
    requires forall i | 0 <= i < |names| :: HasField(Schema(t), names[i])
  {
    Table(seq(|names|, i requires 0 <= i < |names| => ColumnNamed(t, names[i])))
  }

  /** Every column is as long as the table and small enough for the cursors. */
  predicate Rectangular(t: Table) {
    forall i | 0 <= i < |t.columns| :: Fits(t.columns[i].chunks, NumRows(t))
  }

  function MaterialiseColumn(c: Column, sel: seq<bool>): Column
    requires |Flatten(c.chunks)| == |sel|
  {
    c.(chunks := Materialised(Flatten(c.chunks), sel))
  }

  function MaterialiseTable(t: Table, sel: seq<bool>): Table
    requires Rectangular(t) && |sel| == NumRows(t)
  {
    Table(seq(|t.columns|, i requires 0 <= i < |t.columns| => MaterialiseColumn(t.columns[i], sel)))
  }

  /** The filter does nothing on a table without columns or chunks. */
  predicate NothingToFilter(t: Table) {
    t.columns == [] || t.columns[0].chunks == []
  }

  function RunStep(s: Step, c: Context): Outcome {
    match s
    case Project(names) =>
      if |names| < 0x8000_0000 && forall i | 0 <= i < |names| :: HasField(Schema(c.table), names[i])
      then Done(Context(ProjectTable(c.table, names), None))
      else Undefined
    case Filter(e) =>
      if NothingToFilter(c.table) then Done(Context(c.table, None))
      else if NumRows(c.table) < 0x8000_0000 && Filterable(c.table, e)
      then Done(Context(c.table, Some(TreeBits(c.table, e))))
      else Undefined
    case Materialize =>
      if c.bitmap.None? then Thrown
      else if Rectangular(c.table) && NumRows(c.table) <= |c.bitmap.value|
      then Done(Context(MaterialiseTable(c.table, c.bitmap.value[..NumRows(c.table)]), None))
      else Undefined
  }

  function Run(steps: seq<Step>, c: Context): Outcome {
    if steps == [] then Done(c)
    else
      match RunStep(steps[0], c)
      case Done(next) => Run(steps[1..], next)
      case Thrown => Thrown
      case Undefined => Undefined
  }

  /** Going on with more steps after an outcome. */
  function Continue(o: Outcome, steps: seq<Step>): Outcome {
    match o
    case Done(c) => Run(steps, c)
    case Thrown => Thrown
    case Undefined => Undefined
  }

  lemma {:induction false} RunAppend(a: seq<Step>, b: seq<Step>, c: Context)
    ensures Run(a + b, c) == Continue(Run(a, c), b)
  {
    if a == [] {
      assert a + b == b;
    } else {
      assert (a + b)[1..] == a[1..] + b;
      if RunStep(a[0], c).Done? {
        RunAppend(a[1..], b, RunStep(a[0], c).context);
      }
    }
  }

  // ----- what the optimiser does, on lists of steps -----

  /** JoinFilterPass on a filter: joined with a filter just below, also when a
      materialisation separates them; that materialisation is dropped. */
  function JoinFilter(below: seq<Step>, e: BooleanExpr): seq<Step> {
    if below == [] then [Filter(e)]
    else
      var last := |below| - 1;
      match below[last]
      case Filter(p) => below[..last] + [Filter(p.And(e))]
      case Materialize => JoinFilter(below[..last], e)
      case Project(_) => below + [Filter(e)]
  }

  /** The joined expression: the lower filter's first. */
  lemma JoinFilterWritten(below: seq<Step>, p: BooleanExpr, e: BooleanExpr)
    ensures JoinFilter(below + [Filter(p)], e) == below + [Filter(Predicate(p, e, AND))]
    ensures JoinFilter(below + [Filter(p)] + [Materialize], e) == below + [Filter(Predicate(p, e, AND))]
  {
    assert (below + [Filter(p)])[..|below|] == below;
    assert (below + [Filter(p)] + [Materialize])[..|below| + 1] == below + [Filter(p)];
  }

  /** A pass either joins filters or, like its base class, rebuilds every node. */
  function RewriteStep(joins: bool, below: seq<Step>, s: Step): seq<Step> {
    if joins && s.Filter? then JoinFilter(below, s.expr) else below + [s]
  }

  function Rewrite(joins: bool, below: seq<Step>, steps: seq<Step>): seq<Step>
    decreases |steps|
  {
    if steps == [] then below
    else Rewrite(joins, RewriteStep(joins, below, steps[0]), steps[1..])
  }

  lemma {:induction false} RewriteAppend(joins: bool, below: seq<Step>, a: seq<Step>, b: seq<Step>)
    ensures Rewrite(joins, below, a + b) == Rewrite(joins, Rewrite(joins, below, a), b)
    decreases |a|
  {
    if a == [] {
      assert a + b == b;
    } else {
      assert (a + b)[1..] == a[1..] + b;
      RewriteAppend(joins, RewriteStep(joins, below, a[0]), a[1..], b);
    }
  }

  lemma RewriteOne(joins: bool, below: seq<Step>, a: seq<Step>, s: Step)
    ensures Rewrite(joins, below, a + [s]) == RewriteStep(joins, Rewrite(joins, below, a), s)
  {
    RewriteAppend(joins, below, a, [s]);
  }
}
