/** pefa/query_compiler/query_compiler.cpp: queries are built by chaining operations and
    run by optimising the plan and visiting it with an execution context. */
module QueryCompilers {
  import opened Wrappers
  import opened Expressions
  import opened Tables
  import opened FilterExecution
  import opened PlanSteps
  import opened Queries
  import opened Correctness
  import opened SafeLayouts
  import opened LogicalPlans
  import opened PlanOptimizers
  import opened Execution

  class ExecutePlanVisitor {
    var ctx: ExecutionContext

    constructor (ctx: ExecutionContext)
      ensures this.ctx == ctx
    {
      this.ctx := ctx;
    }

    /** Executes a plan bottom-up.  A false result stands for UnreachableException having
        been thrown on the way. */
    method Visit(node: LogicalPlan) returns (ok: bool)
      requires node.Valid() && !Run(node.Steps(), ctx.View()).Undefined?
      modifies this
      ensures ok <==> Run(old(node.Steps()), old(ctx.View())).Done?
      ensures ok ==> Done(ctx.View()) == Run(old(node.Steps()), old(ctx.View()))
      decreases node.chain
    {
      ghost var below, start := StepsOf(node.input), ctx.View();
      RunAppend(below, [node.OwnStep()], start);
      if node.input != null {
        ok := Visit(node.input);
        if !ok {
          return;
        }
      }
      RunOne(node.OwnStep(), ctx.View());
      ok := OnVisit(node);
    }

    method OnVisit(node: LogicalPlan) returns (ok: bool)
      requires !RunStep(node.OwnStep(), ctx.View()).Undefined?
      modifies this
      ensures ok <==> RunStep(old(node.OwnStep()), old(ctx.View())).Done?
      ensures ok ==> Done(ctx.View()) == RunStep(old(node.OwnStep()), old(ctx.View()))
    {
      ok := true;
      if node.kind == ProjectionKind {
        ctx := ProjectContext(ctx, node.fields);
      } else if node.kind == FilterKind {
        ctx := GenerateFilterBitmap(ctx, node.expr);
      } else {
        var made := MaterializeFilter(ctx);
        match made {
          case Some(c) => ctx := c;
          case None => ok := false;
        }
      }
    }
  }

  class QueryCompiler {
    const plan: LogicalPlan?
    /** The operations chained so far. */
    ghost const ops: seq<Op>

    /** The plan is the one these operations are lowered to. */
    ghost predicate Valid()
      reads ChainOf(plan)
    {
      && (plan == null ==> ops == [])
      && (plan != null ==> plan.Valid() && plan.Steps() == Lower(ops))
    }

    constructor ()
      ensures Valid() && ops == [] && plan == null
    {
      plan := null;
      ops := [];
    }

    constructor FromPlan(plan: LogicalPlan, ghost ops: seq<Op>)
      requires plan.Valid() && plan.Steps() == Lower(ops)
      ensures Valid() && this.ops == ops && this.plan == plan
    {
      this.plan := plan;
      this.ops := ops;
    }

    /** Chains a projection; this query stays what it is. */
    method Project(columns: seq<string>) returns (q: QueryCompiler)
      requires Valid()
      ensures fresh(q) && q.Valid() && q.ops == ops + [Select(columns)]
    {
      LowerOne(ops, Select(columns));
      var node := new LogicalPlan.Projection(plan, columns);
      q := new QueryCompiler.FromPlan(node, ops + [Select(columns)]);
    }

    /** Chains a filter and its materialisation; this query stays what it is. */
    method Filter(expr: BooleanExpr) returns (q: QueryCompiler)
      requires Valid()
      ensures fresh(q) && q.Valid() && q.ops == ops + [Where(expr)]
    {
      LowerOne(ops, Where(expr));
      var filter := new LogicalPlan.FilterNode(plan, expr);
      var node := new LogicalPlan.MaterializeFilterNode(filter);
      q := new QueryCompiler.FromPlan(node, ops + [Where(expr)]);
    }

    /** Optimises the plan and executes it; no result stands for UnreachableException.
        - It is thrown exactly when the first filter meets a first column without chunks.
        - The result is exactly what Given says: the first run of filters keeps the rows that
          match, and those that a comparison skips for the layout of its column.
        - No row the query means is lost, as long as the columns which the first run of
          filters compares have layouts the kernels can handle.
        - If those layouts are admissible, the result holds exactly the rows the query means.
        A literal means what is left of it in the width of its column; that is the number
        itself where it can be compared exactly.  The query's own plan is not changed. */
    method Execute(table: Table) returns (result: Option<Table>)
      requires Valid() && plan != null
      requires Rectangular(table) && WellTyped(ops, Schema(table)) && FirstSafe(Fuse(ops), table)
      ensures Valid()
      ensures result.None? <==> FindsNoChunks(ops, table)
      ensures ops != [] && ops[0].Where? ==>
        |table.columns| > 0 && (result.None? <==> |table.columns[0].chunks| == 0)
      ensures result.Some? ==>
        && Rectangular(result.value)
        && WellTyped(Fuse(ops), Schema(table)) && RelationOf(result.value) == Given(Fuse(ops), table)
        && Schema(result.value) == Meaning(Narrowed, ops, RelationOf(table)).fields
        && Among(Meaning(Narrowed, ops, RelationOf(table)).rows, RelationOf(result.value).rows)
      ensures result.Some? && ops != [] && ops[|ops| - 1].Select? ==>
        && |result.value.columns| == |ops[|ops| - 1].fields|
        && forall i | 0 <= i < |result.value.columns| ::
             result.value.columns[i].field.name == ops[|ops| - 1].fields[i]
      ensures result.Some? && FirstAdmissible(Fuse(ops), table) ==>
        RelationOf(result.value) == Meaning(Narrowed, ops, RelationOf(table))
      ensures Typed(table) && Exact(ops, Schema(table)) ==>
        Meaning(Narrowed, ops, RelationOf(table)) == Meaning(Numeric, ops, RelationOf(table))
    {
      ExecutionDelivers(ops, table);
      ExecutionWritten(ops, table);
      var optimised := Optimise();
      result := RunPlan(optimised, table);
    }

    /** Visits a plan with a fresh context for the table. */
    static method RunPlan(plan: LogicalPlan, table: Table) returns (result: Option<Table>)
      requires plan.Valid() && !Run(plan.Steps(), Context(table, None)).Undefined?
      ensures var o := Run(plan.Steps(), Context(table, None));
        if result.None? then o.Thrown? else o.Done? && result.value == o.context.table
    {
      ghost var steps := plan.Steps();
      var ctx := new ExecutionContext(table);
      var visitor := new ExecutePlanVisitor(ctx);
      var ok := visitor.Visit(plan);
      if !ok {
        return None;
      }
      assert Done(visitor.ctx.View()) == Run(steps, Context(table, None));
      return Some(visitor.ctx.table);
    }

    /** The plan after one fresh JoinFilterPass, on new nodes. */
    method Optimise() returns (optimised: LogicalPlan)
      requires Valid() && plan != null
      ensures Valid() && optimised.Valid() && fresh(optimised.chain)
      ensures optimised.Steps() == Rewrite(true, [], Lower(ops))
    {
      var pass := new OptimizerPass(true);
      var optimizer := new PlanOptimizer();
      optimizer.AddPass(pass);
      optimised := optimizer.Optimize(plan);
      assert optimizer.passes == [pass] && RewriteAll([], Lower(ops)) == Lower(ops);
    }
  }
}
