/** Optimiser passes (pefa/query_compiler/lp_optimizer): plan visitors that rebuild a plan
    bottom-up, and the pass that joins filters by changing nodes it has just built. */
module PlanOptimizers {
  import opened Expressions
  import opened PlanSteps
  import opened LogicalPlans

  /** A new node like this one, on another input. */
  method CopyOnto(node: LogicalPlan, input: LogicalPlan?) returns (copy: LogicalPlan)
    requires input != null ==> input.Valid()
    ensures fresh(copy) && copy.Valid() && copy.chain == {copy} + ChainOf(input)
    ensures copy.Steps() == StepsOf(input) + [node.OwnStep()]
  {
    if node.kind == FilterKind {
      copy := new LogicalPlan.FilterNode(input, node.expr);
    } else if node.kind == ProjectionKind {
      copy := new LogicalPlan.Projection(input, node.fields);
    } else {
      copy := new LogicalPlan.MaterializeFilterNode(input);
    }
  }

  class OptimizerPass {
    /** Whether this is a JoinFilterPass or the rebuilding base class. */
    const joins: bool
    var result: LogicalPlan?
    /** The nodes this pass has built. */
    ghost var built: set<LogicalPlan>

    constructor (joins: bool)
      ensures this.joins == joins && Valid()
      ensures result == null && built == {}
    {
      this.joins := joins;
      result := null;
      built := {};
    }

    ghost predicate Valid()
      reads this
    {
      (result != null ==> result.Valid()) && ChainOf(result) <= built
    }

    /** Rebuilds the plan on top of whatever an earlier run has left in `result`.  Only
        nodes built by the pass itself are changed, so the input stays what it was. */
    method Execute(plan: LogicalPlan) returns (rewritten: LogicalPlan)
      requires Valid() && plan.Valid() && plan.chain !! built
      modifies this, built
      ensures Valid() && fresh(built - old(built))
      ensures result == rewritten && rewritten.Valid() && rewritten.chain <= built
      ensures rewritten.Steps() == Rewrite(joins, old(StepsOf(result)), old(plan.Steps()))
      ensures plan.Steps() == old(plan.Steps())
    {
      Visit(plan);
      rewritten := result;
    }

    method Visit(node: LogicalPlan)
      requires Valid() && node.Valid() && node.chain !! built
      modifies this, built
      ensures Valid() && fresh(built - old(built)) && result != null
      ensures StepsOf(result) == Rewrite(joins, old(StepsOf(result)), old(node.Steps()))
      ensures node.Steps() == old(node.Steps())
      decreases node.chain
    {
      ghost var below, steps := StepsOf(result), StepsOf(node.input);
      if node.input != null {
        Visit(node.input);
      }
      assert StepsOf(node.input) == steps;
      RewriteOne(joins, below, steps, node.OwnStep());
      OnVisit(node);
    }

    /** The base class's on_visit: a copy of the node on the result. */
    method Rebuild(node: LogicalPlan)
      requires Valid()
      modifies this
      ensures Valid() && fresh(built - old(built)) && result != null
      ensures StepsOf(result) == old(StepsOf(result)) + [old(node.OwnStep())]
    {
      result := CopyOnto(node, result);
      built := built + {result};
    }

    method OnVisit(node: LogicalPlan)
      requires Valid() && node.Valid() && node.chain !! built
      modifies this, built
      ensures Valid() && fresh(built - old(built)) && result != null
      ensures StepsOf(result) == RewriteStep(joins, old(StepsOf(result)), old(node.OwnStep()))
    {
      if node.kind == FilterKind && joins {
        OnVisitJoin(node.expr);
      } else {
        Rebuild(node);
      }
    }

    /** JoinFilterPass::on_visit for a filter node with the given expression. */
    method OnVisitJoin(e: BooleanExpr)
      requires Valid()
      modifies this, built
      ensures Valid() && fresh(built - old(built)) && result != null
      ensures StepsOf(result) == JoinFilter(old(StepsOf(result)), e)
      ensures old(result) != null && old(result).kind == FilterKind ==>
        result == old(result) && result.expr == Predicate(old(result.expr), e, AND)
      decreases ChainOf(result)
    {
      if result != null && result.kind == FilterKind {
        var prev := result;
        ghost var below, p := StepsOf(prev.input), prev.expr;
        assert StepsOf(result) == below + [Filter(p)];
        prev.expr := prev.expr.And(e);
        assert StepsOf(prev.input) == below;
        assert prev.Steps() == below + [Filter(p.And(e))];
      } else if result != null && result.kind == MaterializeKind {
        result := result.input;
        OnVisitJoin(e);
      } else {
        result := new LogicalPlan.FilterNode(result, e);
        built := built + {result};
      }
    }
  }

  /** The effect of passes run one after the other. */
  ghost function RewriteAll(passes: seq<OptimizerPass>, steps: seq<Step>): seq<Step> {
    if passes == [] then steps
    else Rewrite(passes[|passes| - 1].joins, [], RewriteAll(passes[..|passes| - 1], steps))
  }

  lemma RewriteAllNext(passes: seq<OptimizerPass>, i: nat, steps: seq<Step>)
    requires i < |passes|
    ensures RewriteAll(passes[..i + 1], steps) == Rewrite(passes[i].joins, [], RewriteAll(passes[..i], steps))
  {
    assert passes[..i + 1][..i] == passes[..i];
  }

  class PlanOptimizer {
    var passes: seq<OptimizerPass>

    constructor ()
      ensures passes == []
    {
      passes := [];
    }

    method AddPass(pass: OptimizerPass)
      modifies this
      ensures passes == old(passes) + [pass]
    {
      passes := passes + [pass];
    }

    /** No pass has run yet, and no pass is held twice. */
    ghost predicate Ready()
      reads this, passes
    {
      && (forall i | 0 <= i < |passes| :: passes[i].result == null && passes[i].built == {})
      && (forall i, j | 0 <= i < j < |passes| :: passes[i] != passes[j])
    }

    /** Runs the passes in order; the plan given and all plans sharing its nodes stay
        what they were. */
    method Optimize(plan: LogicalPlan) returns (res: LogicalPlan)
      requires Ready() && plan.Valid()
      modifies passes
      ensures res.Valid() && res.Steps() == RewriteAll(passes, old(plan.Steps()))
      ensures passes != [] ==> fresh(res.chain)
      ensures plan.Steps() == old(plan.Steps())
    {
      ghost var steps := plan.Steps();
      res := plan;
      var i := 0;
      while i < |passes|
        invariant 0 <= i <= |passes|
        invariant forall j | i <= j < |passes| :: passes[j].result == null && passes[j].built == {}
        invariant res.Valid() && res.Steps() == RewriteAll(passes[..i], steps)
        invariant if i == 0 then res == plan else fresh(res.chain)
        invariant plan.Steps() == steps
      {
        RewriteAllNext(passes, i, steps);
        res := passes[i].Execute(res);
        i := i + 1;
      }
      assert passes[..i] == passes;
    }
  }
}
