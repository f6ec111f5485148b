/** Plan nodes (pefa/query_compiler/logical_plan.cpp): a chain of objects, each holding
    the node whose output it consumes. */
module LogicalPlans {
  import opened FixedWidth
  import opened Expressions
  import opened PlanSteps

  /** The three node classes of the source. */
  datatype Kind = ProjectionKind | FilterKind | MaterializeKind

  class LogicalPlan {
    const kind: Kind
    const input: LogicalPlan?
    const fields: seq<string>
    /** The filter's expression; the one field that is ever reassigned. */
    var expr: BooleanExpr
    /** This node and all below it. */
    ghost const chain: set<LogicalPlan>

    ghost predicate Valid()
      decreases chain
    {
      && this in chain
      && (input == null ==> chain == {this})
      && (input != null ==> this !in input.chain && chain == {this} + input.chain && input.Valid())
    }

    function OwnStep(): Step
      reads this
    {
      match kind
      case ProjectionKind => Project(fields)
      case FilterKind => Filter(expr)
      case MaterializeKind => Materialize
    }

    /** The plan as a list of steps, in order of execution. */
    ghost function Steps(): seq<Step>
      requires Valid()
      reads chain
      decreases chain, 0
    {
      StepsOf(input) + [OwnStep()]
    }

    constructor Projection(input: LogicalPlan?, fields: seq<string>)
      requires input != null ==> input.Valid()
      ensures Valid() && chain == {this} + ChainOf(input)
      ensures Steps() == StepsOf(input) + [Project(fields)]
    {
      this.kind := ProjectionKind;
      this.input := input;
      this.fields := fields;
      this.expr := Compare("", EQ, 0);
      this.chain := {this} + ChainOf(input);
    }

    constructor FilterNode(input: LogicalPlan?, expr: BooleanExpr)
      requires input != null ==> input.Valid()
      ensures Valid() && chain == {this} + ChainOf(input)
      ensures Steps() == StepsOf(input) + [Filter(expr)]
    {
      this.kind := FilterKind;
      this.input := input;
      this.fields := [];
      this.expr := expr;
      this.chain := {this} + ChainOf(input);
    }

    constructor MaterializeFilterNode(input: LogicalPlan?)
      requires input != null ==> input.Valid()
      ensures Valid() && chain == {this} + ChainOf(input)
      ensures Steps() == StepsOf(input) + [Materialize]
    {
      this.kind := MaterializeKind;
      this.input := input;
      this.fields := [];
      this.expr := Compare("", EQ, 0);
      this.chain := {this} + ChainOf(input);
    }
  }

  ghost function ChainOf(plan: LogicalPlan?): set<LogicalPlan> {
    if plan == null then {} else plan.chain
  }

  ghost function StepsOf(plan: LogicalPlan?): seq<Step>
    requires plan != null ==> plan.Valid()
    reads ChainOf(plan)
    decreases ChainOf(plan), 1
  {
    if plan == null then [] else plan.Steps()
  }
}
