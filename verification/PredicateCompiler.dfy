/** The predicate compiler of pefa/kernels/filter.cpp: an expression visitor that
    appends straight-line instructions to a builder. */
module PredicateCompiler {
  import opened Wrappers
  import opened FixedWidth
  import opened Expressions

  // ----- the instruction list and its meaning -----

  /** A constant, the predicate function's argument, or an earlier instruction. */
  datatype Operand = Input | Const(bits: nat) | Reg(index: nat)

  datatype Instr =
    | CmpInstr(cond: Icmp, a: Operand, b: Operand)
    | AndInstr(a: Operand, b: Operand)
    | OrInstr(a: Operand, b: Operand)

  /** A run-time value: a word of the column's width, or a single bit. */
  datatype Val = Word(bits: nat) | Truth(b: bool)

  function OperandVal(vals: seq<Val>, o: Operand, input: nat): Val {
    match o
    case Input => Word(input)
    case Const(bits) => Word(bits)
    case Reg(i) => if i < |vals| then vals[i] else Word(0)
  }

  function BitsOf(v: Val): nat {
    match v
    case Word(bits) => bits
    case Truth(b) => if b then 1 else 0
  }

  function InstrVal(t: DataType, i: Instr, vals: seq<Val>, input: nat): Val {
    var a := BitsOf(OperandVal(vals, i.a, input));
    var b := BitsOf(OperandVal(vals, i.b, input));
    match i
    case CmpInstr(cond, _, _) => Truth(EvalIcmp(cond, t, a, b))
    case AndInstr(_, _) => Truth(a == 1 && b == 1)
    case OrInstr(_, _) => Truth(a == 1 || b == 1)
  }

  /** The values of all instructions, in order, when the argument holds `input`. */
  function Run(t: DataType, code: seq<Instr>, input: nat): (vals: seq<Val>)
    ensures |vals| == |code|
  {
    if code == [] then []
    else
      var before := Run(t, code[..|code| - 1], input);
      before + [InstrVal(t, code[|code| - 1], before, input)]
  }

  /** The value of an operand after the whole list ran. */
  function Evaluate(t: DataType, code: seq<Instr>, o: Operand, input: nat): Val {
    OperandVal(Run(t, code, input), o, input)
  }

  predicate Defined(code: seq<Instr>, o: Operand) {
    o.Reg? ==> o.index < |code|
  }

  /** Appending instructions never changes the values of those already emitted. */
  lemma {:induction false} EmissionKeepsValues(t: DataType, code: seq<Instr>, more: seq<Instr>, input: nat)
    ensures Run(t, code, input) <= Run(t, code + more, input)
  {
    if more == [] {
      assert code + more == code;
    } else {
      var last := |more| - 1;
      EmissionKeepsValues(t, code, more[..last], input);
      assert (code + more)[..|code + more| - 1] == code + more[..last];
    }
  }

  lemma EmissionKeepsOperand(t: DataType, code: seq<Instr>, longer: seq<Instr>, o: Operand, input: nat)
    requires code <= longer && Defined(code, o)
    ensures Evaluate(t, longer, o, input) == Evaluate(t, code, o, input)
  {
    EmissionKeepsValues(t, code, longer[|code|..], input);
    assert code + longer[|code|..] == longer;
  }

  /** What the joining instructions make of the truth values of their operands. */
  lemma JoinInstructions(t: DataType, a: Operand, b: Operand, vals: seq<Val>, input: nat, x: bool, y: bool)
    requires OperandVal(vals, a, input) == Truth(x) && OperandVal(vals, b, input) == Truth(y)
    ensures InstrVal(t, AndInstr(a, b), vals, input) == Truth(x && y)
    ensures InstrVal(t, OrInstr(a, b), vals, input) == Truth(x || y)
  {
  }

  // ----- the builder and the visitor -----

  /** llvm::IRBuilder, as far as the compiler uses it: instructions are appended. */
  class IRBuilder {
    var code: seq<Instr>

    constructor ()
      ensures code == []
    {
      code := [];
    }

    method Emit(i: Instr) returns (r: Operand)
      modifies this
      ensures code == old(code) + [i] && r == Reg(|old(code)|)
    {
      r := Reg(|code|);
      code := code + [i];
    }
  }

  /** The operand holds the truth value of e, whatever the argument. */
  ghost predicate Computes(t: DataType, code: seq<Instr>, o: Operand, e: BooleanExpr) {
    && Defined(code, o)
    && forall x: nat {:trigger Evaluate(t, code, o, x)} :: Evaluate(t, code, o, x) == Truth(MatchesPattern(e, t, x))
  }

  lemma ComputesKept(t: DataType, code: seq<Instr>, longer: seq<Instr>, o: Operand, e: BooleanExpr)
    requires code <= longer && Computes(t, code, o, e)
    ensures Computes(t, longer, o, e)
  {
    forall x: nat
      ensures Evaluate(t, longer, o, x) == Truth(MatchesPattern(e, t, x))
    {
      EmissionKeepsOperand(t, code, longer, o, x);
      assert Evaluate(t, code, o, x) == Truth(MatchesPattern(e, t, x));
    }
  }

  lemma CompareComputed(t: DataType, code: seq<Instr>, e: BooleanExpr)
    requires e.Compare?
    ensures var i := CmpInstr(CreateCmp(t, e.op), Input, Const(ArrowTypedConst(t, e.literal)));
      Computes(t, code + [i], Reg(|code|), e)
  {
    var i := CmpInstr(CreateCmp(t, e.op), Input, Const(ArrowTypedConst(t, e.literal)));
    forall x: nat
      ensures Evaluate(t, code + [i], Reg(|code|), x) == Truth(MatchesPattern(e, t, x))
    {
      assert (code + [i])[..|code|] == code;
    }
  }

  lemma JoinComputed(t: DataType, code: seq<Instr>, l: Operand, r: Operand, e: BooleanExpr)
    requires e.Predicate? && Computes(t, code, l, e.lhs) && Computes(t, code, r, e.rhs)
    ensures var i := if e.pop == OR then OrInstr(l, r) else AndInstr(l, r);
      Computes(t, code + [i], Reg(|code|), e)
  {
    var i := if e.pop == OR then OrInstr(l, r) else AndInstr(l, r);
    forall x: nat
      ensures Evaluate(t, code + [i], Reg(|code|), x) == Truth(MatchesPattern(e, t, x))
    {
      assert (code + [i])[..|code|] == code;
      assert Evaluate(t, code, l, x) == Truth(MatchesPattern(e.lhs, t, x));
      assert Evaluate(t, code, r, x) == Truth(MatchesPattern(e.rhs, t, x));
    }
  }

  class IrEmitVisitor {
    const column: string
    const t: DataType
    const builder: IRBuilder
    var result: Option<Operand>

    constructor (column: string, t: DataType, builder: IRBuilder)
      ensures this.column == column && this.t == t && this.builder == builder
      ensures result == None
    {
      this.column := column;
      this.t := t;
      this.builder := builder;
      result := None;
    }

    /** Emits code for an expression over this visitor's column: earlier code stays a
        prefix, and the result operand computes the expression on every argument. */
    method Visit(e: BooleanExpr)
      requires OverColumn(e, column)
      modifies this, builder
      ensures old(builder.code) <= builder.code
      ensures result.Some? && Computes(t, builder.code, result.value, e)
    {
      match e {
        case Compare(_, op, literal) =>
          ghost var before := builder.code;
          var constant := Const(ArrowTypedConst(t, literal));
          var r := builder.Emit(CmpInstr(CreateCmp(t, op), Input, constant));
          result := Some(r);
          CompareComputed(t, before, e);
        case Predicate(lhs, rhs, op) =>
          Visit(lhs);
          var l := result.value;
          ghost var afterLhs := builder.code;
          Visit(rhs);
          var r := result.value;
          ghost var afterRhs := builder.code;
          ComputesKept(t, afterLhs, afterRhs, l, lhs);
          var joined := builder.Emit(if op == OR then OrInstr(l, r) else AndInstr(l, r));
          result := Some(joined);
          JoinComputed(t, afterRhs, l, r, e);
      }
    }
  }
}
