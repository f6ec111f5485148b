/** Integer column types, their stored bit patterns, and the comparison that the
    typed helpers of pefa/utils/llvm_helpers.h emit for them. */
module FixedWidth {

  datatype DataType = Int8 | Int16 | Int32 | Int64 | UInt8 | UInt16 | UInt32 | UInt64

  datatype CompareOp = GT | LT | GE | LE | EQ | NEQ

  /** A C++ `int`: the type of literals and of most cursors.  Every assignment to
      a variable of this type is an overflow check. */
  type CInt = x: int | -0x8000_0000 <= x < 0x8000_0000

  /** Two to the number of bits of a type. */
  function Modulus(t: DataType): nat {
    match t
    case Int8 => 0x100
    case UInt8 => 0x100
    case Int16 => 0x1_0000
    case UInt16 => 0x1_0000
    case Int32 => 0x1_0000_0000
    case UInt32 => 0x1_0000_0000
    case Int64 => 0x1_0000_0000_0000_0000
    case UInt64 => 0x1_0000_0000_0000_0000
  }

  predicate IsSigned(t: DataType) {
    t.Int8? || t.Int16? || t.Int32? || t.Int64?
  }

  function MinValue(t: DataType): int {
    if IsSigned(t) then -(Modulus(t) / 2) else 0
  }

  function MaxValue(t: DataType): int {
    if IsSigned(t) then Modulus(t) / 2 - 1 else Modulus(t) - 1
  }

  predicate InRange(t: DataType, v: int) {
    MinValue(t) <= v <= MaxValue(t)
  }

  /** The bits that hold value v in a column of type t (two's complement). */
  function Pattern(t: DataType, v: int): nat {
    v % Modulus(t)
  }

  /** The two's complement reading of a bit pattern. */
  function AsSigned(t: DataType, p: nat): int {
    if p < Modulus(t) / 2 then p else p - Modulus(t)
  }

  /** The value a bit pattern of a column of type t stands for. */
  function Stored(t: DataType, p: nat): int {
    if IsSigned(t) then AsSigned(t, p) else p
  }

  // ----- comparisons -----

  /** What a comparison means on mathematical integers. */
  predicate Holds(op: CompareOp, a: int, b: int) {
    match op
    case GT => a > b
    case LT => a < b
    case GE => a >= b
    case LE => a <= b
    case EQ => a == b
    case NEQ => a != b
  }

  /** The integer comparison instructions of the IR. */
  datatype Icmp = SGT | SLT | SGE | SLE | UGT | ULT | UGE | ULE | IEQ | INE

  /** An integer comparison instruction on two bit patterns of the width of t. */
  predicate EvalIcmp(cond: Icmp, t: DataType, a: nat, b: nat) {
    match cond
    case SGT => AsSigned(t, a) > AsSigned(t, b)
    case SLT => AsSigned(t, a) < AsSigned(t, b)
    case SGE => AsSigned(t, a) >= AsSigned(t, b)
    case SLE => AsSigned(t, a) <= AsSigned(t, b)
    case UGT => a > b
    case ULT => a < b
    case UGE => a >= b
    case ULE => a <= b
    case IEQ => a == b
    case INE => a != b
  }

  /** The instruction chosen by create_cmp_gt .. create_cmp_ne for a column type. */
  function CreateCmp(t: DataType, op: CompareOp): Icmp {
    match op
    case GT => if IsSigned(t) then SGT else UGT
    case LT => if IsSigned(t) then SLT else ULT
    case GE => if IsSigned(t) then SGE else UGE
    case LE => if IsSigned(t) then SLE else ULE
    case EQ => IEQ
    case NEQ => INE
  }

  /** Conversion of a C++ int to int8_t. */
  function ToInt8(v: int): int {
    (v + 128) % 0x100 - 128
  }

  /** The uint64_t that ConstantInt::get receives. */
  function ToUInt64(v: int): nat {
    v % 0x1_0000_0000_0000_0000
  }

  /** The constant emitted for an int literal: the one-byte helpers take an int8_t,
      all others a long; either is passed on as 64 bits and cut to the type's width. */
  function ArrowTypedConst(t: DataType, val: CInt): nat {
    ToUInt64(if t.Int8? || t.UInt8? then ToInt8(val) else val) % Modulus(t)
  }

  /** The longest length of an Arrow array. */
  const INT64_MAX := 0x7fff_ffff_ffff_ffff

  /** The comparison the compiled predicate performs on a stored pattern. */
  predicate MachineCompare(t: DataType, op: CompareOp, p: nat, literal: CInt) {
    EvalIcmp(CreateCmp(t, op), t, p, ArrowTypedConst(t, literal))
  }

  // ----- properties -----

  /** The values that the eight types hold. */
  lemma RangesWritten(v: int)
    ensures InRange(Int8, v) <==> -0x80 <= v < 0x80
    ensures InRange(Int16, v) <==> -0x8000 <= v < 0x8000
    ensures InRange(Int32, v) <==> -0x8000_0000 <= v < 0x8000_0000
    ensures InRange(Int64, v) <==> -0x8000_0000_0000_0000 <= v < 0x8000_0000_0000_0000
    ensures InRange(UInt8, v) <==> 0 <= v < 0x100
    ensures InRange(UInt16, v) <==> 0 <= v < 0x1_0000
    ensures InRange(UInt32, v) <==> 0 <= v < 0x1_0000_0000
    ensures InRange(UInt64, v) <==> 0 <= v < 0x1_0000_0000_0000_0000
  {
  }

  /** The bits that the eight types hold a value in. */
  lemma PatternsWritten(v: int)
    ensures Pattern(Int8, v) == v % 0x100
    ensures Pattern(Int16, v) == v % 0x1_0000
    ensures Pattern(Int32, v) == v % 0x1_0000_0000
    ensures Pattern(Int64, v) == v % 0x1_0000_0000_0000_0000
    ensures Pattern(UInt8, v) == v % 0x100
    ensures Pattern(UInt16, v) == v % 0x1_0000
    ensures Pattern(UInt32, v) == v % 0x1_0000_0000
    ensures Pattern(UInt64, v) == v % 0x1_0000_0000_0000_0000
  {
  }

  /** Passing a value through 64 bits leaves the bits below untouched. */
  lemma WrapKeepsLowBits(t: DataType, v: int)
    requires -0x8000_0000 <= v < 0x8000_0000
    ensures ToUInt64(v) % Modulus(t) == Pattern(t, v)
  {
    assert ToUInt64(v) == if v < 0 then v + 0x1_0000_0000_0000_0000 else v;
    match t {
      case Int8 | UInt8 => assert (v + 0x1_0000_0000_0000_0000) % 0x100 == v % 0x100;
      case Int16 | UInt16 => assert (v + 0x1_0000_0000_0000_0000) % 0x1_0000 == v % 0x1_0000;
      case Int32 | UInt32 => assert (v + 0x1_0000_0000_0000_0000) % 0x1_0000_0000 == v % 0x1_0000_0000;
      case Int64 | UInt64 =>
    }
  }

  lemma NarrowKeepsLowByte(v: CInt)
    ensures ToInt8(v) % 0x100 == v % 0x100
  {
    var q, low := (v + 128) / 0x100, (v + 128) % 0x100;
    assert v + 128 == 0x100 * q + low;
    assert ToInt8(v) == v - 0x100 * q;
  }

  /** However the literal travels through the helpers, what is emitted is its
      bit pattern in the column type. */
  lemma ConstIsPattern(t: DataType, val: CInt)
    ensures ArrowTypedConst(t, val) == Pattern(t, val)
  {
    if t.Int8? || t.UInt8? {
      WrapKeepsLowBits(t, ToInt8(val));
      NarrowKeepsLowByte(val);
    } else {
      WrapKeepsLowBits(t, val);
    }
  }

  /** The constants emitted for a literal, in the eight types. */
  lemma ConstantsWritten(val: CInt)
    ensures ArrowTypedConst(Int8, val) == val % 0x100
    ensures ArrowTypedConst(Int16, val) == val % 0x1_0000
    ensures ArrowTypedConst(Int32, val) == val % 0x1_0000_0000
    ensures ArrowTypedConst(Int64, val) == val % 0x1_0000_0000_0000_0000
    ensures ArrowTypedConst(UInt8, val) == val % 0x100
    ensures ArrowTypedConst(UInt16, val) == val % 0x1_0000
    ensures ArrowTypedConst(UInt32, val) == val % 0x1_0000_0000
    ensures ArrowTypedConst(UInt64, val) == val % 0x1_0000_0000_0000_0000
  {
    PatternsWritten(val);
    ConstIsPattern(Int8, val);
    ConstIsPattern(Int16, val);
    ConstIsPattern(Int32, val);
    ConstIsPattern(Int64, val);
    ConstIsPattern(UInt8, val);
    ConstIsPattern(UInt16, val);
    ConstIsPattern(UInt32, val);
    ConstIsPattern(UInt64, val);
  }

  /** The bits of a value in range: the value itself, or its two's complement. */
  lemma PatternInRange(t: DataType, v: int)
    requires InRange(t, v)
    ensures Pattern(t, v) == if v < 0 then v + Modulus(t) else v
  {
    match t {
      case Int8 =>
      case UInt8 =>
      case Int16 =>
      case UInt16 =>
      case Int32 =>
      case UInt32 =>
      case Int64 =>
      case UInt64 =>
    }
  }

  /** Reading back a pattern gives a value in range, and the same value if it was. */
  lemma StoredPattern(t: DataType, v: int)
    ensures Pattern(t, v) < Modulus(t)
    ensures InRange(t, Stored(t, Pattern(t, v)))
    ensures InRange(t, v) ==> Stored(t, Pattern(t, v)) == v
  {
    if InRange(t, v) {
      PatternInRange(t, v);
    }
  }

  /** What is left of a value when it is cut to the width of t. */
  function Cut(t: DataType, v: int): (r: int)
    ensures InRange(t, r) && (InRange(t, v) ==> r == v)
  {
    StoredPattern(t, v);
    Stored(t, Pattern(t, v))
  }

  /** Cutting takes a multiple q of the type's width from a value, so that what is left
      is in range. */
  lemma CutWritten(t: DataType, v: int) returns (q: int)
    ensures InRange(t, Cut(t, v))
    ensures t == Int8 ==> v - Cut(t, v) == 0x100 * q
    ensures t == Int16 ==> v - Cut(t, v) == 0x1_0000 * q
    ensures t == Int32 ==> v - Cut(t, v) == 0x1_0000_0000 * q
    ensures t == Int64 ==> v - Cut(t, v) == 0x1_0000_0000_0000_0000 * q
    ensures t == UInt8 ==> v - Cut(t, v) == 0x100 * q
    ensures t == UInt16 ==> v - Cut(t, v) == 0x1_0000 * q
    ensures t == UInt32 ==> v - Cut(t, v) == 0x1_0000_0000 * q
    ensures t == UInt64 ==> v - Cut(t, v) == 0x1_0000_0000_0000_0000 * q
  {
    var p := Pattern(t, v);
    StoredPattern(t, v);
    assert v == Modulus(t) * (v / Modulus(t)) + p;
    q := v / Modulus(t) + if Cut(t, v) == p then 0 else 1;
  }

  /** For every literal, the emitted comparison is comparison as numbers of the stored
      value with the literal cut to the width of the column. */
  lemma {:induction false} MachineCompareIsNarrowed(t: DataType, op: CompareOp, v: int, literal: CInt)
    ensures MachineCompare(t, op, Pattern(t, v), literal) <==> Holds(op, Cut(t, v), Cut(t, literal))
    ensures MachineCompare(t, op, Pattern(t, v), literal) <==>
      match op
      case GT => Cut(t, v) > Cut(t, literal)
      case LT => Cut(t, v) < Cut(t, literal)
      case GE => Cut(t, v) >= Cut(t, literal)
      case LE => Cut(t, v) <= Cut(t, literal)
      case EQ => Cut(t, v) == Cut(t, literal)
      case NEQ => Cut(t, v) != Cut(t, literal)
  {
    ConstIsPattern(t, literal);
    StoredPattern(t, v);
    StoredPattern(t, literal);
  }

  /** When comparing with this literal gives the mathematical answer on every stored
      value: the literal fits, or it lies beyond the end of the range at which the
      operator no longer distinguishes values and narrows to exactly that end. */
  predicate ExactLiteral(t: DataType, op: CompareOp, literal: CInt) {
    || InRange(t, literal)
    || ((op.GT? || op.LE?) && literal > MaxValue(t) && Pattern(t, literal) == Pattern(t, MaxValue(t)))
    || ((op.LT? || op.GE?) && literal < MinValue(t) && Pattern(t, literal) == Pattern(t, MinValue(t)))
  }

  lemma ComparisonExact(t: DataType, op: CompareOp, v: int, literal: CInt)
    requires InRange(t, v) && ExactLiteral(t, op, literal)
    ensures MachineCompare(t, op, Pattern(t, v), literal) <==> Holds(op, v, literal)
    ensures MachineCompare(t, op, Pattern(t, v), literal) <==>
      match op
      case GT => v > literal
      case LT => v < literal
      case GE => v >= literal
      case LE => v <= literal
      case EQ => v == literal
      case NEQ => v != literal
  {
    MachineCompareIsNarrowed(t, op, v, literal);
    StoredPattern(t, literal);
    StoredPattern(t, MaxValue(t));
    StoredPattern(t, MinValue(t));
  }

  /** For a value and a literal of the column's type, the emitted instruction on their
      patterns decides what its operator says. */
  lemma ComparisonWritten(t: DataType, v: int, literal: CInt)
    requires InRange(t, v) && InRange(t, literal)
    ensures MachineCompare(t, GT, Pattern(t, v), literal) <==> v > literal
    ensures MachineCompare(t, LT, Pattern(t, v), literal) <==> v < literal
    ensures MachineCompare(t, GE, Pattern(t, v), literal) <==> v >= literal
    ensures MachineCompare(t, LE, Pattern(t, v), literal) <==> v <= literal
    ensures MachineCompare(t, EQ, Pattern(t, v), literal) <==> v == literal
    ensures MachineCompare(t, NEQ, Pattern(t, v), literal) <==> v != literal
  {
    ComparisonExact(t, GT, v, literal);
    ComparisonExact(t, LT, v, literal);
    ComparisonExact(t, GE, v, literal);
    ComparisonExact(t, LE, v, literal);
    ComparisonExact(t, EQ, v, literal);
    ComparisonExact(t, NEQ, v, literal);
  }

  /** A stored value on which a literal outside ExactLiteral gives the wrong answer. */
  function Misjudged(t: DataType, op: CompareOp, literal: CInt): int {
    match op
    case EQ => Stored(t, Pattern(t, literal))
    case NEQ => Stored(t, Pattern(t, literal))
    case GT => if literal > MaxValue(t) then MaxValue(t) else MinValue(t)
    case LE => if literal > MaxValue(t) then MaxValue(t) else MinValue(t)
    case LT => if literal > MaxValue(t) then MaxValue(t) else MinValue(t)
    case GE => if literal > MaxValue(t) then MaxValue(t) else MinValue(t)
  }

  lemma ComparisonMisjudges(t: DataType, op: CompareOp, literal: CInt)
    requires !ExactLiteral(t, op, literal)
    ensures var v := Misjudged(t, op, literal);
      InRange(t, v) && !(MachineCompare(t, op, Pattern(t, v), literal) <==> Holds(op, v, literal))
  {
    StoredPattern(t, literal);
    StoredPattern(t, MaxValue(t));
    StoredPattern(t, MinValue(t));
    MachineCompareIsNarrowed(t, op, Misjudged(t, op, literal), literal);
  }

  /** Exactly which literals a column type can be compared with. */
  lemma {:induction false} ComparisonExactIff(t: DataType, op: CompareOp, literal: CInt)
    ensures ExactLiteral(t, op, literal)
       <==> (forall v | InRange(t, v) :: MachineCompare(t, op, Pattern(t, v), literal) == Holds(op, v, literal))
  {
    if ExactLiteral(t, op, literal) {
      forall v | InRange(t, v)
        ensures MachineCompare(t, op, Pattern(t, v), literal) == Holds(op, v, literal)
      {
        ComparisonExact(t, op, v, literal);
      }
    } else {
      ComparisonMisjudges(t, op, literal);
    }
  }
}
