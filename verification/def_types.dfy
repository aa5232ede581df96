/** The static type lattice of the definition layer: primitive types, their
    rank, which conversions the compiler allows, how two operand types are
    promoted, and which operators a pair of types admits (ts/api/tsdef,
    def.h and def.c). */
module DefTypes {

  /** TSDEF_PRIMITIVE_TYPE_*: VOID 0, DELAYED 1, BOOL 2, INT 3, REAL 4, STRING 5.
      DELAYED marks a variable whose type the resolver has not fixed yet. */
  datatype PrimType = Void | Delayed | Bool | Int | Real | Str

  /** TSDEF_PRIMARY_EXP_OP_*: VALUE 0 terminates a primary chain. */
  datatype PrimaryOp = OpValue | Add | Sub | Mul | Div | Mod | Pow

  /** TSDEF_COMPARISON_EXP_OP_*. */
  datatype ComparisonOp = Equal | NotEqual | Greater | GreaterEqual | Less | LessEqual

  /** TSDEF_LOGICAL_EXP_OP_*: VALUE 0 terminates a logical chain. */
  datatype LogicalOp = LValue | Or | And

  /** The numeric code def.h gives each primitive type. */
  function TypeCode(t: PrimType): nat
  {
    match t
    case Void => 0
    case Delayed => 1
    case Bool => 2
    case Int => 3
    case Real => 4
    case Str => 5
  }

  /** tsdef_primitive_type_rank, indexed by type code. */
  const RankTable: seq<nat> := [0, 1, 2, 3, 4, 5]

  function Rank(t: PrimType): (r: nat)
    ensures r < 6
  {
    RankTable[TypeCode(t)]
  }

  /** A type a value can actually have at run time. */
  predicate Concrete(t: PrimType)
  {
    t != Void && t != Delayed
  }

  /** void < delayed < bool < int < real < string. */
  lemma RankStrictlyIncreasing()
    ensures Rank(Void) < Rank(Delayed) < Rank(Bool) < Rank(Int) < Rank(Real) < Rank(Str)
  {
  }

  /** Rank separates the types, so ordering by rank loses nothing. */
  lemma {:induction false} RankInjective(a: PrimType, b: PrimType)
    ensures Rank(a) == Rank(b) <==> a == b
  {
    match a
    case Void =>
    case Delayed =>
    case Bool =>
    case Int =>
    case Real =>
    case Str =>
  }

  /** TSDef_AllowPrimitiveConversion: whether a value of type `from` may be
      stored where `to` is expected. */
  function AllowPrimitiveConversion(from: PrimType, to: PrimType): (allowed: bool)
    ensures allowed ==> Concrete(from) && Concrete(to)
    ensures Concrete(from) && Concrete(to) && from == Str ==> allowed
    ensures Concrete(from) && Concrete(to) && from != Str ==> (allowed <==> Rank(from) <= Rank(to))
  {
    if !Concrete(from) || !Concrete(to) then false
    else if from != Str && Rank(to) < Rank(from) then false
    else true
  }

  /** Conversion is reflexive on concrete types and composes through any
      intermediate type except string: int converts to string and string to
      bool, yet int does not convert to bool. */
  lemma ConversionComposition(a: PrimType, b: PrimType, c: PrimType)
    ensures Concrete(a) ==> AllowPrimitiveConversion(a, a)
    ensures b != Str && AllowPrimitiveConversion(a, b) && AllowPrimitiveConversion(b, c) ==> AllowPrimitiveConversion(a, c)
    ensures AllowPrimitiveConversion(Int, Str) && AllowPrimitiveConversion(Str, Bool) && !AllowPrimitiveConversion(Int, Bool)
  {
  }

  /** TSDef_SelectPrimitivePromotion: the operand type of higher rank, the
      first one on a tie. */
  function SelectPrimitivePromotion(t1: PrimType, t2: PrimType): (p: PrimType)
    ensures p == t1 || p == t2
    ensures Rank(t1) <= Rank(p) && Rank(t2) <= Rank(p)
  {
    if Rank(t1) >= Rank(t2) then t1 else t2
  }

  /** Promotion is the least upper bound of the rank order: commutative,
      idempotent and associative, and any type above both operands is above
      the promotion. */
  lemma PromotionIsJoin(a: PrimType, b: PrimType, c: PrimType)
    ensures SelectPrimitivePromotion(a, b) == SelectPrimitivePromotion(b, a)
    ensures SelectPrimitivePromotion(a, a) == a
    ensures SelectPrimitivePromotion(SelectPrimitivePromotion(a, b), c)
         == SelectPrimitivePromotion(a, SelectPrimitivePromotion(b, c))
    ensures Rank(a) <= Rank(c) && Rank(b) <= Rank(c) ==> Rank(SelectPrimitivePromotion(a, b)) <= Rank(c)
  {
    RankInjective(a, b);
    RankInjective(b, c);
    RankInjective(a, c);
  }

  /** Both operands of a concrete promotion convert into it, which is what
      lets the interpreter convert each operand to the promoted type. */
  lemma PromotionAcceptsOperands(a: PrimType, b: PrimType)
    requires Concrete(a) && Concrete(b)
    ensures AllowPrimitiveConversion(a, SelectPrimitivePromotion(a, b))
    ensures AllowPrimitiveConversion(b, SelectPrimitivePromotion(a, b))
  {
  }

  /** TSDef_OpAllowed: whether `left op right` is legal. A VOID left side
      stands for a missing left operand (the first operand of a chain, or
      unary minus). */
  function OpAllowed(left: PrimType, op: PrimaryOp, right: PrimType): (allowed: bool)
    ensures left == Void ==> (allowed <==> op == OpValue || (op == Sub && (right == Int || right == Real)))
    ensures left != Void && right == Void ==> !allowed
    ensures left != Void && right != Void && (left == Str || right == Str) ==> (allowed <==> op == Add)
    ensures left != Void && right != Void && left != Str && right != Str ==> allowed
  {
    if left == Void then
      if op == Sub && (right == Int || right == Real) then true
      else op == OpValue
    else if right == Void then false
    else if (left == Str || right == Str) && op != Add then false
    else true
  }

  /** A string operand admits concatenation only, whichever side it is on. */
  lemma StringOnlyConcatenates(op: PrimaryOp, other: PrimType)
    requires other != Void
    ensures OpAllowed(Str, op, other) <==> op == Add
    ensures OpAllowed(other, op, Str) <==> op == Add
  {
  }

  /** TSDef_SteppablePrimitive: the types a for loop can count with. */
  function SteppablePrimitive(t: PrimType): (steppable: bool)
    ensures steppable <==> Concrete(t) && t != Str
  {
    match t
    case Bool => true
    case Int => true
    case Real => true
    case Void => false
    case Delayed => false
    case Str => false
  }

  /** tsdef_primary_exp_op_precedence. */
  function Precedence(op: PrimaryOp): (p: nat)
    ensures op == OpValue <==> p == 0
    ensures p <= 3
  {
    match op
    case OpValue => 0
    case Add => 1
    case Sub => 1
    case Mul => 2
    case Div => 2
    case Mod => 2
    case Pow => 3
  }

  /** `^` binds tighter than `* / %`, which bind tighter than `+ -`. */
  lemma PrecedenceOrder(additive: PrimaryOp, multiplicative: PrimaryOp)
    requires additive == Add || additive == Sub
    requires multiplicative == Mul || multiplicative == Div || multiplicative == Mod
    ensures 0 < Precedence(additive) < Precedence(multiplicative) < Precedence(Pow)
  {
  }

  /** tsdef_logical_exp_op_precedence: `and` binds tighter than `or`. */
  function LogicalPrecedence(op: LogicalOp): (p: nat)
    ensures op == LValue <==> p == 0
    ensures op == And <==> p == 2
  {
    match op
    case LValue => 0
    case Or => 1
    case And => 2
  }
}
