/** The per-type operator tables of the interpreter
    (ts/api/tsint/source/expop.c): what each primary operator and each
    comparison does to two operands of one type. */
module ExpOp {
  import opened DefTypes
  import opened IntValue
  import opened Wrappers

  // ---------------------------------------------------------------------
  // C integer division

  /** C's `/` on ints: the quotient truncated toward zero. */
  function CDiv(a: int, b: int): (q: int)
    requires b != 0
  {
    var m := (if a < 0 then -a else a) / (if b < 0 then -b else b);
    if (a < 0) != (b < 0) then -m else m
  }

  /** C's `%` on ints: what is left after CDiv. */
  function CMod(a: int, b: int): (r: int)
    requires b != 0
  {
    a - b * CDiv(a, b)
  }

  /** The C division identity: the remainder is smaller than the divisor in
      magnitude and takes the sign of the dividend. */
  lemma CDivMod(a: int, b: int)
    requires b != 0
    ensures b * CDiv(a, b) + CMod(a, b) == a
    ensures (if CMod(a, b) < 0 then -CMod(a, b) else CMod(a, b)) < (if b < 0 then -b else b)
    ensures CMod(a, b) == 0 || (CMod(a, b) < 0 <==> a < 0)
  {
    var x := if a < 0 then -a else a;
    var y := if b < 0 then -b else b;
    var m := x / y;
    assert x == y * m + x % y;
    if a < 0 && b < 0 {
      assert CMod(a, b) == a - b * m == -(x - y * m);
    } else if a < 0 {
      assert CMod(a, b) == a + b * m == -(x - y * m);
    } else if b < 0 {
      assert CMod(a, b) == a + b * m == x - y * m;
    } else {
      assert CMod(a, b) == x - y * m;
    }
  }

  /** On a non-negative dividend and a positive divisor, C and Euclidean
      division agree. */
  lemma CDivModNonNegative(a: int, b: int)
    requires a >= 0 && b > 0
    ensures CDiv(a, b) == a / b && CMod(a, b) == a % b
  {
  }

  /** With a negative dividend they differ: C gives -7 / 2 == -3 and
      -7 % 2 == -1, where Euclidean division gives -4 and 1. */
  lemma CDivDiffersFromEuclidean()
    ensures CDiv(-7, 2) == -3 && CMod(-7, 2) == -1
    ensures (-7) / 2 == -4 && (-7) % 2 == 1
  {
  }

  // ---------------------------------------------------------------------
  // Primary operators

  /** TSInt_BoolPrimaryExpOp: `+` is or, `-` is exclusive or, `*` is and;
      `/` and `%` by false raise DIVIDE_BY_ZERO, `/` by true gives the left
      operand and `%` by true gives false; `^` is true unless the left
      operand is false and the right one true. A missing right operand is a
      NULL dereference in C except for VALUE, which copies the left one. */
  function BoolPrimaryOp(op: PrimaryOp, a: bool, b: Option<bool>): (r: Outcome<bool>)
    ensures op == OpValue ==> r == Done(a)
    ensures op != OpValue && b.None? ==> r.Unspecified?
    ensures r.Raised? <==> (op == Div || op == Mod) && b == Some(false)
    ensures r.Raised? ==> r.exception == DivideByZero
    ensures op == Pow && b.Some? ==> r.Done? && (r.value <==> !(!a && b.value))
  {
    match op
    case OpValue => Done(a)
    case Add => if b.None? then Unspecified else Done(a || b.value)
    case Sub => if b.None? then Unspecified else Done(a != b.value)
    case Mul => if b.None? then Unspecified else Done(a && b.value)
    case Div => if b.None? then Unspecified else if !b.value then Raised(DivideByZero) else Done(a)
    case Pow => if b.None? then Unspecified else Done(a || !b.value)
    case Mod => if b.None? then Unspecified else if !b.value then Raised(DivideByZero) else Done(false)
  }

  /** Apart from `^`, the bool operators are the int operators on 0 and 1
      read back as "nonzero": or is a sum, and a product, exclusive or a
      difference, and `/` and `%` divide by 1 or raise on 0. */
  lemma BoolOpsAreIntOpsOnBits(op: PrimaryOp, a: bool, b: bool)
    requires op != OpValue && op != Pow
    ensures var i := IntPrimaryOp(op, BoolToInt(a), Some(BoolToInt(b)));
            var r := BoolPrimaryOp(op, a, Some(b));
            (r.Raised? <==> i.Raised?) && (r.Done? <==> i.Done?) &&
            (r.Done? ==> (r.value <==> i.value != 0))
  {
  }

  /** TSInt_IntPrimaryExpOp: the arithmetic operators on unbounded ints,
      with C division; `-` without a right operand negates. `^` goes
      through the float function powf, which the model leaves out. */
  function IntPrimaryOp(op: PrimaryOp, a: int, b: Option<int>): (r: Outcome<int>)
    ensures op == OpValue ==> r == Done(a)
    ensures op == Sub && b.None? ==> r == Done(-a)
    ensures op in {Add, Sub, Mul} && b.Some? ==> r.Done?
    ensures op == Add && b.Some? ==> r.value - b.value == a
    ensures op == Sub && b.Some? ==> r.value + b.value == a
    ensures r.Raised? <==> (op == Div || op == Mod) && b == Some(0)
    ensures r.Raised? ==> r.exception == DivideByZero
    ensures op == Div && b.Some? && b.value != 0 ==> r == Done(CDiv(a, b.value))
    ensures op == Mod && b.Some? && b.value != 0 ==> r == Done(CMod(a, b.value))
  {
    match op
    case OpValue => Done(a)
    case Add => if b.None? then Unspecified else Done(a + b.value)
    case Sub => if b.None? then Done(-a) else Done(a - b.value)
    case Mul => if b.None? then Unspecified else Done(a * b.value)
    case Div => if b.None? then Unspecified else if b.value == 0 then Raised(DivideByZero) else Done(CDiv(a, b.value))
    case Mod => if b.None? then Unspecified else if b.value == 0 then Raised(DivideByZero) else Done(CMod(a, b.value))
    case Pow => Unspecified
  }

  /** TSInt_RealPrimaryExpOp: only VALUE and negation are exact; the
      arithmetic is IEEE double arithmetic, which the model leaves out. */
  function RealPrimaryOp(op: PrimaryOp, a: real, b: Option<real>): (r: Outcome<real>)
    ensures op == OpValue ==> r == Done(a)
    ensures op == Sub && b.None? ==> r == Done(-a)
    ensures !r.Raised?
  {
    match op
    case OpValue => Done(a)
    case Sub => if b.None? then Done(-a) else Unspecified
    case _ => Unspecified
  }

  /** TSInt_StringPrimaryExpOp: VALUE copies and `+` concatenates; the
      other operators leave the result unwritten. */
  function StringPrimaryOp(op: PrimaryOp, a: string, b: Option<string>): (r: Outcome<string>)
    ensures op == OpValue ==> r == Done(a)
    ensures op == Add && b.Some? ==> r.Done? && |r.value| == |a| + |b.value| && r.value[..|a|] == a && r.value[|a|..] == b.value
    ensures op != OpValue && op != Add ==> r.Unspecified?
  {
    match op
    case OpValue => Done(a)
    case Add => if b.None? then Unspecified else Done(a + b.value)
    case _ => Unspecified
  }

  /** The operator table of the left operand's type. Both operands of a
      primary chain are read as the chain's type, so a right operand of
      another type does not occur. */
  function ApplyPrimary(op: PrimaryOp, a: Value, b: Option<Value>): (r: Outcome<Value>)
    ensures r.Done? ==> TypeOf(r.value) == TypeOf(a)
    ensures op == OpValue ==> r == Done(a)
  {
    if b.Some? && TypeOf(b.value) != TypeOf(a) then
      (if op == OpValue then Done(a) else Unspecified)
    else
      match a
      case BoolV(x) =>
        var r :- BoolPrimaryOp(op, x, if b.Some? then Some(b.value.b) else None);
        Done(BoolV(r))
      case IntV(x) =>
        var r :- IntPrimaryOp(op, x, if b.Some? then Some(b.value.i) else None);
        Done(IntV(r))
      case RealV(x) =>
        var r :- RealPrimaryOp(op, x, if b.Some? then Some(b.value.r) else None);
        Done(RealV(r))
      case StrV(x) =>
        var r :- StringPrimaryOp(op, x, if b.Some? then Some(b.value.s) else None);
        Done(StrV(r))
  }

  // ---------------------------------------------------------------------
  // Comparison operators

  /** The outcome of a comparison from the sign of a three-way comparison:
      the shared shape of the bool, int, real and string tables. */
  function FromSign(op: ComparisonOp, delta: int): bool
  {
    match op
    case Equal => delta == 0
    case NotEqual => delta != 0
    case Greater => delta > 0
    case GreaterEqual => delta >= 0
    case Less => delta < 0
    case LessEqual => delta <= 0
  }

  /** TSInt_IntComparisonExpOp. */
  function IntCompare(op: ComparisonOp, a: int, b: int): (r: bool)
    ensures op == Equal ==> (r <==> a == b)
    ensures op == Less ==> (r <==> a < b)
    ensures op == LessEqual ==> (r <==> a <= b)
    ensures op == Greater ==> (r <==> a > b)
    ensures op == GreaterEqual ==> (r <==> a >= b)
    ensures op == NotEqual ==> (r <==> a != b)
  {
    FromSign(op, if a < b then -1 else if a == b then 0 else 1)
  }

  /** TSInt_BoolComparisonExpOp compares the chars 0 and 1, so false < true. */
  function BoolCompare(op: ComparisonOp, a: bool, b: bool): (r: bool)
    ensures r == IntCompare(op, BoolToInt(a), BoolToInt(b))
  {
    FromSign(op, if a == b then 0 else if b then -1 else 1)
  }

  /** TSInt_RealComparisonExpOp, on exact reals. */
  function RealCompare(op: ComparisonOp, a: real, b: real): (r: bool)
    ensures op == Equal ==> (r <==> a == b)
    ensures op == Less ==> (r <==> a < b)
    ensures op == LessEqual ==> (r <==> a <= b)
    ensures op == Greater ==> (r <==> a > b)
    ensures op == GreaterEqual ==> (r <==> a >= b)
    ensures op == NotEqual ==> (r <==> a != b)
  {
    FromSign(op, if a < b then -1 else if a == b then 0 else 1)
  }

  /** The sign of strcmp: the first differing character decides, and a
      proper prefix comes first. Strings are taken to hold no NUL. */
  function Strcmp(a: string, b: string): (d: int)
    ensures -1 <= d <= 1
  {
    if |a| == 0 && |b| == 0 then 0
    else if |a| == 0 then -1
    else if |b| == 0 then 1
    else if a[0] < b[0] then -1
    else if a[0] > b[0] then 1
    else Strcmp(a[1..], b[1..])
  }

  /** Lexicographic order, stated without recursion: `a` is a proper
      prefix of `b`, or at the first position where they differ `a` has
      the smaller character. */
  predicate LexLess(a: string, b: string)
  {
    (|a| < |b| && a == b[..|a|]) ||
    exists k :: 0 <= k < |a| && k < |b| && a[..k] == b[..k] && a[k] < b[k]
  }

  /** strcmp is zero exactly on equal strings. */
  lemma {:induction false} StrcmpZeroIffEqual(a: string, b: string)
    ensures Strcmp(a, b) == 0 <==> a == b
    decreases |a|
  {
    if |a| > 0 && |b| > 0 && a[0] == b[0] {
      StrcmpZeroIffEqual(a[1..], b[1..]);
      assert a == [a[0]] + a[1..] && b == [b[0]] + b[1..];
    }
  }

  /** Swapping the operands flips the sign. */
  lemma {:induction false} StrcmpAntisymmetric(a: string, b: string)
    ensures Strcmp(b, a) == -Strcmp(a, b)
    decreases |a|
  {
    if |a| > 0 && |b| > 0 && a[0] == b[0] {
      StrcmpAntisymmetric(a[1..], b[1..]);
    }
  }

  /** strcmp is negative exactly when `a` comes first lexicographically. */
  lemma {:induction false} StrcmpIsLexicographic(a: string, b: string)
    ensures Strcmp(a, b) < 0 <==> LexLess(a, b)
    decreases |a|
  {
    if |a| == 0 || |b| == 0 {
      if |a| > 0 {
        assert !LexLess(a, b);
      }
    } else if a[0] != b[0] {
      if a[0] < b[0] {
        assert a[..0] == b[..0];
      } else {
        assert a[0] > b[0] && !LexLess(a, b);
      }
    } else {
      StrcmpIsLexicographic(a[1..], b[1..]);
      var a', b' := a[1..], b[1..];
      if LexLess(a', b') {
        if |a'| < |b'| && a' == b'[..|a'|] {
          assert a == [a[0]] + a' && b[..|a|] == [b[0]] + b'[..|a'|];
        } else {
          var k :| 0 <= k < |a'| && k < |b'| && a'[..k] == b'[..k] && a'[k] < b'[k];
          assert a[..k + 1] == [a[0]] + a'[..k] && b[..k + 1] == [b[0]] + b'[..k];
          assert a[k + 1] == a'[k] && b[k + 1] == b'[k];
        }
      }
      if LexLess(a, b) {
        if |a| < |b| && a == b[..|a|] {
          assert a' == b'[..|a'|];
        } else {
          var k :| 0 <= k < |a| && k < |b| && a[..k] == b[..k] && a[k] < b[k];
          assert k > 0;
          assert a'[..k - 1] == a[..k][1..] && b'[..k - 1] == b[..k][1..];
          assert a'[k - 1] == a[k] && b'[k - 1] == b[k];
        }
      }
    }
  }

  /** TSInt_StringComparisonExpOp: the comparison applied to the sign of
      strcmp. */
  function StringCompare(op: ComparisonOp, a: string, b: string): (r: bool)
    ensures op == Equal ==> (r <==> a == b)
    ensures op == NotEqual ==> (r <==> a != b)
    ensures op == Less ==> (r <==> LexLess(a, b))
    ensures op == Greater ==> (r <==> LexLess(b, a))
  {
    StrcmpZeroIffEqual(a, b);
    StrcmpIsLexicographic(a, b);
    StrcmpAntisymmetric(a, b);
    StrcmpIsLexicographic(b, a);
    FromSign(op, Strcmp(a, b))
  }

  /** The comparison table of the operands' type. */
  function ApplyComparison(op: ComparisonOp, a: Value, b: Value): (r: Outcome<bool>)
    ensures r.Done? <==> TypeOf(a) == TypeOf(b)
  {
    match (a, b)
    case (BoolV(x), BoolV(y)) => Done(BoolCompare(op, x, y))
    case (IntV(x), IntV(y)) => Done(IntCompare(op, x, y))
    case (RealV(x), RealV(y)) => Done(RealCompare(op, x, y))
    case (StrV(x), StrV(y)) => Done(StringCompare(op, x, y))
    case _ => Unspecified
  }

  /** The negation of each comparison operator. */
  function Negated(op: ComparisonOp): ComparisonOp
  {
    match op
    case Equal => NotEqual
    case NotEqual => Equal
    case Greater => LessEqual
    case GreaterEqual => Less
    case Less => GreaterEqual
    case LessEqual => Greater
  }

  /** For operands of one type, exactly one of `op` and its negation holds:
      `==` against `~=`, `<` against `>=`, `>` against `<=`. */
  lemma ComparisonComplement(op: ComparisonOp, a: Value, b: Value)
    requires TypeOf(a) == TypeOf(b)
    ensures ApplyComparison(op, a, b).Done? && ApplyComparison(Negated(op), a, b).Done?
    ensures ApplyComparison(Negated(op), a, b).value == !ApplyComparison(op, a, b).value
  {
  }
}
