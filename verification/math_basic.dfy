/** Minimum and maximum of the math plugin (tscore/math/source/basic.c:16-140).
    Each returns TSFFI_ERROR_NONE; the model gives the output value. Bools
    order false before true, as the C comparison of 0 and 1 does; reals
    are mathematical reals, so a NaN operand is not modelled. */
module MathBasic {

  /** The C comparison `left < right` on tsffi_bool values. */
  predicate BoolLess(a: bool, b: bool)
  {
    !a && b
  }

  /** Math_MinBool: the left value when it is smaller, else the right. */
  function MinBool(left: bool, right: bool): (m: bool)
    ensures m <==> left && right
  {
    if BoolLess(left, right) then left else right
  }

  /** Math_MaxBool: the left value when it is larger, else the right. */
  function MaxBool(left: bool, right: bool): (m: bool)
    ensures m <==> left || right
  {
    if BoolLess(right, left) then left else right
  }

  /** Math_MinInt. */
  function MinInt(left: int, right: int): (m: int)
    ensures m <= left && m <= right
    ensures m == left || m == right
  {
    if left < right then left else right
  }

  /** Math_MaxInt. */
  function MaxInt(left: int, right: int): (m: int)
    ensures m >= left && m >= right
    ensures m == left || m == right
  {
    if left > right then left else right
  }

  /** Math_MinReal. */
  function MinReal(left: real, right: real): (m: real)
    ensures m <= left && m <= right
    ensures m == left || m == right
  {
    if left < right then left else right
  }

  /** Math_MaxReal. */
  function MaxReal(left: real, right: real): (m: real)
    ensures m >= left && m >= right
    ensures m == left || m == right
  {
    if left > right then left else right
  }

  /** Min and max of the same pair split it: the minimum is at most the
      maximum, together they are the two inputs, and the order of the
      inputs does not matter. */
  lemma MinMaxSplit(a: int, b: int)
    ensures MinInt(a, b) <= MaxInt(a, b)
    ensures MinInt(a, b) + MaxInt(a, b) == a + b
    ensures MinInt(a, b) == MinInt(b, a) && MaxInt(a, b) == MaxInt(b, a)
    ensures MinInt(a, MaxInt(a, b)) == a && MaxInt(a, MinInt(a, b)) == a
  {
  }

  lemma MinMaxSplitReal(a: real, b: real)
    ensures MinReal(a, b) <= MaxReal(a, b)
    ensures MinReal(a, b) + MaxReal(a, b) == a + b
    ensures MinReal(a, b) == MinReal(b, a) && MaxReal(a, b) == MaxReal(b, a)
  {
  }

  /** The bool versions are the int versions on 0 and 1. */
  lemma BoolAsInt(a: bool, b: bool)
    ensures (if MinBool(a, b) then 1 else 0) == MinInt(if a then 1 else 0, if b then 1 else 0)
    ensures (if MaxBool(a, b) then 1 else 0) == MaxInt(if a then 1 else 0, if b then 1 else 0)
  {
  }
}
