/** Run-time values of the interpreter and TSInt_ConvertValue
    (ts/api/tsint/source/value.c).

    C keeps a value in a union whose member is chosen by the static type;
    here a value carries its type. Integers are unbounded (32-bit overflow
    is not modelled) and reals are exact. The C library's float formatting
    and parsing ("%f", atof) are not modelled: a conversion that needs them
    gives `Unspecified`, as does memory the C leaves unwritten. */
module IntValue {
  import opened DefTypes
  import Text

  datatype Value = BoolV(b: bool) | IntV(i: int) | RealV(r: real) | StrV(s: string)

  function TypeOf(v: Value): (t: PrimType)
    ensures Concrete(t)
  {
    match v
    case BoolV(_) => Bool
    case IntV(_) => Int
    case RealV(_) => Real
    case StrV(_) => Str
  }

  /** TSINT_EXCEPTION_*: the failures a running unit can raise. Running out
      of memory (-1) is not modelled. */
  datatype Exception = DivideByZero | FFIFailure | Halted

  function ExceptionCode(x: Exception): (code: int)
    ensures code < 0
  {
    match x
    case DivideByZero => -2
    case FFIFailure => -3
    case Halted => -4
  }

  /** The result of an interpreter step: a value, a raised exception, or a
      result the model does not determine (unwritten C memory, a NULL
      dereference, or a floating-point library call). */
  datatype Outcome<+T> = Done(value: T) | Raised(exception: Exception) | Unspecified {
    predicate IsFailure() { !Done? }

    function PropagateFailure<U>(): Outcome<U>
      requires !Done?
    {
      if Raised? then Raised(exception) else Unspecified
    }

    function Extract(): T
      requires Done?
    {
      value
    }
  }

  /** TSDEF_BOOL_TRUE_STRING and TSDEF_BOOL_FALSE_STRING. */
  const TrueString: string := "true"
  const FalseString: string := "false"

  /** A bool as the C char 0/1. */
  function BoolToInt(b: bool): (i: int)
    ensures 0 <= i <= 1 && (i == 1 <==> b)
  {
    if b then 1 else 0
  }

  /** A C cast from double to int: the fraction is dropped toward zero. */
  function Truncate(r: real): (i: int)
    ensures r >= 0.0 ==> 0.0 <= i as real <= r < i as real + 1.0
    ensures r < 0.0 ==> i as real - 1.0 < r <= i as real <= 0.0
  {
    if r >= 0.0 then r.Floor else -((-r).Floor)
  }

  /** The bool a C char holds after a double 0.0 or 1.0 is stored over it:
      the low byte of either double is zero on the little-endian machines
      the program targets, so the bool reads false. */
  const BoolThroughReal: bool := false

  /** TSInt_ConvertValue from the value's own type to `to`. The bool that
      real->bool and string->bool compute is stored through the union's
      real member, so it always reads false (BoolThroughReal). */
  function ConvertValue(v: Value, to: PrimType): (r: Outcome<Value>)
    ensures !r.Raised?
    ensures r.Done? ==> TypeOf(r.value) == to
    ensures TypeOf(v) == to ==> r == Done(v)
    ensures r.Unspecified? <==>
              !Concrete(to) || (v.RealV? && to == Str) || (v.StrV? && to == Real)
  {
    match v
    case BoolV(b) =>
      (match to
       case Bool => Done(v)
       case Int => Done(IntV(BoolToInt(b)))
       case Real => Done(RealV(BoolToInt(b) as real))
       case Str => Done(StrV(if b then TrueString else FalseString))
       case _ => Unspecified)
    case IntV(i) =>
      (match to
       case Bool => Done(BoolV(i != 0))
       case Int => Done(v)
       case Real => Done(RealV(i as real))
       case Str => Done(StrV(Text.IntToDecimal(i)))
       case _ => Unspecified)
    case RealV(x) =>
      (match to
       case Bool => Done(BoolV(BoolThroughReal))
       case Int => Done(IntV(Truncate(x)))
       case Real => Done(v)
       case _ => Unspecified)
    case StrV(s) =>
      (match to
       case Bool => Done(BoolV(BoolThroughReal))
       case Int => Done(IntV(Text.Atoi(s)))
       case Str => Done(v)
       case _ => Unspecified)
  }

  /** The bool a converted value reads as; a failed conversion is passed on. */
  function ConvertToBool(v: Value): (r: Outcome<bool>)
    ensures r.Done? <==> ConvertValue(v, Bool).Done?
    ensures r.Done? ==> ConvertValue(v, Bool) == Done(BoolV(r.value))
  {
    var w :- ConvertValue(v, Bool);
    Done(w.b)
  }

  /** bool -> int -> bool gives the bool back. */
  lemma BoolIntRoundTrip(b: bool)
    ensures ConvertValue(BoolV(b), Int).Done?
    ensures ConvertValue(ConvertValue(BoolV(b), Int).value, Bool) == Done(BoolV(b))
  {
  }

  /** int -> bool is true exactly for a nonzero int. */
  lemma IntToBoolNonzero(i: int)
    ensures ConvertValue(IntV(i), Bool) == Done(BoolV(i != 0))
  {
  }

  /** The decimal text int -> string writes reads back, through
      string -> int, as the same int. */
  lemma IntStringRoundTrip(i: int)
    ensures ConvertValue(IntV(i), Str).Done?
    ensures ConvertValue(ConvertValue(IntV(i), Str).value, Int) == Done(IntV(i))
  {
    Text.AtoiOfDecimal(i);
  }

  /** bool -> string writes "true" or "false", yet string -> bool reads
      every string, "true" included, as false. */
  lemma BoolStringRoundTripLosesTrue()
    ensures ConvertValue(BoolV(true), Str) == Done(StrV(TrueString))
    ensures ConvertValue(StrV(TrueString), Bool) == Done(BoolV(false))
  {
  }

  /** Every real and every string converts to the bool false. */
  lemma ConvertToBoolThroughRealIsFalse(v: Value)
    requires v.RealV? || v.StrV?
    ensures ConvertValue(v, Bool) == Done(BoolV(false))
  {
  }

  /** int -> real -> int gives the int back. */
  lemma IntRealRoundTrip(i: int)
    ensures ConvertValue(IntV(i), Real).Done?
    ensures ConvertValue(ConvertValue(IntV(i), Real).value, Int) == Done(IntV(i))
  {
  }
}
