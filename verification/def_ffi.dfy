/** TSDef_TranslateFFIType (ts/api/tsdef/source/ffi.c): the definition
    layer's view of a plugin argument or result type. */
module DefFFI {
  import opened DefTypes

  /** TSFFI_PRIMITIVE_TYPE_* codes (tsffi/primitives.h). */
  const FFIVoid: nat := 0
  const FFIBool: nat := 1
  const FFIInt: nat := 2
  const FFIReal: nat := 3
  const FFIString: nat := 4

  /** struct tsffi_function_definition as the compiler sees it. The native
      entry points are reduced to whether they exist: `invocable` is a
      non-NULL `function`, `actionable` a non-NULL `action_controller`. */
  datatype FFIFunction = FFIFunction(name: string, argTypes: seq<nat>, outputType: nat,
                                     invocable: bool, actionable: bool)

  /** The FFI type code a definition type is published under, if any. */
  function FFICodeOf(t: PrimType): (code: int)
    ensures -1 <= code <= 4
  {
    match t
    case Void => FFIVoid
    case Delayed => -1
    case Bool => FFIBool
    case Int => FFIInt
    case Real => FFIReal
    case Str => FFIString
  }

  /** Known codes map to the type of the same name; anything else is VOID. */
  function TranslateFFIType(code: nat): (t: PrimType)
    ensures t != Delayed
    ensures code <= 4 ==> FFICodeOf(t) == code
    ensures code > 4 ==> t == Void
  {
    if code == FFIVoid then Void
    else if code == FFIBool then Bool
    else if code == FFIInt then Int
    else if code == FFIReal then Real
    else if code == FFIString then Str
    else Void
  }

  /** Translating a type's own FFI code gives the type back, so the five
      known codes are mapped injectively. */
  lemma TranslateRoundTrip(t: PrimType)
    requires t != Delayed
    ensures TranslateFFIType(FFICodeOf(t) as nat) == t
  {
  }

  lemma TranslateInjective(c1: nat, c2: nat)
    requires c1 <= 4 && c2 <= 4
    ensures TranslateFFIType(c1) == TranslateFFIType(c2) ==> c1 == c2
  {
  }
}
