/** Values crossing into and out of plugin functions
    (ts/api/tsint/source/ffi.c). A plugin value is tagged with its FFI type
    code, as the argument and output type arrays tag the C union. */
module IntFFI {
  import opened DefTypes
  import opened DefFFI
  import opened IntValue

  datatype FFIValue = FFIBoolV(b: bool) | FFIIntV(i: int) | FFIRealV(r: real) | FFIStringV(s: string)

  function FFITypeOf(f: FFIValue): (code: nat)
    ensures FFIBool <= code <= FFIString
  {
    match f
    case FFIBoolV(_) => FFIBool
    case FFIIntV(_) => FFIInt
    case FFIRealV(_) => FFIReal
    case FFIStringV(_) => FFIString
  }

  /** TSInt_DefTypeToFFIType: a value of definition type `t` as the plugin
      value of the matching FFI type; a bool is normalised to the plugin's
      TRUE/FALSE. VOID and DELAYED have no case and leave the plugin value
      unwritten; so does a value that is not of type `t`, which the C would
      read through the wrong union member. */
  function DefTypeToFFIType(v: Value, t: PrimType): (r: Outcome<FFIValue>)
    ensures !r.Raised?
    ensures r.Done? <==> Concrete(t) && TypeOf(v) == t
    ensures r.Done? ==> FFITypeOf(r.value) as int == FFICodeOf(t)
  {
    if TypeOf(v) != t then Unspecified
    else
      match v
      case BoolV(b) => Done(FFIBoolV(b))
      case IntV(i) => Done(FFIIntV(i))
      case RealV(x) => Done(FFIRealV(x))
      case StrV(s) => Done(FFIStringV(s))
  }

  /** TSInt_FFITypeToDefType: a plugin value of FFI type `code` as a
      definition value; the same cases the other way round. */
  function FFITypeToDefType(f: FFIValue, code: nat): (r: Outcome<Value>)
    ensures !r.Raised?
    ensures r.Done? <==> FFIBool <= code <= FFIString && FFITypeOf(f) == code
    ensures r.Done? ==> TypeOf(r.value) == TranslateFFIType(code)
  {
    if FFITypeOf(f) != code then Unspecified
    else
      match f
      case FFIBoolV(b) => Done(BoolV(b))
      case FFIIntV(i) => Done(IntV(i))
      case FFIRealV(x) => Done(RealV(x))
      case FFIStringV(s) => Done(StrV(s))
  }

  /** A value handed to a plugin and handed back unchanged arrives as the
      same value. */
  lemma DefFFIRoundTrip(v: Value)
    ensures DefTypeToFFIType(v, TypeOf(v)).Done?
    ensures FFITypeToDefType(DefTypeToFFIType(v, TypeOf(v)).value, FFICodeOf(TypeOf(v)) as nat) == Done(v)
  {
  }

  /** And a plugin value read in and passed out again is unchanged. */
  lemma FFIDefRoundTrip(f: FFIValue)
    ensures FFITypeToDefType(f, FFITypeOf(f)).Done?
    ensures DefTypeToFFIType(FFITypeToDefType(f, FFITypeOf(f)).value, TranslateFFIType(FFITypeOf(f))) == Done(f)
  {
  }
}
