/** Argument-type lists and how they are matched against a unit's inputs or
    a plugin function's signature (ts/api/tsdef/source/arguments.c). */
module Arguments {
  import opened Wrappers
  import opened DefTypes
  import opened DefFFI
  import opened Def

  /** TSDEF_ARGUMENT_MATCH 0, COUNT_MISMATCH -1, TYPE_MISMATCH -2. */
  datatype ArgumentMatch = Match | CountMismatch | TypeMismatch

  /** TSDef_ArgumentTypesFromExpList: one type per argument, in order; no
      argument list means no types. */
  function ArgumentTypesFromExpList(args: seq<Exp>): (types: seq<PrimType>)
    ensures |types| == |args|
    ensures forall i :: 0 <= i < |types| ==> types[i] == ExpPrimitiveType(args[i])
  {
    seq(|args|, i requires 0 <= i < |args| => ExpPrimitiveType(args[i]))
  }

  /** An input variable whose declared type is known. */
  predicate InputTyped(r: VarRef)
  {
    r.binding.Some? && r.binding.value.ty != Delayed
  }

  /** TSDef_ArgumentTypesFromInput: the declared types of a unit's inputs,
      or INCOMPLETE_DEF when one of them is unbound or still DELAYED. */
  function ArgumentTypesFromInput(input: Option<Input>): (r: Option<seq<PrimType>>)
    ensures input.None? ==> r == Some([])
    ensures input.Some? ==>
              (r.Some? <==> forall i :: 0 <= i < |input.value.variables| ==> InputTyped(input.value.variables[i]))
    ensures input.Some? && r.Some? ==>
              |r.value| == |input.value.variables| &&
              forall i :: 0 <= i < |r.value| ==> r.value[i] == input.value.variables[i].binding.value.ty
  {
    if input.None? then Some([])
    else
      var vs := input.value.variables;
      if forall i :: 0 <= i < |vs| ==> InputTyped(vs[i]) then
        Some(seq(|vs|, i requires 0 <= i < |vs| => vs[i].binding.value.ty))
      else None
  }

  /** Number of inputs a unit takes. */
  function InputCount(input: Option<Input>): nat
  {
    if input.None? then 0 else |input.value.variables|
  }

  /** TSDef_ArgumentCountMatchInput. */
  function ArgumentCountMatchInput(input: Option<Input>, types: seq<PrimType>): (m: ArgumentMatch)
    ensures m != TypeMismatch
    ensures m == Match <==> |types| == InputCount(input)
  {
    if (input.None? && |types| != 0) || (input.Some? && |input.value.variables| != |types|) then CountMismatch
    else Match
  }

  /** TSDef_ArgumentTypesMatchInput: the count first, then the exact type of
      every position. */
  function ArgumentTypesMatchInput(input: Option<Input>, types: seq<PrimType>): (m: ArgumentMatch)
    ensures m == CountMismatch <==> |types| != InputCount(input)
    ensures m == Match <==>
              |types| == InputCount(input) &&
              forall i :: 0 <= i < |types| ==>
                var r := input.value.variables[i];
                r.binding.Some? && r.binding.value.ty == types[i]
  {
    if ArgumentCountMatchInput(input, types) == CountMismatch then CountMismatch
    else if input.None? then Match
    else
      var vs := input.value.variables;
      if forall i :: 0 <= i < |vs| ==> vs[i].binding.Some? && vs[i].binding.value.ty == types[i] then Match
      else TypeMismatch
  }

  /** The distance between two types, by type code. */
  function TypeDistance(a: PrimType, b: PrimType): nat
  {
    if TypeCode(b) > TypeCode(a) then TypeCode(b) - TypeCode(a) else TypeCode(a) - TypeCode(b)
  }

  /** Sum of the per-position distances from argument to parameter type. */
  function SummedDelta(types: seq<PrimType>, ffiTypes: seq<nat>): nat
    requires |types| == |ffiTypes|
  {
    if |types| == 0 then 0
    else SummedDelta(types[..|types| - 1], ffiTypes[..|types| - 1]) +
         TypeDistance(types[|types| - 1], TranslateFFIType(ffiTypes[|types| - 1]))
  }

  /** A position whose argument the signature cannot take. */
  predicate Disallowed(types: seq<PrimType>, ffiTypes: seq<nat>, i: nat)
    requires i < |types| && i < |ffiTypes|
  {
    !AllowPrimitiveConversion(types[i], TranslateFFIType(ffiTypes[i]))
  }

  /** struct tsdef_ffi_argument_match: the summed delta and, when some
      position is disallowed, the last such position with its types. */
  datatype FFIMatchInfo = FFIMatchInfo(delta: nat, disallowed: Option<MismatchInfo>)
  datatype MismatchInfo = MismatchInfo(argumentIndex: nat, fromType: PrimType, toType: PrimType)

  /** TSDef_ArgumentTypesMatchFFI. */
  method ArgumentTypesMatchFFI(ffi: FFIFunction, types: seq<PrimType>) returns (m: ArgumentMatch, info: FFIMatchInfo)
    ensures m == CountMismatch <==> |ffi.argTypes| != |types|
    ensures m != CountMismatch ==>
              info.delta == SummedDelta(types, ffi.argTypes) &&
              (m == TypeMismatch <==> exists i :: 0 <= i < |types| && Disallowed(types, ffi.argTypes, i)) &&
              (m == TypeMismatch <==> info.disallowed.Some?)
    ensures m != CountMismatch && info.disallowed.Some? ==>
              var k := info.disallowed.value.argumentIndex;
              k < |types| && Disallowed(types, ffi.argTypes, k) &&
              info.disallowed.value.fromType == types[k] &&
              info.disallowed.value.toType == TranslateFFIType(ffi.argTypes[k]) &&
              forall j :: k < j < |types| ==> !Disallowed(types, ffi.argTypes, j)
  {
    info := FFIMatchInfo(0, None);
    if |ffi.argTypes| != |types| {
      m := CountMismatch;
      return;
    }
    var index := 0;
    var delta := 0;
    var bad: Option<MismatchInfo> := None;
    while index < |types|
      invariant 0 <= index <= |types|
      invariant delta == SummedDelta(types[..index], ffi.argTypes[..index])
      invariant bad.None? <==> forall i :: 0 <= i < index ==> !Disallowed(types, ffi.argTypes, i)
      invariant bad.Some? ==>
                  var k := bad.value.argumentIndex;
                  k < index && Disallowed(types, ffi.argTypes, k) &&
                  bad.value.fromType == types[k] && bad.value.toType == TranslateFFIType(ffi.argTypes[k]) &&
                  forall j :: k < j < index ==> !Disallowed(types, ffi.argTypes, j)
    {
      var from := types[index];
      var to := TranslateFFIType(ffi.argTypes[index]);
      assert Disallowed(types, ffi.argTypes, index) <==> !AllowPrimitiveConversion(from, to);
      if !AllowPrimitiveConversion(from, to) {
        bad := Some(MismatchInfo(index, from, to));
      }
      assert types[..index + 1][..index] == types[..index];
      assert ffi.argTypes[..index + 1][..index] == ffi.argTypes[..index];
      delta := delta + TypeDistance(from, to);
      index := index + 1;
    }
    assert types[..index] == types;
    assert ffi.argTypes[..index] == ffi.argTypes;
    info := FFIMatchInfo(delta, bad);
    m := if bad.Some? then TypeMismatch else Match;
  }

  /** Equal types are at distance zero, so a signature that names exactly
      the argument types matches with delta zero. */
  lemma {:induction false} ExactSignatureHasZeroDelta(types: seq<PrimType>, ffiTypes: seq<nat>)
    requires |types| == |ffiTypes|
    requires forall i :: 0 <= i < |types| ==> TranslateFFIType(ffiTypes[i]) == types[i]
    ensures SummedDelta(types, ffiTypes) == 0
  {
    if |types| > 0 {
      ExactSignatureHasZeroDelta(types[..|types| - 1], ffiTypes[..|types| - 1]);
    }
  }

  /** A zero delta means every position has exactly the parameter type. */
  lemma {:induction false} ZeroDeltaIsExact(types: seq<PrimType>, ffiTypes: seq<nat>)
    requires |types| == |ffiTypes|
    requires SummedDelta(types, ffiTypes) == 0
    ensures forall i :: 0 <= i < |types| ==> TranslateFFIType(ffiTypes[i]) == types[i]
  {
    if |types| > 0 {
      var n := |types| - 1;
      ZeroDeltaIsExact(types[..n], ffiTypes[..n]);
      RankInjective(types[n], TranslateFFIType(ffiTypes[n]));
      assert TypeCode(types[n]) == TypeCode(TranslateFFIType(ffiTypes[n]));
      forall i | 0 <= i < |types|
        ensures TranslateFFIType(ffiTypes[i]) == types[i]
      {
        if i < n {
          assert types[..n][i] == types[i] && ffiTypes[..n][i] == ffiTypes[i];
        }
      }
    }
  }
}
