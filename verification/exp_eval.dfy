/** Expression evaluation of the interpreter: TSInt_EvaluateExp and the
    operand readers of ts/api/tsint/source/expvalue.c, with the argument
    lists of unit calls (unit.c) and plugin calls (ffi.c).

    A call inside an expression is answered by an oracle in the
    environment: `unitCall` stands for invoking the unit and running it to
    completion, `ffiCall` for the plugin's native function (None when it
    returns an error). */
module ExpEval {
  import opened Wrappers
  import opened DefTypes
  import opened Def
  import opened DefFFI
  import opened IntValue
  import opened ExpOp
  import opened IntFFI
  import opened ExpChain

  /** What evaluation reads: the variable slots of every live frame, by
      depth (None for a slot not yet assigned), and the call oracles. */
  datatype Env = Env(slots: seq<seq<Option<Value>>>,
                     unitCall: (string, seq<Value>) -> Outcome<Value>,
                     ffiCall: (string, seq<FFIValue>) -> Option<FFIValue>)

  /** A constant operand read in type `ty` (the constant cases of the
      TSInt_ExpValueAs* readers). They follow TSInt_ConvertValue except
      for bool: a real constant is true when nonzero, and a string constant
      is true when strcmp finds it DIFFERENT from "true". */
  function ConstantAs(c: Value, ty: PrimType): (r: Outcome<Value>)
    ensures !r.Raised?
    ensures r.Done? ==> TypeOf(r.value) == ty
    ensures r.Unspecified? <==> !Concrete(ty) || (c.RealV? && ty == Str) || (c.StrV? && ty == Real)
    ensures c.StrV? && ty == Bool ==> r == Done(BoolV(c.s != TrueString))
    ensures c.RealV? && ty == Bool ==> r == Done(BoolV(c.r != 0.0))
  {
    match ty
    case Bool =>
      (match c
       case BoolV(_) => Done(c)
       case IntV(i) => Done(BoolV(i != 0))
       case RealV(x) => Done(BoolV(x != 0.0))
       case StrV(s) => StrcmpZeroIffEqual(s, TrueString); Done(BoolV(Strcmp(s, TrueString) != 0)))
    case Int =>
      (match c
       case BoolV(b) => Done(IntV(BoolToInt(b)))
       case IntV(_) => Done(c)
       case RealV(x) => Done(IntV(Truncate(x)))
       case StrV(s) => Done(IntV(Text.Atoi(s))))
    case Real =>
      (match c
       case BoolV(b) => Done(RealV(BoolToInt(b) as real))
       case IntV(i) => Done(RealV(i as real))
       case RealV(_) => Done(c)
       case StrV(_) => Unspecified)
    case Str =>
      (match c
       case BoolV(b) => Done(StrV(if b then TrueString else FalseString))
       case IntV(i) => Done(StrV(Text.IntToDecimal(i)))
       case RealV(_) => Unspecified
       case StrV(_) => Done(c))
    case _ => Unspecified
  }

  /** TSInt_LookupVariableAddress and the slot's value: C reads whatever the
      slot holds, so an unassigned slot or an address outside the stack is
      Unspecified. */
  function LookupSlot(env: Env, b: VarBinding): (r: Outcome<Value>)
    ensures !r.Raised?
    ensures r.Done? <==> b.depth < |env.slots| && b.index < |env.slots[b.depth]| &&
                         env.slots[b.depth][b.index].Some?
    ensures r.Done? ==> Some(r.value) == env.slots[b.depth][b.index]
  {
    if b.depth < |env.slots| && b.index < |env.slots[b.depth]| then
      match env.slots[b.depth][b.index]
      case Some(v) => Done(v)
      case None => Unspecified
    else Unspecified
  }

  /** A bool-typed outcome as a bool. */
  function AsBool(o: Outcome<Value>): (r: Outcome<bool>)
    ensures o.Done? && o.value.BoolV? ==> r == Done(o.value.b)
    ensures o.Raised? ==> r == Raised(o.exception)
  {
    match o
    case Done(BoolV(b)) => Done(b)
    case Done(_) => Unspecified
    case Raised(x) => Raised(x)
    case Unspecified => Unspecified
  }

  /** TSInt_EvaluateExp: the expression's value in its own type (bool for
      comparisons and logical chains), converted to `wanted`. */
  function EvalExp(env: Env, e: Exp, wanted: PrimType): (r: Outcome<Value>)
    ensures r.Done? ==> TypeOf(r.value) == wanted
    decreases e, 2, 0
  {
    match e
    case Primary(p) =>
      var v :- EvalPrimary(env, p);
      ConvertValue(v, wanted)
    case Comparison(cnodes) =>
      var b :- (if |cnodes| == 0 then Unspecified
                else ComparisonChain(CmpSteps(env, e, cnodes[0].ty, 0), ApplyComparison));
      ConvertValue(BoolV(b), wanted)
    case Logical(_) =>
      var b :- LogicalChain(LogicalSteps(env, e, 0));
      ConvertValue(BoolV(b), wanted)
  }

  /** TSInt_PrimaryExpEvaluation: the operator table of the chain's type,
      then negation when the NEGATE flag is set. The C ignores the status of
      the negation, so a type that cannot negate leaves the result unset. */
  function EvalPrimary(env: Env, p: PrimaryExp): (r: Outcome<Value>)
    ensures !Concrete(p.effectiveType) || |p.nodes| == 0 ==> r.Unspecified?
    decreases p, 2, 0
  {
    if !Concrete(p.effectiveType) then Unspecified
    else
      var v :- PrimaryChain(PrimarySteps(env, p, 0), ApplyPrimary);
      if !p.negate then Done(v)
      else
        match ApplyPrimary(Sub, v, None)
        case Done(w) => Done(w)
        case _ => Unspecified
  }

  /** The nodes of a primary chain from node `k` on, each operand read in
      the chain's type. */
  function PrimarySteps(env: Env, p: PrimaryExp, k: nat): (r: seq<PrimStep<Value>>)
    requires k <= |p.nodes|
    ensures |r| == |p.nodes| - k
    ensures forall i :: 0 <= i < |r| ==> r[i].op == p.nodes[k + i].op
    decreases p, 1, |p.nodes| - k
  {
    if k == |p.nodes| then []
    else [PrimStep(p.nodes[k].op, ValueAs(env, p.nodes[k].value, p.effectiveType))] + PrimarySteps(env, p, k + 1)
  }

  /** TSInt_ExpValueAsBool/Int/Real/String: one operand read in type `ty`. */
  function ValueAs(env: Env, v: ExpValue, ty: PrimType): (r: Outcome<Value>)
    ensures r.Done? ==> TypeOf(r.value) == ty
    decreases v, 2, 0
  {
    match v
    case BoolConst(b) => ConstantAs(BoolV(b), ty)
    case IntConst(i) => ConstantAs(IntV(i), ty)
    case RealConst(x) => ConstantAs(RealV(x), ty)
    case StrConst(s) => ConstantAs(StrV(s), ty)
    case CallValue(c) => EvalCall(env, c, ty)
    case VarValue(ref) =>
      if ref.binding.None? then Unspecified
      else
        var s :- LookupSlot(env, ref.binding.value);
        ConvertValue(s, ty)
    case SubExp(e) => EvalExp(env, e, ty)
  }

  /** ExecuteFunction: a unit call reads its arguments in the callee's
      input types and yields the callee's output (no output leaves the
      result unset); a plugin call reads them in its FFI argument types, and
      a failing plugin raises the FFI exception. The result is converted to
      `ty`. An unresolved call has no module object. */
  function EvalCall(env: Env, c: FunctionCall, ty: PrimType): (r: Outcome<Value>)
    ensures r.Done? ==> TypeOf(r.value) == ty
    ensures c.target.None? ==> r.Unspecified?
    decreases c, 2, 0
  {
    match c.target
    case None => Unspecified
    case Some(UnitTarget(name, inputTypes, outputType)) =>
      var args :- UnitArguments(env, c, inputTypes, 0);
      var out :- env.unitCall(name, args);
      if outputType.None? then Unspecified else ConvertValue(out, ty)
    case Some(FFITarget(name, argTypes, outputCode)) =>
      var args :- FFIArguments(env, c, argTypes, 0);
      var out := env.ffiCall(name, args);
      if out.None? then Raised(FFIFailure)
      else
        var v :- FFITypeToDefType(out.value, outputCode);
        ConvertValue(v, ty)
  }

  /** TSInt_ExpListToValueArray from argument `k`: argument i is read in
      the type of input variable i, in order, stopping at the first
      exception; an argument beyond the inputs has no input node to read. */
  function UnitArguments(env: Env, c: FunctionCall, inputTypes: seq<PrimType>, k: nat): (r: Outcome<seq<Value>>)
    requires k <= |c.arguments|
    ensures r.Done? ==> |r.value| == |c.arguments| - k
    ensures r.Done? && k < |c.arguments| ==> |c.arguments| <= |inputTypes|
    ensures r.Done? ==> forall i :: 0 <= i < |r.value| ==>
              k + i < |inputTypes| && TypeOf(r.value[i]) == inputTypes[k + i]
    decreases c, 1, |c.arguments| - k
  {
    if k == |c.arguments| then Done([])
    else if k >= |inputTypes| then Unspecified
    else
      var v :- EvalExp(env, c.arguments[k], inputTypes[k]);
      var tail := UnitArguments(env, c, inputTypes, k + 1);
      if !tail.Done? then tail.PropagateFailure()
      else
        var args := [v] + tail.value;
        assert forall i :: 1 <= i < |args| ==> args[i] == tail.value[i - 1];
        Done(args)
  }

  /** TSInt_ExpListToFFIArguments from argument `k`: argument i is read in
      the definition type of FFI argument type i and handed over as that
      plugin type. */
  function FFIArguments(env: Env, c: FunctionCall, argTypes: seq<nat>, k: nat): (r: Outcome<seq<FFIValue>>)
    requires k <= |c.arguments|
    ensures r.Done? ==> |r.value| == |c.arguments| - k
    ensures r.Done? && k < |c.arguments| ==> |c.arguments| <= |argTypes|
    ensures r.Done? ==> forall i :: 0 <= i < |r.value| ==>
              k + i < |argTypes| && FFITypeOf(r.value[i]) == argTypes[k + i]
    decreases c, 1, |c.arguments| - k
  {
    if k == |c.arguments| then Done([])
    else if k >= |argTypes| then Unspecified
    else
      var t := TranslateFFIType(argTypes[k]);
      var v :- EvalExp(env, c.arguments[k], t);
      var f := DefTypeToFFIType(v, t).value;
      var tail := FFIArguments(env, c, argTypes, k + 1);
      if !tail.Done? then tail.PropagateFailure()
      else
        var args := [f] + tail.value;
        assert forall i :: 1 <= i < |args| ==> args[i] == tail.value[i - 1];
        Done(args)
  }

  /** The nodes of a comparison chain from node `k` on: every operand is
      evaluated as a primary expression and converted to `ty`, the type of
      the FIRST node, which TSInt_ComparisonExpEvaluation uses for every
      pair. */
  function CmpSteps(env: Env, e: Exp, ty: PrimType, k: nat): (r: seq<CmpStep<Value>>)
    requires e.Comparison? && k <= |e.cnodes|
    ensures |r| == |e.cnodes| - k
    ensures forall i :: 0 <= i < |r| ==>
              (r[i].op == e.cnodes[k + i].op && (r[i].right.Some? <==> e.cnodes[k + i].right.Some?))
    ensures forall i :: 0 <= i < |r| ==>
              (r[i].left.Done? ==> TypeOf(r[i].left.value) == ty) &&
              (r[i].right.Some? && r[i].right.value.Done? ==> TypeOf(r[i].right.value.value) == ty)
    decreases e, 1, |e.cnodes| - k
  {
    if k == |e.cnodes| then []
    else
      var node := e.cnodes[k];
      var left := (var v :- EvalPrimary(env, node.left); ConvertValue(v, ty));
      var right := if node.right.None? then None
                   else Some(var v :- EvalPrimary(env, node.right.value); ConvertValue(v, ty));
      [CmpStep(node.op, left, right)] + CmpSteps(env, e, ty, k + 1)
  }

  /** The nodes of a logical chain from node `k` on, each present operand
      evaluated as bool; a missing one has nothing to evaluate. */
  function LogicalSteps(env: Env, e: Exp, k: nat): (r: seq<LogicalStep>)
    requires e.Logical? && k <= |e.lnodes|
    ensures |r| == |e.lnodes| - k
    ensures forall i :: 0 <= i < |r| ==>
              (r[i].op == e.lnodes[k + i].op && r[i].leftNot == e.lnodes[k + i].leftNot &&
               r[i].rightNot == e.lnodes[k + i].rightNot)
    decreases e, 1, |e.lnodes| - k
  {
    if k == |e.lnodes| then []
    else
      var node := e.lnodes[k];
      var left := if node.left.None? then Unspecified else AsBool(EvalExp(env, node.left.value, Bool));
      var right := if node.right.None? then Unspecified else AsBool(EvalExp(env, node.right.value, Bool));
      [LogicalStep(node.op, left, node.leftNot, right, node.rightNot)] + LogicalSteps(env, e, k + 1)
  }

  // ---------------------------------------------------------------------
  // Properties

  /** Reading a constant agrees with TSInt_ConvertValue except when a real
      or a string constant is read as bool. */
  lemma ConstantAsAgreesWithConvert(c: Value, ty: PrimType)
    requires ty != Bool || c.BoolV? || c.IntV?
    ensures ConstantAs(c, ty) == ConvertValue(c, ty)
  {
  }

  /** The string constant "true" reads as false and any other string as
      true, while the same strings held in a variable read as false. */
  lemma StringConstantBoolIsInverted(s: string)
    ensures ConstantAs(StrV(TrueString), Bool) == Done(BoolV(false))
    ensures s != TrueString ==> ConstantAs(StrV(s), Bool) == Done(BoolV(true))
    ensures ConvertValue(StrV(s), Bool) == Done(BoolV(false))
  {
  }

  /** A variable read in its own type gives the value its slot holds. */
  lemma VariableReadsItsSlot(env: Env, ref: VarRef, v: Value)
    requires ref.binding.Some? && LookupSlot(env, ref.binding.value) == Done(v)
    ensures ValueAs(env, VarValue(ref), TypeOf(v)) == Done(v)
  {
  }

  /** Evaluating an expression in its own type does not convert it. */
  lemma EvalInOwnTypeIsPrimaryValue(env: Env, p: PrimaryExp)
    requires EvalPrimary(env, p).Done? && TypeOf(EvalPrimary(env, p).value) == p.effectiveType
    ensures EvalExp(env, Primary(p), p.effectiveType) == EvalPrimary(env, p)
  {
  }

  /** `a - b - c` on int constants is `(a - b) - c`. */
  lemma IntSubtractionGroupsLeft(env: Env, a: int, b: int, c: int)
    ensures EvalExp(env, Primary(PrimaryExp([PrimaryNode(Sub, IntConst(a)), PrimaryNode(Sub, IntConst(b)),
                                             PrimaryNode(OpValue, IntConst(c))], Int, false)), Int)
            == Done(IntV(a - b - c))
  {
    var p := PrimaryExp([PrimaryNode(Sub, IntConst(a)), PrimaryNode(Sub, IntConst(b)),
                         PrimaryNode(OpValue, IntConst(c))], Int, false);
    assert PrimarySteps(env, p, 2) == [PrimStep(OpValue, Done(IntV(c)))];
    assert PrimarySteps(env, p, 1) == [PrimStep(Sub, Done(IntV(b))), PrimStep(OpValue, Done(IntV(c)))];
    assert PrimarySteps(env, p, 0) ==
             [PrimStep(Sub, Done(IntV(a))), PrimStep(Sub, Done(IntV(b))), PrimStep(OpValue, Done(IntV(c)))];
    LooserRightBindsLast(Sub, Sub, Done(IntV(a)), Done(IntV(b)), Done(IntV(c)), ApplyPrimary);
  }

  /** `a + b * c` on int constants is `a + (b * c)`. */
  lemma IntProductBindsTighter(env: Env, a: int, b: int, c: int)
    ensures EvalExp(env, Primary(PrimaryExp([PrimaryNode(Add, IntConst(a)), PrimaryNode(Mul, IntConst(b)),
                                             PrimaryNode(OpValue, IntConst(c))], Int, false)), Int)
            == Done(IntV(a + b * c))
  {
    var p := PrimaryExp([PrimaryNode(Add, IntConst(a)), PrimaryNode(Mul, IntConst(b)),
                         PrimaryNode(OpValue, IntConst(c))], Int, false);
    assert PrimarySteps(env, p, 2) == [PrimStep(OpValue, Done(IntV(c)))];
    assert PrimarySteps(env, p, 1) == [PrimStep(Mul, Done(IntV(b))), PrimStep(OpValue, Done(IntV(c)))];
    assert PrimarySteps(env, p, 0) ==
             [PrimStep(Add, Done(IntV(a))), PrimStep(Mul, Done(IntV(b))), PrimStep(OpValue, Done(IntV(c)))];
    TighterRightBindsFirst(Add, Mul, Done(IntV(a)), Done(IntV(b)), Done(IntV(c)), ApplyPrimary);
  }

  /** Whatever its operands, a logical expression whose operands all
      evaluate, with no `... and x or y` ending and agreeing NOT flags,
      has the reference value. */
  lemma LogicalExpMatchesReference(env: Env, e: Exp)
    requires e.Logical?
    requires var steps := LogicalSteps(env, e, 0);
             LogicalWellFormed(steps) && LogicalOperandsDone(steps) &&
             NotFlagsAgree(steps) && NoSkipOverrun(steps)
    ensures EvalExp(env, e, Bool) == Done(BoolV(LogicalReference(LogicalSteps(env, e, 0))))
  {
    LogicalChainMatchesReference(LogicalSteps(env, e, 0));
  }

  /** A comparison chain whose operands all evaluate in the first node's
      type holds exactly when each adjacent pair does. */
  lemma ComparisonExpIsConjunction(env: Env, e: Exp)
    requires e.Comparison? && |e.cnodes| > 0
    requires var steps := CmpSteps(env, e, e.cnodes[0].ty, 0);
             ComparisonWellFormed(steps) && ComparisonOperandsDone(steps)
    ensures var steps := CmpSteps(env, e, e.cnodes[0].ty, 0);
            EvalExp(env, e, Bool) ==
              Done(BoolV(forall k :: 0 <= k < |steps| ==> PairHolds(steps, ApplyComparison, k)))
  {
    var steps := CmpSteps(env, e, e.cnodes[0].ty, 0);
    forall k | 0 <= k < |steps| ensures PairDone(steps, ApplyComparison, k) {
      assert TypeOf(CmpOperand(steps, k)) == TypeOf(CmpOperand(steps, k + 1));
    }
    ComparisonChainIsConjunction(steps, ApplyComparison);
  }
}
