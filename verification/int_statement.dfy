/** The statement stepper of the interpreter
    (ts/api/tsint/source/statement.c): one call of TSInt_ProcessStatement
    runs the current statement and then leaves every block that has run out
    of statements, going round a loop whose body has ended. */
module IntStatement {
  import opened Wrappers
  import opened DefTypes
  import opened Def
  import opened IntValue
  import opened ExpOp
  import opened IntFFI
  import opened ExpEval
  import opened IntBlock

  /** What a step leaves: the next state, an exception together with the
      state it was raised in (its mode still matters to the caller), or a
      state the model does not determine. */
  datatype StepResult = Next(state: UnitState) | Threw(state: UnitState, exception: Exception) | Unknown

  /** A step that either succeeds with `r` or raises in state `s`. */
  function Lift(s: UnitState, r: Outcome<UnitState>): (sr: StepResult)
    ensures r.Done? <==> sr.Next?
    ensures r.Done? ==> sr.state == r.value
    ensures r.Raised? <==> sr.Threw?
    ensures r.Raised? ==> sr.state == s && sr.exception == r.exception
  {
    match r
    case Done(s') => Next(s')
    case Raised(x) => Threw(s, x)
    case Unspecified => Unknown
  }

  function Top(s: UnitState): Frame
    requires |s.frames| > 0
  {
    s.frames[|s.frames| - 1]
  }

  /** `next_statement`: the statement after statement `i`, NULL after the
      last one. */
  function Following(b: Block, i: nat): (pc: Option<nat>)
    ensures pc.Some? <==> i + 1 < |b.stmts|
    ensures pc.Some? ==> pc.value == i + 1
  {
    if i + 1 < |b.stmts| then Some(i + 1) else None
  }

  /** A condition evaluated as bool. */
  function EvalCondition(s: UnitState, o: Oracles, e: Exp): (r: Outcome<bool>)
    ensures r.Done? <==> EvalExp(EnvOf(s, o), e, Bool).Done?
    ensures r.Done? ==> EvalExp(EnvOf(s, o), e, Bool) == Done(BoolV(r.value))
    ensures r.Raised? <==> EvalExp(EnvOf(s, o), e, Bool).Raised?
    ensures r.Raised? ==> r.exception == EvalExp(EnvOf(s, o), e, Bool).exception
  {
    AsBool(EvalExp(EnvOf(s, o), e, Bool))
  }

  // ---------------------------------------------------------------------
  // For-loop bookkeeping

  /** The types whose comparison and primary tables ContinueLoop and
      ProcessLoopFinish switch over; any other type leaves the C's
      exception variable unset. */
  predicate ForType(ty: PrimType)
  {
    ty == Bool || ty == Int || ty == Real
  }

  /** The for-loop record ProcessLoopStart fills: the bound, the step 1
      converted to the variable's type, and `<` with `+` when counting up,
      `>` with `-` when counting down. */
  function ForSetup(to: Value, ty: PrimType, up: bool): (r: Outcome<ForState>)
    ensures r.Done? <==> Concrete(ty)
    ensures r.Done? ==> r.value.to == to && TypeOf(r.value.step) == ty &&
                        r.value.test == (if up then Less else Greater) &&
                        r.value.stepOp == (if up then Add else Sub)
    ensures ty == Int && r.Done? ==> r.value.step == IntV(1)
  {
    var step :- ConvertValue(IntV(1), ty);
    Done(ForState(to, step, if up then Less else Greater, if up then Add else Sub))
  }

  /** The loop test of ContinueLoop: the variable against the bound. */
  function ForTest(st: ForState, x: Value, ty: PrimType): (r: Outcome<bool>)
    ensures !r.Raised?
    ensures r.Done? <==> ForType(ty) && TypeOf(x) == TypeOf(st.to)
    ensures r.Done? ==> ApplyComparison(st.test, x, st.to) == r
  {
    if !ForType(ty) then Unspecified else ApplyComparison(st.test, x, st.to)
  }

  /** The step of ProcessLoopFinish: the variable combined with the step. */
  function ForStep(st: ForState, x: Value, ty: PrimType): (r: Outcome<Value>)
    ensures !ForType(ty) ==> r.Unspecified?
    ensures r.Done? ==> TypeOf(r.value) == TypeOf(x)
    ensures ForType(ty) && x.IntV? && st.step.IntV? && st.stepOp == Add ==> r == Done(IntV(x.i + st.step.i))
    ensures ForType(ty) && x.IntV? && st.step.IntV? && st.stepOp == Sub ==> r == Done(IntV(x.i - st.step.i))
  {
    if !ForType(ty) then Unspecified else ApplyPrimary(st.stepOp, x, Some(st.step))
  }

  /** The frames with the for-loop record of frame `k` replaced. */
  function SetForState(frames: seq<Frame>, k: nat, st: Option<ForState>): (frames': seq<Frame>)
    requires k < |frames|
    ensures |frames'| == |frames| && frames'[k].forState == st
    ensures forall j :: 0 <= j < |frames| ==>
              frames'[j].block == frames[j].block && frames'[j].owner == frames[j].owner &&
              frames'[j].ret == frames[j].ret && frames'[j].vars == frames[j].vars
    ensures forall j :: 0 <= j < |frames| && j != k ==> frames'[j] == frames[j]
  {
    frames[k := frames[k].(forState := st)]
  }

  /** ContinueLoop: a plain loop always goes round again, a while loop
      when its condition holds, a for loop when its variable passes the
      test against the bound recorded one frame down. */
  function ContinueLoop(s: UnitState, o: Oracles, loop: LoopKind): (r: Outcome<bool>)
    ensures loop.PlainLoop? ==> r == Done(true)
    ensures loop.WhileLoop? ==> r == EvalCondition(s, o, loop.cond)
    ensures loop.ForLoop? && r.Done? ==>
              |s.frames| >= 2 && s.frames[|s.frames| - 2].forState.Some? && loop.variable.binding.Some? &&
              IntBlock.LookupVariable(s, loop.variable.binding.value).Done? &&
              r == ForTest(s.frames[|s.frames| - 2].forState.value,
                           IntBlock.LookupVariable(s, loop.variable.binding.value).value,
                           loop.variable.binding.value.ty)
    ensures loop.ForLoop? ==> !r.Raised?
  {
    match loop
    case PlainLoop => Done(true)
    case WhileLoop(cond) => EvalCondition(s, o, cond)
    case ForLoop(v, _, _, _) =>
      if |s.frames| < 2 || s.frames[|s.frames| - 2].forState.None? || v.binding.None? then Unspecified
      else
        var x :- IntBlock.LookupVariable(s, v.binding.value);
        ForTest(s.frames[|s.frames| - 2].forState.value, x, v.binding.value.ty)
  }

  // ---------------------------------------------------------------------
  // Statements

  /** ProcessFunctionCall: the arguments are evaluated, then the unit is
      invoked (in the mode ControlModeForInvokedUnit picks, adopting the
      mode it hands back when that differs) or the plugin function is
      called; a plugin error raises the FFI exception. The call's value is
      discarded. */
  function ProcessFunctionCall(s: UnitState, o: Oracles, c: FunctionCall, i: nat): (r: StepResult)
    requires |s.frames| > 0
    ensures r.Next? ==> r.state.frames == s.frames && r.state.pc == Following(Top(s).block, i) &&
                        r.state.finish == s.finish
    ensures c.target.None? ==> r.Unknown?
    ensures r.Threw? && c.target.value.FFITarget? ==>
              r.exception == FFIFailure ||
              FFIArguments(EnvOf(s, o), c, c.target.value.ffiArgTypes, 0).Raised?
  {
    match c.target
    case None => Unknown
    case Some(UnitTarget(name, inputTypes, _)) =>
      (match UnitArguments(EnvOf(s, o), c, inputTypes, 0)
       case Raised(x) => Threw(s, x)
       case Unspecified => Unknown
       case Done(args) =>
         var mode := ControlModeForInvokedUnit(s.mode);
         var returned := o.unitMode(name, args, mode);
         var s' := if returned != mode then s.(mode := returned) else s;
         var out := o.unitCall(name, args);
         if out.Raised? then Threw(s', out.exception)
         else Next(s'.(pc := Following(Top(s).block, i))))
    case Some(FFITarget(name, argTypes, _)) =>
      (match FFIArguments(EnvOf(s, o), c, argTypes, 0)
       case Raised(x) => Threw(s, x)
       case Unspecified => Unknown
       case Done(args) =>
         if o.ffiCall(name, args).None? then Threw(s, FFIFailure)
         else Next(s.(pc := Following(Top(s).block, i))))
  }

  /** ProcessAssignment: assign, then go on to the next statement. */
  function ProcessAssignment(s: UnitState, o: Oracles, a: Assignment, i: nat): (r: StepResult)
    requires |s.frames| > 0
    ensures r.Next? <==> PerformAssignment(s, o, a).Done?
    ensures r.Next? ==> r.state == PerformAssignment(s, o, a).value.(pc := Following(Top(s).block, i))
    ensures r.Threw? ==> PerformAssignment(s, o, a).Raised? && r.exception == PerformAssignment(s, o, a).exception
  {
    match PerformAssignment(s, o, a)
    case Done(s') => Next(s'.(pc := Following(Top(s).block, i)))
    case Raised(x) => Threw(s, x)
    case Unspecified => Unknown
  }

  /** Whether statement `j` continues an if chain (`elseif` or `else`). */
  predicate IsElse(stmts: seq<Statement>, j: nat)
    requires j < |stmts|
  {
    stmts[j].kind.IfStmt? && stmts[j].kind.isElse
  }

  /** The do-while of ProcessIfStatement: from statement `j` on, the first
      statement that does not continue the if chain, NULL if none does. */
  function AfterElseChain(stmts: seq<Statement>, j: nat): (r: Option<nat>)
    ensures r.Some? ==> j <= r.value < |stmts| && !IsElse(stmts, r.value)
    ensures forall k :: j <= k < |stmts| && (r.None? || k < r.value) ==> IsElse(stmts, k)
    decreases |stmts| - j
  {
    if j >= |stmts| then None
    else if IsElse(stmts, j) then AfterElseChain(stmts, j + 1)
    else Some(j)
  }

  /** ProcessIfStatement: a false guard moves on to the next statement,
      which may continue the chain; a true guard (or a plain `else`) runs
      the body and returns past every `elseif`/`else` that follows. */
  function ProcessIf(s: UnitState, o: Oracles, kind: StmtKind, i: nat): (r: StepResult)
    requires kind.IfStmt? && |s.frames| > 0
    ensures r.Next? && kind.cond.Some? && EvalCondition(s, o, kind.cond.value) == Done(false) ==>
              r.state == s.(pc := Following(Top(s).block, i))
    ensures r.Next? && (kind.cond.None? || EvalCondition(s, o, kind.cond.value) == Done(true)) ==>
              r.state == StartBlock(s, kind.body, Some(kind), AfterElseChain(Top(s).block.stmts, i + 1))
    ensures r.Next? <==> kind.cond.None? || EvalCondition(s, o, kind.cond.value).Done?
    ensures r.Threw? ==> r.state == s && Raised(r.exception) == EvalCondition(s, o, kind.cond.value)
  {
    var enter := Next(StartBlock(s, kind.body, Some(kind), AfterElseChain(Top(s).block.stmts, i + 1)));
    if kind.cond.None? then enter
    else
      match EvalCondition(s, o, kind.cond.value)
      case Done(b) => if b then enter else Next(s.(pc := Following(Top(s).block, i)))
      case Raised(x) => Threw(s, x)
      case Unspecified => Unknown
  }

  /** After the loop test: stay in the body's block or leave it at once. */
  function EnterOrLeave(s: UnitState, go: bool): (r: StepResult)
    requires |s.frames| > 0
    ensures r.Next?
    ensures go ==> r.state == s
    ensures !go ==> r.state == FinishBlock(s)
  {
    if go then Next(s) else Next(FinishBlock(s))
  }

  /** The for-loop part of ProcessLoopStart, with the loop body's frame
      already pushed at `n` over the frame at `n - 1` that holds the loop:
      the record is cleared, the optional initial assignment runs, the
      bound is evaluated once in the variable's type, and the record is
      filled. */
  function SetUpForLoop(s1: UnitState, o: Oracles, loop: LoopKind, n: nat): (r: StepResult)
    requires loop.ForLoop? && |s1.frames| == n + 1 && n > 0
    ensures r.Next? ==> |r.state.frames| == n + 1 && r.state.pc == s1.pc &&
                        r.state.frames[n].owner == s1.frames[n].owner &&
                        r.state.frames[n].ret == s1.frames[n].ret &&
                        r.state.frames[n].block == s1.frames[n].block &&
                        r.state.frames[n - 1].forState.Some? &&
                        r.state.frames[n - 1].forState.value.test == (if loop.up then Less else Greater) &&
                        r.state.frames[n - 1].forState.value.stepOp == (if loop.up then Add else Sub)
    ensures r.Next? ==> SameShape(s1.frames, r.state.frames)
    ensures r.Threw? ==> |r.state.frames| == n + 1
    ensures (r.Next? || r.Threw?) ==> r.state.unitId == s1.unitId && r.state.mode == s1.mode
  {
    var s2 := s1.(frames := SetForState(s1.frames, n - 1, None));
    assert SameShape(s1.frames, s2.frames);
    var s3 := if loop.init.Some? then PerformAssignment(s2, o, loop.init.value) else Done(s2);
    if s3.Raised? then Threw(s2, s3.exception)
    else if s3.Unspecified? || loop.variable.binding.None? then Unknown
    else
      assert SameShape(s2.frames, s3.value.frames);
      var r := FillForState(s3.value, o, loop, n);
      SameShapeTrans(s1.frames, s2.frames, s3.value.frames);
      if r.Next? then SameShapeTrans(s1.frames, s3.value.frames, r.state.frames); r else r
  }

  /** The end of SetUpForLoop: the bound, evaluated once in the variable's
      type, fills the loop record of the frame holding the loop. */
  function FillForState(s: UnitState, o: Oracles, loop: LoopKind, n: nat): (r: StepResult)
    requires loop.ForLoop? && loop.variable.binding.Some? && |s.frames| == n + 1 && n > 0
    ensures r.Next? ==> |r.state.frames| == n + 1 && r.state.pc == s.pc &&
                        r.state.frames[n] == s.frames[n] &&
                        r.state.frames[n - 1].forState.Some? &&
                        r.state.frames[n - 1].forState.value.test == (if loop.up then Less else Greater) &&
                        r.state.frames[n - 1].forState.value.stepOp == (if loop.up then Add else Sub)
    ensures r.Next? ==> SameShape(s.frames, r.state.frames)
    ensures r.Threw? ==> r.state == s
    ensures r.Next? ==> r.state.unitId == s.unitId && r.state.mode == s.mode
  {
    var ty := loop.variable.binding.value.ty;
    match EvalExp(EnvOf(s, o), loop.toExp, ty)
    case Raised(x) => Threw(s, x)
    case Unspecified => Unknown
    case Done(to) =>
      match ForSetup(to, ty, loop.up)
      case Done(st) => Next(s.(frames := SetForState(s.frames, n - 1, Some(st))))
      case _ => Unknown
  }

  /** ProcessLoopStart: start the body's block (returning to the statement
      after the loop), set a for loop up in the frame that holds it, and
      leave the block at once if the first test fails. */
  function ProcessLoopStart(s: UnitState, o: Oracles, kind: StmtKind, i: nat): (r: StepResult)
    requires kind.LoopStmt? && |s.frames| > 0
    ensures r.Next? ==> |r.state.frames| == |s.frames| || |r.state.frames| == |s.frames| + 1
    ensures r.Next? && |r.state.frames| == |s.frames| + 1 ==>
              r.state.frames[|s.frames|].owner == Some(kind) && r.state.pc == FirstStatement(kind.body)
    ensures r.Next? && |r.state.frames| == |s.frames| ==> r.state.pc == Following(Top(s).block, i)
    ensures r.Next? && kind.loop.ForLoop? ==>
              r.state.frames[|s.frames| - 1].forState.Some? &&
              r.state.frames[|s.frames| - 1].forState.value.test == (if kind.loop.up then Less else Greater)
    ensures kind.loop.PlainLoop? ==> r == Next(StartBlock(s, kind.body, Some(kind), Following(Top(s).block, i)))
  {
    var s1 := StartBlock(s, kind.body, Some(kind), Following(Top(s).block, i));
    match kind.loop
    case ForLoop(_, _, _, _) =>
      (match SetUpForLoop(s1, o, kind.loop, |s.frames|)
       case Next(s4) =>
         (match ContinueLoop(s4, o, kind.loop)
          case Done(go) => EnterOrLeave(s4, go)
          case _ => Unknown)
       case other => other)
    case PlainLoop => Next(s1)
    case WhileLoop(cond) =>
      match EvalCondition(s1, o, cond)
      case Done(go) => EnterOrLeave(s1, go)
      case Raised(x) => Threw(s1, x)
      case Unspecified => Unknown
  }

  /** The test's answer at the end of a loop body: go round from the
      body's first statement, or leave the body's block. `s1` is `s` with
      only slots and loop records changed. */
  function RoundOrLeave(s: UnitState, s1: UnitState, kind: StmtKind, go: bool): (r: StepResult)
    requires kind.LoopStmt? && |s.frames| > 0 && SameShape(s.frames, s1.frames)
    ensures r.Next? ==> |r.state.frames| == |s.frames| || |r.state.frames| == |s.frames| - 1
    ensures r.Next? && |r.state.frames| == |s.frames| ==> r.state.pc == FirstStatement(kind.body)
    ensures r.Next? && |r.state.frames| == |s.frames| - 1 ==> r.state.pc == Top(s).ret
    ensures r.Next? ==> forall k :: 0 <= k < |r.state.frames| ==>
                          r.state.frames[k].block == s.frames[k].block &&
                          r.state.frames[k].owner == s.frames[k].owner && r.state.frames[k].ret == s.frames[k].ret
  {
    if go then Next(s1.(pc := FirstStatement(kind.body))) else Next(FinishBlock(s1))
  }

  /** The for-loop case of ProcessLoopFinish: the loop record sits in the
      frame under the body's; the variable is stepped, written back and
      tested. */
  function StepForLoop(s: UnitState, o: Oracles, kind: StmtKind): (r: StepResult)
    requires kind.LoopStmt? && kind.loop.ForLoop? && |s.frames| > 0
    ensures r.Next? ==> |r.state.frames| == |s.frames| || |r.state.frames| == |s.frames| - 1
    ensures r.Next? && |r.state.frames| == |s.frames| ==> r.state.pc == FirstStatement(kind.body)
    ensures r.Next? && |r.state.frames| == |s.frames| - 1 ==> r.state.pc == Top(s).ret
    ensures r.Next? ==> forall k :: 0 <= k < |r.state.frames| ==>
                          r.state.frames[k].block == s.frames[k].block &&
                          r.state.frames[k].owner == s.frames[k].owner && r.state.frames[k].ret == s.frames[k].ret
  {
    match ForRound(s, o, kind.loop)
    case Done(p) => RoundOrLeave(s, p.0, kind, p.1)
    case Raised(x) => Threw(s, x)
    case Unspecified => Unknown
  }

  /** The step and the test of a for loop's round: the state with the
      stepped variable written back, and the test's answer. The loop record
      sits in the frame under the body's. */
  function ForRound(s: UnitState, o: Oracles, loop: LoopKind): (r: Outcome<(UnitState, bool)>)
    requires loop.ForLoop?
    ensures r.Done? ==> SameShape(s.frames, r.value.0.frames) && r.value.0 == s.(frames := r.value.0.frames)
  {
    var v := loop.variable;
    if |s.frames| < 2 || s.frames[|s.frames| - 2].forState.None? || v.binding.None? then Unspecified
    else
      var b := v.binding.value;
      var st := s.frames[|s.frames| - 2].forState.value;
      match IntBlock.LookupVariable(s, b)
      case Done(x) =>
        (match ForStep(st, x, b.ty)
         case Done(y) =>
           var s1 := s.(frames := WriteSlot(s.frames, b, y));
           assert SameShape(s.frames, s1.frames);
           (match ContinueLoop(s1, o, loop)
            case Done(go) => Done((s1, go))
            case _ => Unspecified)
         case Raised(x) => Raised(x)
         case Unspecified => Unspecified)
      case _ => Unspecified
  }

  /** ProcessLoopFinish, with the loop's frame on top: step a for loop's
      variable, then test again; go round from the body's first statement
      or leave the block. */
  function ProcessLoopFinish(s: UnitState, o: Oracles, kind: StmtKind): (r: StepResult)
    requires kind.LoopStmt? && |s.frames| > 0
    ensures r.Next? ==> |r.state.frames| == |s.frames| || |r.state.frames| == |s.frames| - 1
    ensures r.Next? && |r.state.frames| == |s.frames| ==> r.state.pc == FirstStatement(kind.body)
    ensures r.Next? && |r.state.frames| == |s.frames| - 1 ==> r.state.pc == Top(s).ret
    ensures r.Next? ==> forall k :: 0 <= k < |r.state.frames| ==>
                          r.state.frames[k].block == s.frames[k].block &&
                          r.state.frames[k].owner == s.frames[k].owner && r.state.frames[k].ret == s.frames[k].ret
  {
    match kind.loop
    case ForLoop(_, _, _, _) => StepForLoop(s, o, kind)
    case PlainLoop => Next(s.(pc := FirstStatement(kind.body)))
    case WhileLoop(cond) =>
      match EvalCondition(s, o, cond)
      case Done(go) => RoundOrLeave(s, s, kind, go)
      case Raised(x) => Threw(s, x)
      case Unspecified => Unknown
  }

  /** The unwinding of `continue` and `break`: finish blocks until the
      current block is a loop body. A block without a parent statement (the
      unit's or an action's own block) is a NULL dereference. */
  function UnwindToLoop(s: UnitState): (r: Option<UnitState>)
    ensures r.Some? ==> 0 < |r.value.frames| <= |s.frames| &&
                        r.value.frames == s.frames[..|r.value.frames|] &&
                        Top(r.value).owner.Some? && Top(r.value).owner.value.LoopStmt?
    ensures r.Some? ==> forall k :: |r.value.frames| <= k < |s.frames| ==>
                          s.frames[k].owner.Some? && !s.frames[k].owner.value.LoopStmt?
    ensures r.Some? ==> r.value.mode == s.mode && r.value.finish == s.finish && r.value.unitId == s.unitId
    ensures r.Some? && |r.value.frames| < |s.frames| ==> r.value.pc == s.frames[|r.value.frames|].ret
    ensures r.Some? && |r.value.frames| == |s.frames| ==> r.value == s
    decreases |s.frames|
  {
    if |s.frames| == 0 || Top(s).owner.None? then None
    else if Top(s).owner.value.LoopStmt? then Some(s)
    else
      var r := UnwindToLoop(FinishBlock(s));
      if r.Some? then
        assert FinishBlock(s).frames == s.frames[..|s.frames| - 1];
        r
      else r
  }

  /** ProcessLoopContinue: unwind to the loop body, then step and test. */
  function ProcessContinue(s: UnitState, o: Oracles): (r: StepResult)
    ensures UnwindToLoop(s).None? ==> r.Unknown?
    ensures UnwindToLoop(s).Some? ==> r == ProcessLoopFinish(UnwindToLoop(s).value, o, Top(UnwindToLoop(s).value).owner.value)
  {
    match UnwindToLoop(s)
    case None => Unknown
    case Some(s') => ProcessLoopFinish(s', o, Top(s').owner.value)
  }

  /** ProcessLoopBreak: unwind to the loop body and leave it too, resuming
      after the loop statement. */
  function ProcessBreak(s: UnitState): (r: StepResult)
    ensures UnwindToLoop(s).None? ==> r.Unknown?
    ensures r.Next? ==> exists k :: 0 <= k < |s.frames| && s.frames[k].owner.Some? && s.frames[k].owner.value.LoopStmt? &&
                          r.state.frames == s.frames[..k] && r.state.pc == s.frames[k].ret &&
                          forall j :: k < j < |s.frames| ==> s.frames[j].owner.Some? && !s.frames[j].owner.value.LoopStmt?
  {
    match UnwindToLoop(s)
    case None => Unknown
    case Some(s') =>
      var k := |s'.frames| - 1;
      assert s.frames[k] == s'.frames[k];
      Next(FinishBlock(s'))
  }

  /** The unwinding of ProcessFinish: finish blocks while the depth is
      above 0. The unit's own frame stays for the caller to finish. */
  function UnwindToBase(s: UnitState): (r: UnitState)
    ensures |s.frames| <= 1 ==> r == s
    ensures |s.frames| > 1 ==> r.frames == s.frames[..1] && r.pc == s.frames[1].ret
    ensures r.mode == s.mode && r.finish == s.finish && r.unitId == s.unitId && r.location == s.location
    decreases |s.frames|
  {
    if |s.frames| <= 1 then s
    else
      var r := UnwindToBase(FinishBlock(s));
      assert |s.frames| > 2 ==> FinishBlock(s).frames[..1] == s.frames[..1];
      r
  }

  /** ProcessFinish: unwind to the unit's own block, clear the current
      statement and set the FINISH flag. */
  function ProcessFinish(s: UnitState): (r: StepResult)
    ensures r.Next? && r.state.pc.None? && r.state.finish
    ensures |r.state.frames| == if |s.frames| == 0 then 0 else 1
    ensures |s.frames| > 0 ==> r.state.frames[0] == s.frames[0]
    ensures r.state.mode == s.mode && r.state.unitId == s.unitId
  {
    Next(UnwindToBase(s).(pc := None, finish := true))
  }

  /** The loop closing TSInt_ProcessStatement: while the current statement
      is NULL above depth 0, a loop body goes round (ProcessLoopFinish) and
      any other block is finished. A loop whose body is empty goes round
      here without returning; `fuel` bounds those rounds. */
  function Settle(s: UnitState, o: Oracles, fuel: nat): (r: StepResult)
    ensures r.Next? ==> r.state.pc.Some? || |r.state.frames| <= 1
    ensures r.Next? ==> |r.state.frames| <= |s.frames|
    ensures r.Next? ==> r.state.finish == s.finish
    ensures s.pc.Some? || |s.frames| <= 1 ==> r == Next(s)
    decreases fuel, |s.frames|, 1
  {
    if s.pc.Some? || |s.frames| <= 1 then Next(s)
    else if Top(s).owner.Some? && Top(s).owner.value.LoopStmt? then
      if fuel == 0 then Unknown
      else SettleAfterLoop(ProcessLoopFinish(s, o, Top(s).owner.value), o, fuel)
    else Settle(FinishBlock(s), o, fuel)
  }

  /** Settle once a loop's end has been processed: keep settling from the
      state it gave, on one unit of fuel less, or stop with its outcome. */
  function SettleAfterLoop(step: StepResult, o: Oracles, fuel: nat): (r: StepResult)
    requires fuel > 0
    ensures r.Next? ==> step.Next? && (r.state.pc.Some? || |r.state.frames| <= 1)
    ensures r.Next? ==> |r.state.frames| <= |step.state.frames| && r.state.finish == step.state.finish
    ensures !step.Next? ==> r == step
    decreases fuel, 0, 0
  {
    match step
    case Next(s') => Settle(s', o, fuel - 1)
    case other => other
  }

  /** The statement the current-statement pointer designates. */
  function Current(s: UnitState): Statement
    requires PcValid(s) && s.pc.Some?
  {
    Top(s).block.stmts[s.pc.value]
  }

  /** TSInt_ProcessStatement: run the current statement, then settle. */
  function ProcessStatement(s: UnitState, o: Oracles, fuel: nat): (r: StepResult)
    requires PcValid(s) && s.pc.Some?
    ensures r.Next? ==> r.state.pc.Some? || |r.state.frames| <= 1
  {
    match RunCurrent(s, o)
    case Next(s') => Settle(s', o, fuel)
    case other => other
  }

  /** The current statement's own step, before the settling loop. */
  function RunCurrent(s: UnitState, o: Oracles): (r: StepResult)
    requires PcValid(s) && s.pc.Some?
  {
    var i := s.pc.value;
    var kind := Current(s).kind;
    match kind
    case CallStmt(c) => ProcessFunctionCall(s, o, c, i)
    case AssignStmt(a) => ProcessAssignment(s, o, a, i)
    case IfStmt(_, _, _) => ProcessIf(s, o, kind, i)
    case LoopStmt(_, _) => ProcessLoopStart(s, o, kind, i)
    case ContinueStmt => ProcessContinue(s, o)
    case BreakStmt => ProcessBreak(s)
    case FinishStmt => ProcessFinish(s)
  }

  // ---------------------------------------------------------------------
  // Properties

  /** How many times a for loop enters its body from variable value `x`:
      the test and the step ContinueLoop and ProcessLoopFinish apply,
      repeated until the test fails (`fuel` bounds the rounds). */
  function ForIterations(st: ForState, x: Value, ty: PrimType, fuel: nat): (r: Outcome<nat>)
    decreases fuel
  {
    match ForTest(st, x, ty)
    case Done(go) =>
      if !go then Done(0)
      else if fuel == 0 then Unspecified
      else
        (match ForStep(st, x, ty)
         case Done(y) =>
           var n :- ForIterations(st, y, ty, fuel - 1);
           Done(n + 1)
         case Raised(e) => Raised(e)
         case Unspecified => Unspecified)
    case _ => Unspecified
  }

  /** `for i = a to b` enters its body b - a times, none when a >= b: the
      bound is exclusive. */
  lemma {:induction false} ForCountsUp(a: int, b: int, fuel: nat)
    requires fuel >= b - a
    ensures ForSetup(IntV(b), Int, true).Done?
    ensures ForIterations(ForSetup(IntV(b), Int, true).value, IntV(a), Int, fuel) ==
            Done(if a < b then b - a else 0)
    decreases fuel
  {
    var st := ForSetup(IntV(b), Int, true).value;
    if a < b {
      assert ForStep(st, IntV(a), Int) == Done(IntV(a + 1));
      ForCountsUp(a + 1, b, fuel - 1);
    }
  }

  /** `for i = a downto b` enters its body a - b times, none when a <= b. */
  lemma {:induction false} ForCountsDown(a: int, b: int, fuel: nat)
    requires fuel >= a - b
    ensures ForSetup(IntV(b), Int, false).Done?
    ensures ForIterations(ForSetup(IntV(b), Int, false).value, IntV(a), Int, fuel) ==
            Done(if a > b then a - b else 0)
    decreases fuel
  {
    var st := ForSetup(IntV(b), Int, false).value;
    if a > b {
      assert ForStep(st, IntV(a), Int) == Done(IntV(a - 1));
      ForCountsDown(a - 1, b, fuel - 1);
    }
  }

  /** The end of a for loop's body steps the variable, then tests the new
      value against the bound: one round of ForIterations. */
  lemma ForLoopFinishStepsThenTests(s: UnitState, o: Oracles, kind: StmtKind, x: Value)
    requires kind.LoopStmt? && kind.loop.ForLoop? && kind.loop.variable.binding.Some?
    requires |s.frames| >= 2 && s.frames[|s.frames| - 2].forState.Some?
    requires IntBlock.LookupVariable(s, kind.loop.variable.binding.value) == Done(x)
    ensures var b := kind.loop.variable.binding.value;
            var st := s.frames[|s.frames| - 2].forState.value;
            var r := ProcessLoopFinish(s, o, kind);
            ForStep(st, x, b.ty).Done? && ForTest(st, ForStep(st, x, b.ty).value, b.ty).Done? ==>
              var s1 := s.(frames := WriteSlot(s.frames, b, ForStep(st, x, b.ty).value));
              r == (if ForTest(st, ForStep(st, x, b.ty).value, b.ty).value
                    then Next(s1.(pc := FirstStatement(kind.body)))
                    else Next(FinishBlock(s1)))
    ensures var b := kind.loop.variable.binding.value;
            var st := s.frames[|s.frames| - 2].forState.value;
            ForStep(st, x, b.ty).Raised? ==> ProcessLoopFinish(s, o, kind) == Threw(s, ForStep(st, x, b.ty).exception)
  {
    ForRoundStepsThenTests(s, o, kind.loop, x);
  }

  /** ForLoopFinishStepsThenTests for the round itself: the stepped value is
      written back and the test runs on the state holding it. */
  lemma ForRoundStepsThenTests(s: UnitState, o: Oracles, loop: LoopKind, x: Value)
    requires loop.ForLoop? && loop.variable.binding.Some?
    requires |s.frames| >= 2 && s.frames[|s.frames| - 2].forState.Some?
    requires IntBlock.LookupVariable(s, loop.variable.binding.value) == Done(x)
    ensures var b := loop.variable.binding.value;
            var st := s.frames[|s.frames| - 2].forState.value;
            ForStep(st, x, b.ty).Done? && ForTest(st, ForStep(st, x, b.ty).value, b.ty).Done? ==>
              ForRound(s, o, loop) ==
                Done((s.(frames := WriteSlot(s.frames, b, ForStep(st, x, b.ty).value)),
                      ForTest(st, ForStep(st, x, b.ty).value, b.ty).value))
    ensures var b := loop.variable.binding.value;
            var st := s.frames[|s.frames| - 2].forState.value;
            ForStep(st, x, b.ty).Raised? ==> ForRound(s, o, loop) == Raised(ForStep(st, x, b.ty).exception)
  {
    var b := loop.variable.binding.value;
    var st := s.frames[|s.frames| - 2].forState.value;
    if ForStep(st, x, b.ty).Done? {
      var y := ForStep(st, x, b.ty).value;
      var s1 := s.(frames := WriteSlot(s.frames, b, y));
      assert IntBlock.LookupVariable(s1, b) == Done(y);
      assert s1.frames[|s1.frames| - 2].forState == Some(st);
    }
  }

  /** A while loop tests its condition again at the end of every round:
      it goes round while the condition holds and leaves when it fails. */
  lemma WhileRetests(s: UnitState, o: Oracles, kind: StmtKind)
    requires kind.LoopStmt? && kind.loop.WhileLoop? && |s.frames| > 0
    ensures EvalCondition(s, o, kind.loop.cond) == Done(true) ==>
              ProcessLoopFinish(s, o, kind) == Next(s.(pc := FirstStatement(kind.body)))
    ensures EvalCondition(s, o, kind.loop.cond) == Done(false) ==>
              ProcessLoopFinish(s, o, kind) == Next(FinishBlock(s))
    ensures EvalCondition(s, o, kind.loop.cond).Raised? ==>
              ProcessLoopFinish(s, o, kind) == Threw(s, EvalCondition(s, o, kind.loop.cond).exception)
  {
  }

  /** A plain loop only ends through break or finish: the end of its body
      always goes round again. */
  lemma PlainLoopRepeats(s: UnitState, o: Oracles, kind: StmtKind)
    requires kind.LoopStmt? && kind.loop.PlainLoop? && |s.frames| > 0
    ensures ProcessLoopFinish(s, o, kind) == Next(s.(pc := FirstStatement(kind.body)))
  {
  }

  /** `finish` ends the unit from any depth: only the unit's own frame is
      left, nothing is current, and the FINISH flag is set. */
  lemma FinishStatementEndsUnit(s: UnitState, o: Oracles, fuel: nat)
    requires PcValid(s) && s.pc.Some? && Current(s).kind.FinishStmt?
    ensures var r := ProcessStatement(s, o, fuel);
            r.Next? && r.state.finish && r.state.pc.None? &&
            r.state.frames == s.frames[..1] && r.state.mode == s.mode
  {
    var u := UnwindToBase(s);
    assert ProcessFinish(s) == Next(u.(pc := None, finish := true));
    if |s.frames| == 1 {
      assert s.frames[..1] == s.frames;
    }
  }

  /** Leaving blocks for `continue` or `break` keeps a well-formed state
      well formed. */
  lemma {:induction false} UnwindToLoopValid(s: UnitState)
    requires Valid(s)
    ensures UnwindToLoop(s).Some? ==> Valid(UnwindToLoop(s).value)
    decreases |s.frames|
  {
    if |s.frames| > 0 && Top(s).owner.Some? && !Top(s).owner.value.LoopStmt? {
      FinishBlockValid(s);
      UnwindToLoopValid(FinishBlock(s));
    }
  }

  /** A loop's end keeps a well-formed state well formed. */
  lemma LoopFinishValid(s: UnitState, o: Oracles, kind: StmtKind)
    requires Valid(s) && |s.frames| > 0 && Top(s).owner == Some(kind) && kind.LoopStmt?
    ensures ProcessLoopFinish(s, o, kind).Next? ==> Valid(ProcessLoopFinish(s, o, kind).state)
  {
    match kind.loop {
      case ForLoop(_, _, _, _) =>
        StepForLoopValid(s, o, kind);
      case PlainLoop =>
      case WhileLoop(cond) =>
        match EvalCondition(s, o, cond) {
          case Done(go) => RoundOrLeaveValid(s, s, kind, go);
          case _ =>
        }
    }
  }

  lemma StepForLoopValid(s: UnitState, o: Oracles, kind: StmtKind)
    requires Valid(s) && |s.frames| > 0 && Top(s).owner == Some(kind) && kind.LoopStmt? && kind.loop.ForLoop?
    ensures StepForLoop(s, o, kind).Next? ==> Valid(StepForLoop(s, o, kind).state)
  {
    match ForRound(s, o, kind.loop) {
      case Done(p) =>
        SameShapeValid(s, p.0.frames);
        RoundOrLeaveValid(s, p.0, kind, p.1);
      case _ =>
    }
  }

  /** Going round or leaving keeps a well-formed state well formed. */
  lemma RoundOrLeaveValid(s: UnitState, s1: UnitState, kind: StmtKind, go: bool)
    requires kind.LoopStmt? && |s.frames| > 0 && SameShape(s.frames, s1.frames) && Top(s).owner == Some(kind)
    requires Valid(s) && Valid(s1)
    ensures Valid(RoundOrLeave(s, s1, kind, go).state)
  {
    if !go {
      FinishBlockValid(s1);
    }
  }

  /** The loop closing a step keeps a well-formed state well formed. */
  lemma {:induction false} SettleValid(s: UnitState, o: Oracles, fuel: nat)
    requires Valid(s)
    ensures Settle(s, o, fuel).Next? ==> Valid(Settle(s, o, fuel).state)
    decreases fuel, |s.frames|, 1
  {
    if s.pc.None? && |s.frames| > 1 {
      if Top(s).owner.Some? && Top(s).owner.value.LoopStmt? {
        SettleLoopValid(s, o, fuel);
      } else {
        FinishBlockValid(s);
        SettleValid(FinishBlock(s), o, fuel);
      }
    }
  }

  /** SettleValid when a loop's body block is on top. */
  lemma {:induction false} SettleLoopValid(s: UnitState, o: Oracles, fuel: nat)
    requires Valid(s) && s.pc.None? && |s.frames| > 1 && Top(s).owner.Some? && Top(s).owner.value.LoopStmt?
    ensures Settle(s, o, fuel).Next? ==> Valid(Settle(s, o, fuel).state)
    decreases fuel, |s.frames|, 0
  {
    if fuel > 0 {
      LoopFinishValid(s, o, Top(s).owner.value);
      SettleAfterLoopValid(ProcessLoopFinish(s, o, Top(s).owner.value), o, fuel);
    }
  }

  /** SettleValid once the loop's end has been processed. */
  lemma {:induction false} SettleAfterLoopValid(step: StepResult, o: Oracles, fuel: nat)
    requires fuel > 0 && (step.Next? ==> Valid(step.state))
    ensures SettleAfterLoop(step, o, fuel).Next? ==> Valid(SettleAfterLoop(step, o, fuel).state)
    decreases fuel, 0, 0
  {
    if step.Next? {
      SettleValid(step.state, o, fuel - 1);
    }
  }

  /** A loop's start keeps a well-formed state well formed. */
  lemma LoopStartValid(s: UnitState, o: Oracles, kind: StmtKind, i: nat)
    requires Valid(s) && |s.frames| > 0 && kind.LoopStmt? && i < |Top(s).block.stmts|
    ensures ProcessLoopStart(s, o, kind, i).Next? ==> Valid(ProcessLoopStart(s, o, kind, i).state)
  {
    var r := ProcessLoopStart(s, o, kind, i);
    var s1 := StartBlock(s, kind.body, Some(kind), Following(Top(s).block, i));
    StartBlockValid(s, kind.body, Some(kind), Following(Top(s).block, i));
    match kind.loop {
      case ForLoop(_, _, _, _) =>
        var u := SetUpForLoop(s1, o, kind.loop, |s.frames|);
        if u.Next? {
          SameShapeValid(s1, u.state.frames);
          assert Valid(u.state);
          match ContinueLoop(u.state, o, kind.loop) {
            case Done(go) =>
              assert r == EnterOrLeave(u.state, go);
              FinishBlockValid(u.state);
            case _ =>
          }
        }
      case PlainLoop =>
      case WhileLoop(cond) =>
        match EvalCondition(s1, o, cond) {
          case Done(go) =>
            assert r == EnterOrLeave(s1, go);
            FinishBlockValid(s1);
          case _ =>
        }
    }
  }

  /** Every statement keeps the state well formed: the current statement
      and every return statement designate statements of the right block,
      and every if or loop frame runs that statement's body. */
  lemma ProcessStatementValid(s: UnitState, o: Oracles, fuel: nat)
    requires Valid(s) && s.pc.Some?
    ensures ProcessStatement(s, o, fuel).Next? ==> Valid(ProcessStatement(s, o, fuel).state)
  {
    var step := RunCurrent(s, o);
    RunCurrentValid(s, o);
    if step.Next? {
      SettleValid(step.state, o, fuel);
    }
  }

  /** The current statement's own step keeps the state well formed. */
  lemma RunCurrentValid(s: UnitState, o: Oracles)
    requires Valid(s) && s.pc.Some?
    ensures RunCurrent(s, o).Next? ==> Valid(RunCurrent(s, o).state)
  {
    var i := s.pc.value;
    var kind := Current(s).kind;
    match kind {
      case CallStmt(c) => CallValid(s, o, c, i);
      case AssignStmt(a) => AssignValid(s, o, a, i);
      case IfStmt(_, _, _) => IfValid(s, o, kind, i);
      case LoopStmt(_, _) => LoopStartValid(s, o, kind, i);
      case ContinueStmt => ContinueValid(s, o);
      case BreakStmt => BreakValid(s);
      case FinishStmt => FinishValid(s);
    }
  }

  lemma CallValid(s: UnitState, o: Oracles, c: FunctionCall, i: nat)
    requires Valid(s) && s.pc == Some(i)
    ensures ProcessFunctionCall(s, o, c, i).Next? ==> Valid(ProcessFunctionCall(s, o, c, i).state)
  {
  }

  lemma AssignValid(s: UnitState, o: Oracles, a: Assignment, i: nat)
    requires Valid(s) && s.pc == Some(i)
    ensures ProcessAssignment(s, o, a, i).Next? ==> Valid(ProcessAssignment(s, o, a, i).state)
  {
    if ProcessAssignment(s, o, a, i).Next? {
      SameShapeValid(s, PerformAssignment(s, o, a).value.frames);
    }
  }

  lemma IfValid(s: UnitState, o: Oracles, kind: StmtKind, i: nat)
    requires Valid(s) && s.pc == Some(i) && Current(s).kind == kind && kind.IfStmt?
    ensures ProcessIf(s, o, kind, i).Next? ==> Valid(ProcessIf(s, o, kind, i).state)
  {
    StartBlockValid(s, kind.body, Some(kind), AfterElseChain(Top(s).block.stmts, i + 1));
  }

  lemma ContinueValid(s: UnitState, o: Oracles)
    requires Valid(s)
    ensures ProcessContinue(s, o).Next? ==> Valid(ProcessContinue(s, o).state)
  {
    UnwindToLoopValid(s);
    if UnwindToLoop(s).Some? {
      LoopFinishValid(UnwindToLoop(s).value, o, Top(UnwindToLoop(s).value).owner.value);
    }
  }

  lemma BreakValid(s: UnitState)
    requires Valid(s)
    ensures ProcessBreak(s).Next? ==> Valid(ProcessBreak(s).state)
  {
    UnwindToLoopValid(s);
    if UnwindToLoop(s).Some? {
      FinishBlockValid(UnwindToLoop(s).value);
    }
  }

  lemma FinishValid(s: UnitState)
    requires Valid(s)
    ensures Valid(ProcessFinish(s).state)
  {
    assert ProcessFinish(s).state.frames == s.frames[..|ProcessFinish(s).state.frames|];
  }
}
