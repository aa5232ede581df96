/** The execution stack of a running unit (ts/api/tsint/source/block.c),
    variable addressing (variable.c) and assignment (assignment.c).

    A frame is pushed for every block that starts running: the unit's
    global block, an action's block, an if body or a loop body. The C
    keeps a "current statement" pointer into the current block's list; here
    it is the index of a statement of the top frame's block, None standing
    for NULL. */
module IntBlock {
  import opened Wrappers
  import opened DefTypes
  import opened Def
  import opened IntValue
  import opened IntFFI
  import opened ExpEval

  /** TSINT_CONTROL_*: how the controller wants the unit run. */
  datatype Mode = Run | Step | StepInto | Halt

  /** TSInt_ControlModeForInvokedUnit: a unit invoked from a unit that is
      run or single-stepped runs through; stepping into it steps into it,
      and a halt stays a halt. */
  function ControlModeForInvokedUnit(m: Mode): (r: Mode)
    ensures r != Step
    ensures m != Step ==> r == m
    ensures m == Step ==> r == Run
  {
    match m
    case Run => Run
    case Step => Run
    case StepInto => StepInto
    case Halt => Halt
  }

  /** Choosing the mode twice chooses the same mode. */
  lemma ControlModeIdempotent(m: Mode)
    ensures ControlModeForInvokedUnit(ControlModeForInvokedUnit(m)) == ControlModeForInvokedUnit(m)
  {
  }

  /** The statement_data.for_loop record: the bound, the step, the test and
      the step operator fixed when the loop starts. */
  datatype ForState = ForState(to: Value, step: Value, test: ComparisonOp, stepOp: PrimaryOp)

  /** struct tsint_execution_stack. `owner` is the block's parent statement
      (None for a unit's global block and an action's block); `ret` is the
      return statement, an index into the block of the frame below. A loop's
      ForState is kept in the frame of the block that holds the loop, one
      below the loop's own frame, as the C keeps it at depth - 1. */
  datatype Frame = Frame(block: Block, owner: Option<StmtKind>, ret: Option<nat>,
                         vars: seq<Option<Value>>, forState: Option<ForState>)

  /** The parts of struct tsint_unit_state the statement stepper uses. */
  datatype UnitState = UnitState(frames: seq<Frame>, pc: Option<nat>, location: nat,
                                 mode: Mode, finish: bool, unitId: nat)

  /** What the interpreter cannot see: the result of invoking a unit or a
      plugin function, and the control mode a nested unit hands back. */
  datatype Oracles = Oracles(unitCall: (string, seq<Value>) -> Outcome<Value>,
                             ffiCall: (string, seq<FFIValue>) -> Option<FFIValue>,
                             unitMode: (string, seq<Value>, Mode) -> Mode)

  /** The statement the current-statement pointer designates. */
  predicate PcValid(s: UnitState)
  {
    s.pc.Some? ==> |s.frames| > 0 && s.pc.value < |s.frames[|s.frames| - 1].block.stmts|
  }

  /** A frame's return statement lies in the block of the frame below. */
  predicate ReturnsValid(frames: seq<Frame>)
  {
    forall k :: 0 <= k < |frames| && frames[k].ret.Some? ==>
      k > 0 && frames[k].ret.value < |frames[k - 1].block.stmts|
  }

  /** A frame with a parent statement runs that if's or loop's body. */
  predicate OwnersValid(frames: seq<Frame>)
  {
    forall k :: 0 <= k < |frames| && frames[k].owner.Some? ==>
      (frames[k].owner.value.IfStmt? || frames[k].owner.value.LoopStmt?) &&
      frames[k].owner.value.body == frames[k].block
  }

  predicate Valid(s: UnitState)
  {
    PcValid(s) && ReturnsValid(s.frames) && OwnersValid(s.frames)
  }

  /** The first statement of a block, NULL for an empty block. */
  function FirstStatement(b: Block): (pc: Option<nat>)
    ensures pc.Some? <==> |b.stmts| > 0
    ensures pc.Some? ==> pc.value == 0
  {
    if |b.stmts| > 0 then Some(0) else None
  }

  /** The variable slots of every frame, by depth: what evaluation reads. */
  function Slots(frames: seq<Frame>): (slots: seq<seq<Option<Value>>>)
    ensures |slots| == |frames|
    ensures forall k :: 0 <= k < |frames| ==> slots[k] == frames[k].vars
  {
    seq(|frames|, k requires 0 <= k < |frames| => frames[k].vars)
  }

  function EnvOf(s: UnitState, o: Oracles): (env: Env)
    ensures env.slots == Slots(s.frames)
  {
    Env(Slots(s.frames), o.unitCall, o.ffiCall)
  }

  /** TSInt_StartBlock: push a frame for `b` whose slots are all
      uninitialized, remember the return statement, and make the block's
      first statement current. The new frame's depth is 0 on an empty
      stack and one more than the top otherwise. */
  function StartBlock(s: UnitState, b: Block, owner: Option<StmtKind>, ret: Option<nat>): (s': UnitState)
    ensures |s'.frames| == |s.frames| + 1 && s'.frames[..|s.frames|] == s.frames
    ensures var top := s'.frames[|s.frames|];
            top.block == b && top.owner == owner && top.ret == ret && top.forState.None? &&
            |top.vars| == |b.vars| && forall i :: 0 <= i < |top.vars| ==> top.vars[i].None?
    ensures s'.pc == FirstStatement(b)
    ensures s'.mode == s.mode && s'.finish == s.finish && s'.unitId == s.unitId && s'.location == s.location
  {
    var top := Frame(b, owner, ret, seq(|b.vars|, _ => None), None);
    s.(frames := s.frames + [top], pc := FirstStatement(b))
  }

  /** TSInt_FinishBlock: pop the top frame and return to its return
      statement. Releasing the frame's values and the for-loop bounds is
      memory management and has no counterpart here. */
  function FinishBlock(s: UnitState): (s': UnitState)
    requires |s.frames| > 0
    ensures s'.frames == s.frames[..|s.frames| - 1]
    ensures s'.pc == s.frames[|s.frames| - 1].ret
    ensures s'.mode == s.mode && s'.finish == s.finish && s'.unitId == s.unitId && s'.location == s.location
  {
    s.(frames := s.frames[..|s.frames| - 1], pc := s.frames[|s.frames| - 1].ret)
  }

  /** Starting a block and finishing it again restores the stack and
      resumes at the return statement. */
  lemma StartThenFinish(s: UnitState, b: Block, owner: Option<StmtKind>, ret: Option<nat>)
    ensures FinishBlock(StartBlock(s, b, owner, ret)) == s.(pc := ret)
  {
    var s' := StartBlock(s, b, owner, ret);
    assert s'.frames[..|s'.frames| - 1] == s.frames;
  }

  /** Starting a block whose return statement follows in the current block
      keeps the state well formed. */
  lemma StartBlockValid(s: UnitState, b: Block, owner: Option<StmtKind>, ret: Option<nat>)
    requires Valid(s)
    requires ret.Some? ==> |s.frames| > 0 && ret.value < |s.frames[|s.frames| - 1].block.stmts|
    requires owner.Some? ==> (owner.value.IfStmt? || owner.value.LoopStmt?) && owner.value.body == b
    ensures Valid(StartBlock(s, b, owner, ret))
  {
    var s' := StartBlock(s, b, owner, ret);
    forall k | 0 <= k < |s'.frames| && s'.frames[k].ret.Some?
      ensures k > 0 && s'.frames[k].ret.value < |s'.frames[k - 1].block.stmts|
    {
      if k < |s.frames| {
        assert s'.frames[k] == s.frames[k];
        assert s'.frames[k - 1] == s.frames[k - 1];
      }
    }
    forall k | 0 <= k < |s'.frames| && s'.frames[k].owner.Some?
      ensures (s'.frames[k].owner.value.IfStmt? || s'.frames[k].owner.value.LoopStmt?) &&
              s'.frames[k].owner.value.body == s'.frames[k].block
    {
      if k < |s.frames| {
        assert s'.frames[k] == s.frames[k];
      }
    }
  }

  /** Finishing a block of a well-formed state leaves a well-formed state. */
  lemma FinishBlockValid(s: UnitState)
    requires Valid(s) && |s.frames| > 0
    ensures Valid(FinishBlock(s))
  {
    var s' := FinishBlock(s);
    forall k | 0 <= k < |s'.frames| && s'.frames[k].ret.Some?
      ensures k > 0 && s'.frames[k].ret.value < |s'.frames[k - 1].block.stmts|
    {
      assert s'.frames[k] == s.frames[k];
    }
    forall k | 0 <= k < |s'.frames| && s'.frames[k].owner.Some?
      ensures (s'.frames[k].owner.value.IfStmt? || s'.frames[k].owner.value.LoopStmt?) &&
              s'.frames[k].owner.value.body == s'.frames[k].block
    {
      assert s'.frames[k] == s.frames[k];
    }
  }

  /** Frames with the same blocks, parents and return statements. */
  predicate SameShape(frames: seq<Frame>, frames': seq<Frame>)
  {
    |frames| == |frames'| &&
    forall k :: 0 <= k < |frames| ==>
      frames'[k].block == frames[k].block && frames'[k].owner == frames[k].owner && frames'[k].ret == frames[k].ret
  }

  /** Keeping the shape twice keeps it. */
  lemma SameShapeTrans(a: seq<Frame>, b: seq<Frame>, c: seq<Frame>)
    ensures SameShape(a, b) && SameShape(b, c) ==> SameShape(a, c)
  {
  }

  /** Changing only slots and loop records keeps a state well formed. */
  lemma SameShapeValid(s: UnitState, frames': seq<Frame>)
    requires Valid(s) && SameShape(s.frames, frames')
    ensures Valid(s.(frames := frames'))
  {
  }

  /** TSInt_LookupVariableAddress followed by a read: the slot at frame
      `depth`, index `index`, or Unspecified when the address lies outside
      the stack or the slot was never assigned. */
  function LookupVariable(s: UnitState, b: VarBinding): (r: Outcome<Value>)
    ensures !r.Raised?
    ensures r.Done? <==> b.depth < |s.frames| && b.index < |s.frames[b.depth].vars| &&
                         s.frames[b.depth].vars[b.index].Some?
    ensures r.Done? ==> s.frames[b.depth].vars[b.index] == Some(r.value)
  {
    LookupSlot(Env(Slots(s.frames), (_, _) => Unspecified, (_, _) => None), b)
  }

  /** A slot address names a slot of the stack. */
  predicate Addressable(frames: seq<Frame>, b: VarBinding)
  {
    b.depth < |frames| && b.index < |frames[b.depth].vars|
  }

  /** The stack with one slot set to `v`. */
  function WriteSlot(frames: seq<Frame>, b: VarBinding, v: Value): (frames': seq<Frame>)
    requires Addressable(frames, b)
    ensures |frames'| == |frames|
    ensures forall k :: 0 <= k < |frames| ==>
              frames'[k].block == frames[k].block && frames'[k].owner == frames[k].owner &&
              frames'[k].ret == frames[k].ret && frames'[k].forState == frames[k].forState &&
              |frames'[k].vars| == |frames[k].vars|
    ensures frames'[b.depth].vars[b.index] == Some(v)
    ensures forall k, i :: 0 <= k < |frames| && 0 <= i < |frames[k].vars| && (k != b.depth || i != b.index) ==>
              frames'[k].vars[i] == frames[k].vars[i]
  {
    var f := frames[b.depth];
    frames[b.depth := f.(vars := f.vars[b.index := Some(v)])]
  }

  /** TSInt_PerformAssignment: evaluate the right-hand side in the
      variable's declared type; an exception leaves every slot as it was,
      otherwise the variable's slot holds the value. An unresolved name has
      no variable to address. */
  function PerformAssignment(s: UnitState, o: Oracles, a: Assignment): (r: Outcome<UnitState>)
    ensures r.Raised? <==> a.lvalue.binding.Some? &&
                           EvalExp(EnvOf(s, o), a.rvalue, a.lvalue.binding.value.ty).Raised?
    ensures r.Raised? ==> r.exception == EvalExp(EnvOf(s, o), a.rvalue, a.lvalue.binding.value.ty).exception
    ensures r.Done? ==> a.lvalue.binding.Some? && Addressable(s.frames, a.lvalue.binding.value) &&
                        EvalExp(EnvOf(s, o), a.rvalue, a.lvalue.binding.value.ty).Done? &&
                        r.value.frames == WriteSlot(s.frames, a.lvalue.binding.value,
                                                    EvalExp(EnvOf(s, o), a.rvalue, a.lvalue.binding.value.ty).value)
    ensures r.Done? ==> r.value.pc == s.pc && r.value.mode == s.mode && r.value.finish == s.finish &&
                        r.value.unitId == s.unitId && r.value.location == s.location
  {
    if a.lvalue.binding.None? then Unspecified
    else
      var b := a.lvalue.binding.value;
      var v :- EvalExp(EnvOf(s, o), a.rvalue, b.ty);
      if !Addressable(s.frames, b) then Unspecified
      else Done(s.(frames := WriteSlot(s.frames, b, v)))
  }

  /** After an assignment the variable reads back, in its declared type,
      the value assigned, and every other slot reads as before. */
  lemma AssignThenLookup(s: UnitState, o: Oracles, a: Assignment, other: VarBinding)
    requires PerformAssignment(s, o, a).Done?
    ensures var b := a.lvalue.binding.value;
            var s' := PerformAssignment(s, o, a).value;
            LookupVariable(s', b) == EvalExp(EnvOf(s, o), a.rvalue, b.ty) &&
            TypeOf(LookupVariable(s', b).value) == b.ty
    ensures var b := a.lvalue.binding.value;
            other.depth != b.depth || other.index != b.index ==>
              LookupVariable(PerformAssignment(s, o, a).value, other) == LookupVariable(s, other)
  {
  }

  /** Two variables of one block live in different slots: an assignment
      to one never changes what the other reads. */
  lemma DistinctSlotsIndependent(frames: seq<Frame>, b1: VarBinding, b2: VarBinding, v: Value)
    requires Addressable(frames, b1) && b1.depth == b2.depth && b1.index != b2.index
    ensures var s := UnitState(frames, None, 0, Run, false, 0);
            LookupVariable(s.(frames := WriteSlot(frames, b1, v)), b2) == LookupVariable(s, b2)
  {
  }
}
